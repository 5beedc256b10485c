/**
 The parameter strings of ANSI sequences: which ones the parsers of source/ansi.c accept, and what they make of them,
 from the bytes received to the colour or the cursor position.
 */
module Parameters {
  import opened Display
  import Csi

  const SEMICOLON: byte := 0x3B

  /** A parameter: one to six digits. */
  predicate IsParameter(p: seq<byte>) {
    1 <= |p| <= 6 && forall c | c in p :: IsDigit(c)
  }

  ghost predicate AllParameters(ps: seq<seq<byte>>) { forall p | p in ps :: IsParameter(p) }

  /** The parameters with semicolons between them. */
  function Joined(ps: seq<seq<byte>>): seq<byte>
    requires ps != []
    decreases |ps|
  {
    if |ps| == 1 then ps[0] else ps[0] + [SEMICOLON] + Joined(ps[1..])
  }

  function Values(ps: seq<seq<byte>>): seq<int> {
    if ps == [] then [] else [Csi.Value(ps[0])] + Values(ps[1..])
  }

  /** The parameters applied one after another. */
  function Fold(env: Env, pen: Attr, vs: seq<int>): Attr
    decreases |vs|
  {
    if vs == [] then pen else Fold(env, Csi.SgrStep(env, pen, vs[0]), vs[1..])
  }

  /** `s` lies at `at`, and a zero cell follows. */
  predicate Holds(buf: seq<byte>, at: nat, s: seq<byte>) {
    |buf| == 128 && at + |s| <= 127 && buf[at..at + |s|] == s && Csi.Cell(buf, at + |s|) == 0
  }

  /** `s` lies at `at`, and the cell after it goes on with no parameter. */
  predicate Followed(buf: seq<byte>, at: nat, s: seq<byte>) {
    && |buf| == 128 && at + |s| <= 127 && buf[at..at + |s|] == s
    && !IsDigit(Csi.Cell(buf, at + |s|)) && Csi.Cell(buf, at + |s|) != SEMICOLON
  }

  // ------------------------------------------------------------ one parameter

  lemma {:induction false} DigitsCounted(buf: seq<byte>, at: nat, p: seq<byte>, limit: nat)
    requires at + |p| <= |buf| && buf[at..at + |p|] == p && |p| <= limit
    requires (forall c | c in p :: IsDigit(c)) && !IsDigit(Csi.Cell(buf, at + |p|))
    ensures Csi.DigitCount(buf, at, limit) == |p|
    decreases |p|
  {
    if p != [] {
      assert buf[at] == p[0] && p[0] in p;
      assert p[1..] == buf[at + 1..at + 1 + |p[1..]|];
      DigitsCounted(buf, at + 1, p[1..], limit - 1);
    }
  }

  lemma ParameterRead(buf: seq<byte>, at: nat, p: seq<byte>)
    requires IsParameter(p) && at + |p| <= |buf| && buf[at..at + |p|] == p && !IsDigit(Csi.Cell(buf, at + |p|))
    ensures Csi.Ps(buf, at) == Csi.Number(Csi.Value(p), at + |p|) && 0 <= Csi.Value(p)
  {
    hide Csi.Value, Csi.DigitCount;
    DigitsCounted(buf, at, p, 6);
    assert Csi.Ps(buf, at).value == Csi.Value(p);
  }

  /** What ansi_ps() accepts is a parameter that is not followed by another digit. */
  lemma ReadIsParameter(buf: seq<byte>, at: nat)
    requires Csi.Ps(buf, at).value != -1
    ensures var end := Csi.Ps(buf, at).end;
            && at < end <= |buf| && IsParameter(buf[at..end]) && !IsDigit(Csi.Cell(buf, end))
            && Csi.Ps(buf, at).value == Csi.Value(buf[at..end])
  {
    var k := Csi.DigitCount(buf, at, 6);
    assert forall c | c in buf[at..at + k] :: IsDigit(c);
  }

  // -------------------------------------------------------------------- SGR

  lemma HoldsPart(buf: seq<byte>, at: nat, s: seq<byte>, k: nat)
    requires Holds(buf, at, s) && k <= |s|
    ensures at + k <= 127 && buf[at..at + k] == s[..k]
    ensures k == |s| ==> Csi.Cell(buf, at + k) == 0
    ensures k < |s| ==> Csi.Cell(buf, at + k) == s[k] && Holds(buf, at + k + 1, s[k + 1..])
  {
    assert buf[at..at + |s|][..k] == buf[at..at + k];
    if k < |s| {
      assert buf[at + k] == buf[at..at + |s|][k];
      assert buf[at..at + |s|][k + 1..] == buf[at + k + 1..at + |s|];
    }
  }

  lemma FollowedPart(buf: seq<byte>, at: nat, s: seq<byte>, k: nat)
    requires Followed(buf, at, s) && k <= |s|
    ensures |buf| == 128 && at + k <= 127 && buf[at..at + k] == s[..k]
    ensures k == |s| ==> !IsDigit(Csi.Cell(buf, at + k)) && Csi.Cell(buf, at + k) != SEMICOLON
    ensures k < |s| ==> Csi.Cell(buf, at + k) == s[k] && Followed(buf, at + k + 1, s[k + 1..])
  {
    assert buf[at..at + |s|][..k] == buf[at..at + k];
    if k < |s| {
      assert buf[at + k] == buf[at..at + |s|][k];
      assert buf[at..at + |s|][k + 1..] == buf[at + k + 1..at + |s|];
    }
  }

  lemma {:induction false} ListParsed(env: Env, buf: seq<byte>, at: nat, ps: seq<seq<byte>>, pen: Attr)
    requires ps != [] && AllParameters(ps) && Followed(buf, at, Joined(ps))
    ensures Csi.ParseSgr(env, buf, at, pen) == Csi.Sgr(true, Fold(env, pen, Values(ps)))
    decreases |ps|
  {
    hide Csi.SgrStep, Csi.Ps, Csi.Value, Csi.Cell, Followed, IsParameter;
    var s, p := Joined(ps), ps[0];
    assert p in ps;
    assert s[..|p|] == p;
    FollowedPart(buf, at, s, |p|);
    ParameterRead(buf, at, p);
    var v := Csi.Value(p);
    if |ps| == 1 {
      assert Values(ps) == [v] + Values(ps[1..]) && ps[1..] == [];
      assert Fold(env, Csi.SgrStep(env, pen, v), []) == Csi.SgrStep(env, pen, v);
    } else {
      assert s[|p| + 1..] == Joined(ps[1..]);
      assert Values(ps)[1..] == Values(ps[1..]);
      ListParsed(env, buf, at + |p| + 1, ps[1..], Csi.SgrStep(env, pen, v));
    }
  }

  lemma BufferSize(buf: seq<byte>, at: nat, s: seq<byte>)
    requires Holds(buf, at, s)
    ensures |buf| == 128
  {
  }

  predicate IsListByte(c: byte) { IsDigit(c) || c == SEMICOLON }

  /** The first parameter of an accepted string, and what follows it. */
  lemma FirstParameter(buf: seq<byte>, at: nat, s: seq<byte>) returns (k: nat)
    requires Holds(buf, at, s) && (forall c | c in s :: IsListByte(c)) && Csi.Ps(buf, at).value != -1
    ensures 0 < k <= |s| && IsParameter(s[..k]) && Csi.Ps(buf, at) == Csi.Number(Csi.Value(s[..k]), at + k)
    ensures k < |s| ==> s[k] == SEMICOLON
    ensures Csi.Cell(buf, at + k) == SEMICOLON <==> k < |s|
  {
    var number := Csi.Ps(buf, at);
    ReadIsParameter(buf, at);
    hide Csi.Ps, Csi.Value;
    k := number.end - at;
    var p := buf[at..number.end];
    HoldsPart(buf, at, s, |s|);
    HoldsPart(buf, at, s, k);
    if k < |s| {
      assert s[k] in s;
    }
  }

  lemma {:induction false} ParsedIsList(env: Env, buf: seq<byte>, at: nat, s: seq<byte>, pen: Attr) returns (ps: seq<seq<byte>>)
    requires Holds(buf, at, s) && (forall c | c in s :: IsListByte(c)) && Csi.ParseSgr(env, buf, at, pen).ok
    ensures ps != [] && AllParameters(ps) && Joined(ps) == s
    decreases |s|
  {
    hide Csi.SgrStep, Csi.Ps, Csi.Value, Csi.Cell, Holds, IsParameter;
    var k := FirstParameter(buf, at, s);
    if k < |s| {
      HoldsPart(buf, at, s, k);
      BufferSize(buf, at, s);
      var tail := ParsedIsList(env, buf, at + k + 1, s[k + 1..], Csi.SgrStep(env, pen, Csi.Ps(buf, at).value));
      ps := [s[..k]] + tail;
      assert ps[1..] == tail;
      assert s == s[..k] + [s[k]] + s[k + 1..];
    } else {
      ps := [s];
      assert s == s[..k];
    }
  }

  /** A string of digits and semicolons that is a list of parameters. */
  ghost predicate IsList(s: seq<byte>) {
    exists ps :: ps != [] && AllParameters(ps) && Joined(ps) == s
  }

  /** ansi_color() accepts exactly the lists of parameters, and folds them. */
  lemma AcceptsExactlyLists(env: Env, buf: seq<byte>, at: nat, s: seq<byte>, pen: Attr)
    requires Holds(buf, at, s) && forall c | c in s :: IsListByte(c)
    ensures Csi.ParseSgr(env, buf, at, pen).ok <==> IsList(s)
  {
    if Csi.ParseSgr(env, buf, at, pen).ok {
      var ps := ParsedIsList(env, buf, at, s, pen);
    }
    if IsList(s) {
      var ps :| ps != [] && AllParameters(ps) && Joined(ps) == s;
      ListParsed(env, buf, at, ps, pen);
    }
  }

  // --------------------------------------------------------------- positions

  /** A 1-based number as a 0-based one; 0 counts as 1. */
  function ZeroBased(v: int): int {
    if v < 1 then 0 else v - 1
  }

  /** What can be in the buffer when H or f ends a sequence: a second semicolon would have ruled them out. */
  predicate IsPositionString(s: seq<byte>) {
    && (forall c | c in s :: IsListByte(c))
    && (forall i, j | 0 <= i < |s| && 0 <= j < |s| && s[i] == s[j] == SEMICOLON :: i == j)
  }

  /** What follows the row: nothing, or a semicolon and a column. */
  ghost predicate IsColumn(s: seq<byte>, column: int) {
    (s == [] && column == 0) ||
    (s != [] && s[0] == SEMICOLON && IsParameter(s[1..]) && column == ZeroBased(Csi.Value(s[1..])))
  }

  lemma ColumnExactly(buf: seq<byte>, at: nat, s: seq<byte>, row: int)
    requires Holds(buf, at, s) && IsPositionString(s) && (s == [] || s[0] == SEMICOLON)
    requires at + |s| + 1 <= 127 && buf[at + |s| + 1] == 0
    ensures match Csi.ParseColumn(buf, at, row)
            case BadPosition => forall column :: !IsColumn(s, column)
            case Position(r, column) => r == row && IsColumn(s, column)
  {
    hide Csi.Ps, Csi.Value;
    HoldsPart(buf, at, s, 0);
    if s != [] {
      NumberExactly(buf, at + 1, s);
    }
  }

  lemma NumberExactly(buf: seq<byte>, at: nat, s: seq<byte>)
    requires 0 < at && Holds(buf, at - 1, s) && IsPositionString(s) && s != [] && s[0] == SEMICOLON
    ensures var t := s[1..];
            if IsParameter(t) then Csi.Ps(buf, at) == Csi.Number(Csi.Value(t), at + |t|) && Csi.Value(t) != -1
            else Csi.Ps(buf, at).value == -1
  {
    hide Csi.Ps, Csi.Value;
    var t := s[1..];
    HoldsPart(buf, at - 1, s, 0);
    AfterSemicolon(s);
    hide IsPositionString;
    HoldsPart(buf, at, t, |t|);
    assert t[..|t|] == t;
    if Csi.Ps(buf, at).value != -1 {
      var k := FirstParameter(buf, at, t);
      assert t[..k] == t;
    } else if IsParameter(t) {
      ParameterRead(buf, at, t);
    }
  }

  lemma AfterSemicolon(s: seq<byte>)
    requires IsPositionString(s) && s != [] && s[0] == SEMICOLON
    ensures forall c | c in s[1..] :: IsDigit(c) && c != SEMICOLON && IsListByte(c)
    ensures forall j | 0 <= j < |s[1..]| :: s[1..][j] != SEMICOLON
  {
    assert forall j | 0 <= j < |s[1..]| :: s[1..][j] == s[j + 1] && s[j + 1] in s;
  }

  /** A position: a row, a row and a column, or a lone semicolon.  A semicolon with only one number beside it is none. */
  ghost predicate IsLocation(s: seq<byte>, row: int, column: int) {
    || (s == [SEMICOLON] && row == 0 && column == 0)
    || (exists k :: 0 < k <= |s| && IsParameter(s[..k]) && row == ZeroBased(Csi.Value(s[..k])) && IsColumn(s[k..], column))
  }

  lemma SplitIsUnique(s: seq<byte>, k: nat, l: nat, column: int)
    requires k <= |s| && IsParameter(s[..k]) && 0 < l <= |s| && IsParameter(s[..l]) && IsColumn(s[l..], column)
    requires k < |s| ==> s[k] == SEMICOLON
    ensures k == l
  {
    assert forall j | 0 <= j < k :: s[..k][j] == s[j] && s[j] in s[..k];
    assert forall j | 0 <= j < l :: s[..l][j] == s[j] && s[j] in s[..l];
    ColumnStarts(s, l, column);
  }

  lemma ColumnStarts(s: seq<byte>, l: nat, column: int)
    requires l <= |s| && IsColumn(s[l..], column)
    ensures l < |s| ==> s[l] == SEMICOLON
  {
  }

  /** ansi_position() accepts exactly the positions. */
  lemma LocatesExactly(buf: seq<byte>, at: nat, s: seq<byte>)
    requires Holds(buf, at, s) && IsPositionString(s) && s != []
    requires at + |s| + 1 <= 127 && buf[at + |s| + 1] == 0
    ensures match Csi.ParsePosition(buf, at)
            case BadPosition => forall row, column :: !IsLocation(s, row, column)
            case Position(row, column) => IsLocation(s, row, column)
  {
    HoldsPart(buf, at, s, 0);
    if s[0] == SEMICOLON {
      LoneSemicolon(buf, at, s);
    } else if Csi.Ps(buf, at).value != -1 {
      var k := FirstParameter(buf, at, s);
      RowAndColumn(buf, at, s, k);
    } else {
      forall k, column | 0 < k <= |s| ensures !(IsParameter(s[..k]) && IsColumn(s[k..], column)) {
        NotSplit(buf, at, s, k, column);
      }
    }
    hide Csi.Ps, Csi.Value;
  }

  lemma NotSplit(buf: seq<byte>, at: nat, s: seq<byte>, k: nat, column: int)
    requires Holds(buf, at, s) && Csi.Ps(buf, at).value == -1 && 0 < k <= |s|
    ensures !(IsParameter(s[..k]) && IsColumn(s[k..], column))
  {
    if IsParameter(s[..k]) && IsColumn(s[k..], column) {
      ColumnStarts(s, k, column);
      HoldsPart(buf, at, s, k);
      ParameterRead(buf, at, s[..k]);
    }
  }

  lemma LoneSemicolon(buf: seq<byte>, at: nat, s: seq<byte>)
    requires Holds(buf, at, s) && IsPositionString(s) && s != [] && s[0] == SEMICOLON
    requires at + |s| + 1 <= 127 && buf[at + |s| + 1] == 0
    ensures Csi.ParsePosition(buf, at) == (if |s| == 1 then Csi.Position(0, 0) else Csi.BadPosition)
    ensures forall k | 0 < k <= |s| :: !IsParameter(s[..k])
  {
    HoldsPart(buf, at, s, 0);
    forall k | 0 < k <= |s| ensures !IsParameter(s[..k]) {
      assert s[..k][0] == s[0] && s[0] in s[..k];
    }
    if |s| > 1 {
      HoldsPart(buf, at, s, 1);
      assert s[1] in s;
      assert s[1] != SEMICOLON;
    }
  }

  lemma RowAndColumn(buf: seq<byte>, at: nat, s: seq<byte>, k: nat)
    requires Holds(buf, at, s) && IsPositionString(s) && at + |s| + 1 <= 127 && buf[at + |s| + 1] == 0
    requires 0 < k <= |s| && IsParameter(s[..k]) && Csi.Ps(buf, at) == Csi.Number(Csi.Value(s[..k]), at + k)
    requires Csi.Value(s[..k]) != -1 && s[0] != SEMICOLON && (k < |s| ==> s[k] == SEMICOLON)
    ensures match Csi.ParsePosition(buf, at)
            case BadPosition => forall row, column :: !IsLocation(s, row, column)
            case Position(row, column) => IsLocation(s, row, column)
  {
    hide Csi.Ps, Csi.Value, Csi.ParseColumn;
    HoldsPart(buf, at, s, 0);
    var rest := s[k..];
    var row := ZeroBased(Csi.Value(s[..k]));
    HoldsPart(buf, at, s, k);
    assert buf[at..at + |s|][k..] == buf[at + k..at + |s|];
    assert Holds(buf, at + k, rest);
    assert IsPositionString(rest) by {
      assert forall i | 0 <= i < |rest| :: rest[i] == s[k + i] && s[k + i] in s;
    }
    ColumnExactly(buf, at + k, rest, row);
    forall l, column | 0 < l <= |s| && IsParameter(s[..l]) && IsColumn(s[l..], column) ensures l == k {
      SplitIsUnique(s, k, l, column);
    }
  }
}
