/**
 Select Graphic Rendition and cursor position (sections 8.3.117 and 8.3.21 of ECMA-48), from the bytes received
 to the colour in force and the cursor.
 */
module Sgr {
  import opened Display
  import opened Machine
  import opened Invariant
  import opened Console
  import opened Parameters
  import Ansi
  import Avatar
  import Csi
  import Rejection

  const BRACKET: byte := 0x5B

  /** Between two sequences under ANSI. */
  predicate Idle(env: Env, st: State) {
    env.emulation == EmulateAnsi && Ready(env, st) && st.ansi.scan == AnsiNone
  }

  function Semicolons(s: seq<byte>): nat {
    if s == [] then 0 else Semicolons(s[..|s| - 1]) + if s[|s| - 1] == SEMICOLON then 1 else 0
  }

  /** The scan state depends on how many semicolons there were. */
  function ScanFor(held: seq<byte>): AnsiScan {
    if Semicolons(held) == 0 then AnsiCount else if Semicolons(held) == 1 then AnsiCountTwo else AnsiCountMany
  }

  /** Inside a sequence that holds the parameter bytes `held`, begun in state `st`. */
  predicate Collecting(env: Env, st: State, s: State, held: seq<byte>) {
    && env.emulation == EmulateAnsi && Inv(env, s) && !s.fault && s.last == NoCharYet
    && s.ansi.scan == ScanFor(held)
    && s.n == 2 + |held| && s.buf[0] == ESC && s.buf[1] == BRACKET && s.buf[2..s.n] == held
    && s.d == st.d && s.ansi.attributes == st.d.color && s.received == st.received + 2 + |held|
    && s.ansi == st.ansi.(scan := s.ansi.scan, count := s.ansi.count, attributes := s.ansi.attributes)
  }

  /** What a byte that prints nothing leaves. */
  lemma SilentByte(env: Env, s: State, b: byte)
    requires env.emulation == EmulateAnsi && Ready(env, s) && b != CR && b != LF
    requires Ansi.Step(env, s.(received := s.received + 1), b).status == NoCharYet
    ensures ConsoleByte(env, s, b) == Ansi.Step(env, s.(received := s.received + 1), b).st.(last := NoCharYet)
  {
    hide Ansi.Step, Avatar.Step, Inv;
    var counted := s.(received := s.received + 1);
    Rejection.ReadyParts(env, s);
    Rejection.ReadyParts(env, counted);
    AnsiStepKeeps(env, counted, b);
    assert Junk(s) == s;
  }

  lemma CollectByte(env: Env, st: State, s: State, held: seq<byte>, c: byte)
    requires Collecting(env, st, s, held) && IsListByte(c) && s.n < 127
    ensures Collecting(env, st, ConsoleByte(env, s, c), held + [c])
  {
    hide ConsoleByte, Ansi.Locate, Ansi.Colour, Ansi.Unknown, Ansi.CountEffect, Csi.Ps, Csi.ParseOne;
    assert (held + [c])[..|held|] == held;
    SilentByte(env, s, c);
    assert s.buf[s.n := c][2..s.n + 1] == s.buf[2..s.n] + [c];
  }

  lemma {:induction false} CollectAll(env: Env, st: State, s: State, held: seq<byte>, more: seq<byte>, tail: seq<byte>)
    returns (r: State)
    requires Collecting(env, st, s, held) && (forall c | c in more :: IsListByte(c)) && |held| + |more| <= 124
    ensures Collecting(env, st, r, held + more) && Feed(env, s, more + tail) == Feed(env, r, tail)
    decreases |more|
  {
    hide ConsoleByte, Feed, Inv;
    if more == [] {
      assert held + more == held && more + tail == tail;
      r := s;
    } else {
      var c := more[0];
      CollectByte(env, st, s, held, c);
      FeedIs(env, s, more + tail, c, more[1..] + tail);
      r := CollectAll(env, st, ConsoleByte(env, s, c), held + [c], more[1..], tail);
      assert held + [c] + more[1..] == held + more;
    }
  }

  lemma OneHeld(c: byte)
    ensures ScanFor([c]) == if c == SEMICOLON then AnsiCountTwo else AnsiCount
  {
    var s := [c];
    assert s[..|s| - 1] == [];
    assert Semicolons(s) == Semicolons([]) + if c == SEMICOLON then 1 else 0;
  }

  lemma Opens(env: Env, s: State, b: byte) returns (r: State)
    requires env.emulation == EmulateAnsi && Ready(env, s)
    requires || (s.ansi.scan == AnsiNone && b == ESC)
             || (s.ansi.scan == AnsiEsc && b == BRACKET)
             || (s.ansi.scan == AnsiStart && IsListByte(b))
    ensures r == ConsoleByte(env, s, b) && Ready(env, r) && r.last == NoCharYet && r.d == s.d && r.received == s.received + 1
    ensures r.buf == s.buf[s.n := b] && r.n == s.n + 1
    ensures match s.ansi.scan
            case AnsiNone => r.ansi == s.ansi.(scan := AnsiEsc, attributes := s.d.color)
            case AnsiEsc => r.ansi == s.ansi.(scan := AnsiStart)
            case _ => r.ansi == s.ansi.(scan := if IsDigit(b) then AnsiCount else AnsiCountTwo, count := s.n)
  {
    hide ConsoleByte, Ansi.Unknown, Ansi.StartEffect;
    SilentByte(env, s, b);
    r := ConsoleByte(env, s, b);
  }

  /** Behind ESC and the bracket, begun in state `st`. */
  predicate Opened(env: Env, st: State, o: State) {
    && env.emulation == EmulateAnsi && Ready(env, o)
    && o.ansi == st.ansi.(scan := AnsiStart, attributes := st.d.color)
    && o.n == 2 && o.buf[0] == ESC && o.buf[1] == BRACKET && o.d == st.d && o.received == st.received + 2
  }

  lemma BracketRuns(env: Env, st: State, tail: seq<byte>) returns (o: State)
    requires Idle(env, st)
    ensures Opened(env, st, o) && Feed(env, st, [ESC, BRACKET] + tail) == Feed(env, o, tail)
  {
    var e := Opens(env, st, ESC);
    o := Opens(env, e, BRACKET);
    hide Inv;
    FeedTwo(env, st, e, ESC, BRACKET, tail);
  }

  lemma FeedTwo(env: Env, st: State, e: State, x: byte, y: byte, tail: seq<byte>)
    requires Inv(env, st) && !st.fault && e == ConsoleByte(env, st, x) && !e.fault && Inv(env, e)
    requires Inv(env, ConsoleByte(env, e, y)) && !ConsoleByte(env, e, y).fault
    ensures Feed(env, st, [x, y] + tail) == Feed(env, ConsoleByte(env, e, y), tail)
  {
    hide ConsoleByte, Feed, Inv;
    FeedIs(env, st, [x, y] + tail, x, [y] + tail);
    FeedIs(env, e, [y] + tail, y, tail);
  }

  /** The first parameter byte. */
  lemma FirstByte(env: Env, st: State, o: State, c: byte)
    requires Opened(env, st, o) && IsListByte(c)
    ensures Collecting(env, st, ConsoleByte(env, o, c), [c])
  {
    hide ConsoleByte;
    var r := Opens(env, o, c);
    OneHeld(c);
    hide ScanFor;
    assert r.buf[2..3] == [c];
  }

  const SGR: byte := 0x6D

  lemma HeldIsHeld(env: Env, st: State, s: State, held: seq<byte>)
    requires Collecting(env, st, s, held) && s.n < 127
    ensures Holds(s.buf, 2, held) && s.buf[s.n] == 0 && (s.n < 126 ==> s.buf[s.n + 1] == 0)
    ensures s.ansi.count == 2
  {
  }

  /** A finished sequence leaves ansi() its memory, and clears the private markers. */
  predicate Carried(v: AnsiVars, w: AnsiVars) {
    && w.rep == v.rep && w.savedX == v.savedX && w.savedY == v.savedY && w.shown == v.shown
    && !w.privateMode && !w.decPrivateMode
  }

  /** m after an accepted list. */
  lemma SgrEnds(env: Env, st: State, s: State, held: seq<byte>, ps: seq<seq<byte>>)
    requires Collecting(env, st, s, held) && s.n < 127
    requires ps != [] && AllParameters(ps) && Joined(ps) == held
    ensures var r := ConsoleByte(env, s, SGR);
            && Idle(env, r) && r.d == st.d.(color := Fold(env, st.d.color, Values(ps)))
            && r.received == st.received + 3 + |held| && Carried(st.ansi, r.ansi)
  {
    HeldIsHeld(env, st, s, held);
    var pen := s.ansi.attributes.(fg := s.d.color.fg, bg := s.d.color.bg);
    assert pen == st.d.color;
    ListParsed(env, s.buf, 2, ps, pen);
    hide ConsoleByte, Csi.ParseSgr, Fold;
    var counted := s.(received := s.received + 1);
    assert Ansi.Step(env, counted, SGR) == Ansi.Colour(env, counted, SGR);
    SilentByte(env, s, SGR);
  }

  function Sequence(ps: seq<seq<byte>>): seq<byte>
    requires ps != []
  {
    [ESC, BRACKET] + Joined(ps) + [SGR]
  }

  lemma {:induction false} JoinedIsListBytes(ps: seq<seq<byte>>)
    requires ps != [] && AllParameters(ps)
    ensures Joined(ps) != [] && forall c | c in Joined(ps) :: IsListByte(c)
    decreases |ps|
  {
    assert ps[0] in ps;
    if |ps| > 1 {
      JoinedIsListBytes(ps[1..]);
    }
  }

  /** Any digits and semicolons that fit are held as they are. */
  lemma ParametersRun(env: Env, st: State, o: State, s: seq<byte>, tail: seq<byte>) returns (r: State)
    requires Opened(env, st, o) && s != [] && |s| <= 124 && forall c | c in s :: IsListByte(c)
    ensures Inv(env, o) && !o.fault
    ensures Collecting(env, st, r, s) && Feed(env, o, s + tail) == Feed(env, r, tail)
  {
    OpenedIsReady(env, st, o);
    hide ConsoleByte, Feed, Opened, Inv, Collecting;
    var c, more := s[0], s[1..];
    assert s == [c] + more && c in s;
    assert forall x | x in more :: x in s;
    FirstByte(env, st, o, c);
    hide IsListByte;
    var first := ConsoleByte(env, o, c);
    CollectingHasInv(env, st, first, [c]);
    FeedIs(env, o, s + tail, c, more + tail);
    r := CollectAll(env, st, first, [c], more, tail);
  }

  lemma OpenedIsReady(env: Env, st: State, o: State)
    requires Opened(env, st, o)
    ensures Inv(env, o) && !o.fault
  {
  }

  lemma CollectingHasInv(env: Env, st: State, s: State, held: seq<byte>)
    requires Collecting(env, st, s, held)
    ensures Inv(env, s) && !s.fault
  {
  }

  lemma StringRuns(env: Env, st: State, s: seq<byte>, tail: seq<byte>) returns (r: State)
    requires Idle(env, st) && s != [] && |s| <= 124 && forall c | c in s :: IsListByte(c)
    ensures Collecting(env, st, r, s) && Feed(env, st, [ESC, BRACKET] + s + tail) == Feed(env, r, tail)
  {
    hide ConsoleByte, Feed, Idle, Inv, Collecting, Opened, IsListByte;
    var o := BracketRuns(env, st, s + tail);
    r := ParametersRun(env, st, o, s, tail);
    assert [ESC, BRACKET] + s + tail == [ESC, BRACKET] + (s + tail);
  }

  /** ESC [ p1;...;pk m colours what follows as if its parameters were applied one after another. */
  lemma SgrFolds(env: Env, st: State, ps: seq<seq<byte>>)
    requires Idle(env, st) && ps != [] && AllParameters(ps) && |Joined(ps)| <= 124
    ensures var r := Feed(env, st, Sequence(ps));
            && Idle(env, r) && r.d == st.d.(color := Fold(env, st.d.color, Values(ps)))
            && r.received == st.received + |Sequence(ps)| && Carried(st.ansi, r.ansi)
  {
    hide Carried, ConsoleByte, Feed, Fold, AllParameters, Idle, Joined, IsListByte;
    JoinedIsListBytes(ps);
    var s := Joined(ps);
    var last := StringRuns(env, st, s, [SGR]);
    SgrEnds(env, st, last, s, ps);
    LastByte(env, st, last, s, SGR);
  }

  lemma LastByte(env: Env, st: State, s: State, held: seq<byte>, b: byte)
    requires Collecting(env, st, s, held)
    ensures Feed(env, s, [b]) == ConsoleByte(env, s, b)
  {
    hide ConsoleByte, Feed;
    FeedIs(env, s, [b], b, []);
  }

  lemma {:induction false} FoldConcat(env: Env, pen: Attr, vs: seq<int>, ws: seq<int>)
    ensures Fold(env, pen, vs + ws) == Fold(env, Fold(env, pen, vs), ws)
    decreases |vs|
  {
    hide Csi.SgrStep;
    if vs == [] {
      assert vs + ws == ws;
    } else {
      assert (vs + ws)[1..] == vs[1..] + ws;
      FoldConcat(env, Csi.SgrStep(env, pen, vs[0]), vs[1..], ws);
    }
  }

  lemma {:induction false} ValuesConcat(ps: seq<seq<byte>>, qs: seq<seq<byte>>)
    ensures Values(ps + qs) == Values(ps) + Values(qs)
    decreases |ps|
  {
    if ps == [] {
      assert ps + qs == qs;
    } else {
      assert (ps + qs)[1..] == ps[1..] + qs;
      ValuesConcat(ps[1..], qs);
    }
  }

  /** One sequence with two lists of parameters does what the two sequences in a row do. */
  lemma SgrSplits(env: Env, st: State, ps: seq<seq<byte>>, qs: seq<seq<byte>>)
    requires Idle(env, st) && ps != [] && qs != [] && AllParameters(ps) && AllParameters(qs)
    requires |Joined(ps)| <= 124 && |Joined(qs)| <= 124 && |Joined(ps + qs)| <= 124
    ensures Feed(env, st, Sequence(ps + qs)).d == Feed(env, st, Sequence(ps) + Sequence(qs)).d
  {
    hide Feed, Fold, Inv;
    assert AllParameters(ps + qs);
    SgrFolds(env, st, ps + qs);
    SgrFolds(env, st, ps);
    SgrFolds(env, Feed(env, st, Sequence(ps)), qs);
    FeedConcat(env, st, Sequence(ps), Sequence(qs));
    ValuesConcat(ps, qs);
    FoldConcat(env, st.d.color, Values(ps), Values(qs));
  }

  lemma {:induction false} PutAllColor(d: Display, chs: seq<int>)
    ensures d.PutAll(chs).color == d.color
    decreases chs
  {
    if chs != [] {
      PutAllColor(d.Put(chs[0]), chs[1..]);
    }
  }

  /** m after a string that is no list: it is printed, and the colour stays as it was. */
  lemma RejectedSgrKeepsColor(env: Env, st: State, s: State, held: seq<byte>)
    requires Collecting(env, st, s, held) && s.n < 127 && (forall c | c in held :: IsListByte(c)) && !IsList(held)
    ensures ConsoleByte(env, s, SGR).d.color == st.d.color
    ensures TerminalEmulator(env, s, SGR).status == ManyChars
  {
    HeldIsHeld(env, st, s, held);
    var counted := s.(received := s.received + 1);
    var pen := s.ansi.attributes.(fg := s.d.color.fg, bg := s.d.color.bg);
    AcceptsExactlyLists(env, s.buf, 2, held, pen);
    hide Csi.ParseSgr, IsList, TerminalEmulator, ConsoleByte, AnsiKept;
    assert Ansi.Step(env, counted, SGR) == Ansi.Colour(env, counted, SGR);
    hide Ansi.Step;
    Rejection.AnsiCall(env, s, SGR);
    Rejection.AnsiRejects(env, s, SGR);
    if s.n + 1 < 127 {
      Rejection.AnsiRejectionConserves(env, s, SGR);
      PutAllColor(s.d.Put(s.buf[0]), Rejection.Glyphs(env, s.buf[1..s.n] + [SGR]));
    } else {
      Rejection.AnsiRejectionLoses(env, s, SGR);
    }
  }

  // ------------------------------------------------------- what a list means

  /** The colours in the order of section 8.3.117 of ECMA-48. */
  function Palette(k: int): Color {
    match k
    case 0 => Black
    case 1 => Red
    case 2 => Green
    case 3 => Yellow
    case 4 => Blue
    case 5 => Magenta
    case 6 => Cyan
    case _ => White
  }

  datatype Part = Foreground | Background | Bold | Dim | Underline | Blink | Reverse

  /** The parameters about a part of the pen.  38 and 39 are about bold only when plain text is bold. */
  predicate IsAbout(env: Env, part: Part, v: int) {
    match part
    case Foreground => v == 0 || 30 <= v <= 39
    case Background => v == 0 || 40 <= v <= 47 || v == 49
    case Bold => v == 0 || v == 1 || v == 21 || v == 22 || (env.textBold && (v == 38 || v == 39))
    case Dim => v == 0 || v == 2 || v == 21 || v == 22
    case Underline => v == 0 || v == 4 || v == 24 || v == 38 || v == 39 || v == 49
    case Blink => v == 0 || v == 5 || v == 25
    case Reverse => v == 0 || v == 7 || v == 27
  }

  /** The last parameter about a part, or -1. */
  function Last(env: Env, part: Part, vs: seq<int>): int
    decreases |vs|
  {
    if vs == [] then -1
    else if IsAbout(env, part, vs[|vs| - 1]) then vs[|vs| - 1]
    else Last(env, part, vs[..|vs| - 1])
  }

  /** A colour of the palette, or that of plain text. */
  function ColorOf(before: Color, last: int, first: int, text: Color): Color {
    if last == -1 then before else if first <= last < first + 8 then Palette(last - first) else text
  }

  predicate Flag(before: bool, last: int, on: bool) {
    if last == -1 then before else on
  }

  predicate ColorsDecided(env: Env, pen: Attr, r: Attr, foreground: int, background: int) {
    && r.fg == ColorOf(pen.fg, foreground, 30, env.textFg)
    && r.bg == ColorOf(pen.bg, background, 40, env.textBg)
  }

  predicate FlagsDecided(env: Env, pen: Attr, r: Attr, bold: int, dim: int, underline: int, blink: int, reverse: int) {
    && r.bold == Flag(pen.bold, bold, if bold in {0, 38, 39} then env.textBold else bold == 1)
    && r.dim == Flag(pen.dim, dim, dim == 2)
    && r.underline == Flag(pen.underline, underline, underline == 4 || underline == 38)
    && r.blink == Flag(pen.blink, blink, blink == 5)
    && r.reverse == Flag(pen.reverse, reverse, reverse == 7)
  }

  /** Every part of the pen is decided by the last parameter about it. */
  predicate Decided(env: Env, pen: Attr, vs: seq<int>, r: Attr) {
    && ColorsDecided(env, pen, r, Last(env, Foreground, vs), Last(env, Background, vs))
    && FlagsDecided(env, pen, r, Last(env, Bold, vs), Last(env, Dim, vs), Last(env, Underline, vs),
                    Last(env, Blink, vs), Last(env, Reverse, vs))
  }

  function Later(env: Env, part: Part, last: int, v: int): int {
    if IsAbout(env, part, v) then v else last
  }

  lemma LastOfMore(env: Env, part: Part, vs: seq<int>, v: int)
    ensures Last(env, part, vs + [v]) == Later(env, part, Last(env, part, vs), v)
  {
    assert (vs + [v])[..|vs|] == vs;
  }

  lemma StepForeground(env: Env, r: Attr, v: int)
    ensures Csi.SgrStep(env, r, v).fg == ColorOf(r.fg, Later(env, Foreground, -1, v), 30, env.textFg)
  {
    if 30 <= v <= 37 {
      assert v == 30 || v == 31 || v == 32 || v == 33 || v == 34 || v == 35 || v == 36 || v == 37;
    }
  }

  lemma StepBackground(env: Env, r: Attr, v: int)
    ensures Csi.SgrStep(env, r, v).bg == ColorOf(r.bg, Later(env, Background, -1, v), 40, env.textBg)
  {
    if 40 <= v <= 47 {
      assert v == 40 || v == 41 || v == 42 || v == 43 || v == 44 || v == 45 || v == 46 || v == 47;
    }
  }

  lemma StepDecidesColors(env: Env, pen: Attr, r: Attr, v: int, foreground: int, background: int)
    requires ColorsDecided(env, pen, r, foreground, background)
    ensures ColorsDecided(env, pen, Csi.SgrStep(env, r, v), Later(env, Foreground, foreground, v),
                          Later(env, Background, background, v))
  {
    hide Csi.SgrStep;
    StepForeground(env, r, v);
    StepBackground(env, r, v);
  }

  lemma StepBold(env: Env, r: Attr, v: int)
    ensures var b := Later(env, Bold, -1, v);
      Csi.SgrStep(env, r, v).bold == Flag(r.bold, b, if b in {0, 38, 39} then env.textBold else b == 1)
  {
  }

  lemma StepDim(env: Env, r: Attr, v: int)
    ensures var d := Later(env, Dim, -1, v); Csi.SgrStep(env, r, v).dim == Flag(r.dim, d, d == 2)
  {
  }

  lemma StepUnderline(env: Env, r: Attr, v: int)
    ensures var u := Later(env, Underline, -1, v);
      Csi.SgrStep(env, r, v).underline == Flag(r.underline, u, u == 4 || u == 38)
  {
  }

  lemma StepBlink(env: Env, r: Attr, v: int)
    ensures var b := Later(env, Blink, -1, v); Csi.SgrStep(env, r, v).blink == Flag(r.blink, b, b == 5)
  {
  }

  lemma StepReverse(env: Env, r: Attr, v: int)
    ensures var i := Later(env, Reverse, -1, v); Csi.SgrStep(env, r, v).reverse == Flag(r.reverse, i, i == 7)
  {
  }

  lemma StepDecidesFlags(env: Env, pen: Attr, r: Attr, v: int, bold: int, dim: int, underline: int, blink: int, reverse: int)
    requires FlagsDecided(env, pen, r, bold, dim, underline, blink, reverse)
    ensures FlagsDecided(env, pen, Csi.SgrStep(env, r, v), Later(env, Bold, bold, v), Later(env, Dim, dim, v),
                         Later(env, Underline, underline, v), Later(env, Blink, blink, v), Later(env, Reverse, reverse, v))
  {
    hide Csi.SgrStep;
    StepBold(env, r, v);
    StepDim(env, r, v);
    StepUnderline(env, r, v);
    StepBlink(env, r, v);
    StepReverse(env, r, v);
  }

  lemma StepDecides(env: Env, pen: Attr, vs: seq<int>, r: Attr, v: int)
    requires Decided(env, pen, vs, r)
    ensures Decided(env, pen, vs + [v], Csi.SgrStep(env, r, v))
  {
    hide Last, Later, ColorsDecided, FlagsDecided, Csi.SgrStep;
    forall part: Part ensures Last(env, part, vs + [v]) == Later(env, part, Last(env, part, vs), v) {
      LastOfMore(env, part, vs, v);
    }
    StepDecidesColors(env, pen, r, v, Last(env, Foreground, vs), Last(env, Background, vs));
    StepDecidesFlags(env, pen, r, v, Last(env, Bold, vs), Last(env, Dim, vs), Last(env, Underline, vs),
                     Last(env, Blink, vs), Last(env, Reverse, vs));
  }

  /** Whatever the list, each colour and each flag is what the last parameter about it says, in any order of the others. */
  lemma {:induction false} LastDecides(env: Env, pen: Attr, vs: seq<int>)
    ensures Decided(env, pen, vs, Fold(env, pen, vs))
    decreases |vs|
  {
    if vs != [] {
      hide Decided, Csi.SgrStep;
      var before, v := vs[..|vs| - 1], vs[|vs| - 1];
      assert vs == before + [v];
      LastDecides(env, pen, before);
      FoldConcat(env, pen, before, [v]);
      assert [v][1..] == [];
      StepDecides(env, pen, before, Fold(env, pen, before), v);
    }
  }

  // ---------------------------------------------------------------- position

  lemma {:induction false} NoSemicolons(s: seq<byte>)
    requires forall c | c in s :: c != SEMICOLON
    ensures Semicolons(s) == 0
    decreases |s|
  {
    if s != [] {
      var front := s[..|s| - 1];
      assert s[|s| - 1] in s;
      forall c | c in front ensures c != SEMICOLON {
        assert c in s;
      }
      NoSemicolons(front);
    }
  }

  lemma {:induction false} OneSemicolon(s: seq<byte>)
    requires IsPositionString(s)
    ensures Semicolons(s) <= 1
    decreases |s|
  {
    if s != [] {
      var front := s[..|s| - 1];
      assert forall i | 0 <= i < |front| :: front[i] == s[i];
      if s[|s| - 1] == SEMICOLON {
        forall c | c in front ensures c != SEMICOLON {
          var i :| 0 <= i < |front| && front[i] == c;
          assert s[i] == c;
        }
        NoSemicolons(front);
      } else {
        OneSemicolon(front);
      }
    }
  }

  /** H or f after some parameter bytes moves the cursor exactly when they form a position, and is printed otherwise. */
  lemma LocateExactly(env: Env, st: State, s: State, held: seq<byte>, b: byte)
    requires Collecting(env, st, s, held) && s.n < 126 && held != [] && IsPositionString(held)
    requires b == 'H' as int || b == 'f' as int
    ensures match Csi.ParsePosition(s.buf, 2)
            case Position(row, column) =>
              && IsLocation(held, row, column)
              && Idle(env, ConsoleByte(env, s, b)) && ConsoleByte(env, s, b).d == st.d.Emit(CursorPosition(row, column))
            case BadPosition =>
              && (forall row, column :: !IsLocation(held, row, column))
              && TerminalEmulator(env, s, b).status == ManyChars
              && Rejection.PrintedBack(env, s, b, ConsoleByte(env, s, b).d)
  {
    HeldIsHeld(env, st, s, held);
    LocatesExactly(s.buf, 2, held);
    OneSemicolon(held);
    hide Csi.ParsePosition, IsLocation;
    var counted := s.(received := s.received + 1);
    assert Ansi.Step(env, counted, b) == Ansi.Locate(env, counted, b);
    hide Ansi.Step, AnsiKept;
    if Csi.ParsePosition(s.buf, 2).Position? {
      SilentByte(env, s, b);
      hide ConsoleByte;
    } else {
      hide TerminalEmulator, ConsoleByte;
      Rejection.AnsiCall(env, s, b);
      Rejection.AnsiRejectionConserves(env, s, b);
    }
  }
}
