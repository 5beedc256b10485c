/**
 ANSI sequence by sequence: the proof that the console shows the meanings of any list of them in order, whatever bytes
 their operands are made of.
 */
module AnsiFraming {
  import opened Display
  import opened Machine
  import opened Invariant
  import opened Console
  import opened Controls
  import opened Decimal
  import opened AnsiMeaning
  import Ansi
  import Csi
  import Conservation
  import Parameters
  import Rejection
  import Sgr

  /** Running a sequence leaves the screen it means, between two sequences, with every byte counted. */
  predicate Ran(env: Env, st: State, r: State, s: Screen, bytes: nat) {
    Sgr.Idle(env, r) && ScreenOf(r) == s && r.received == st.received + bytes
  }

  // ------------------------------------------------------------- finished sequences

  /** Inside a sequence begun in state `st`, of which so many bytes have come. */
  predicate Within(env: Env, st: State, s: State, bytes: nat) {
    && env.emulation == EmulateAnsi && Ready(env, s) && s.d == st.d && s.received == st.received + bytes
    && s.ansi.rep == st.ansi.rep && s.ansi.savedX == st.ansi.savedX && s.ansi.savedY == st.ansi.savedY
    && s.ansi.shown == st.ansi.shown
  }

  /** The byte that ends it. */
  lemma FinalRuns(env: Env, st: State, s: State, b: byte, t: State, bytes: nat)
    requires Within(env, st, s, bytes) && b != CR && b != LF
    requires var counted := s.(received := s.received + 1);
      Ansi.Step(env, counted, b) == Ansi.Done(t) && t == counted.(d := t.d, ansi := t.ansi)
    ensures Ran(env, st, Feed(env, s, [b]), ScreenOf(t).(marked := false), bytes + 1)
  {
    hide Ansi.Step, ConsoleByte, Feed;
    Sgr.SilentByte(env, s, b);
    FeedIs(env, s, [b], b, []);
  }

  lemma OpenedIsWithin(env: Env, st: State, o: State)
    requires Sgr.Opened(env, st, o)
    ensures Within(env, st, o, 2)
  {
  }

  lemma CollectingIsWithin(env: Env, st: State, s: State, held: seq<byte>)
    requires Sgr.Collecting(env, st, s, held) && s.n < 127
    ensures Within(env, st, s, 2 + |held|)
  {
  }

  // ------------------------------------------------------------- plain bytes

  lemma PrintedByte(env: Env, st: State, b: byte)
    requires Sgr.Idle(env, st) && IsPrintable(b)
    ensures Ran(env, st, ConsoleByte(env, st, b), Printed(env, ScreenOf(st), env.glyph(b)), 1)
  {
    var counted := st.(received := st.received + 1);
    assert Ansi.Step(env, counted, b) == Ansi.Ground(env, counted, b);
    hide Ansi.Step;
  }

  lemma ControlByte(env: Env, st: State, b: byte)
    requires Sgr.Idle(env, st) && !IsPrintable(b) && b != ESC && b != CR && b != LF
    ensures Ran(env, st, ConsoleByte(env, st, b), Meaning(env, ScreenOf(st), Plain(b)), 1)
  {
    hide ConsoleByte, Control, ControlMeaning;
    ControlIsMeant(env, st.d, b);
    Sgr.SilentByte(env, st, b);
  }

  lemma PlainRuns(env: Env, st: State, b: byte)
    requires Sgr.Idle(env, st) && b != ESC
    ensures Ran(env, st, ConsoleByte(env, st, b), Meaning(env, ScreenOf(st), Plain(b)), 1)
  {
    if IsPrintable(b) {
      hide ConsoleByte;
      PrintedByte(env, st, b);
    } else if b == CR || b == LF {
      hide ConsoleByte;
      Conservation.NotReturned(env, st, b);
    } else {
      hide ConsoleByte;
      ControlByte(env, st, b);
    }
  }

  // ------------------------------------------------------------- one parameter

  /** The number that the parsers of these three take one off. */
  function Bias(f: Function): nat {
    if f in {CHA, VPA, CHT} then 1 else 0
  }

  lemma {:induction false} PutOften(d: Display, ch: int, n: nat)
    ensures d.PutTimes(ch, n) == d.(trace := d.trace + Often(Event.Print(ch, d.color, d.insert), n))
    decreases n
  {
    var e := Event.Print(ch, d.color, d.insert);
    if n == 0 {
      assert d.trace + [] == d.trace;
    } else {
      PutOften(d, ch, n - 1);
      assert Often(e, n) == Often(e, n - 1) + [e];
      assert d.trace + Often(e, n) == d.trace + Often(e, n - 1) + [e];
    }
  }

  lemma {:induction false} BlanksOften(d: Display, limit: int, n: nat)
    ensures d.BlanksTimes(limit, n) == d.(trace := d.trace + Often(Tab(limit, d.color, d.insert), n))
    decreases n
  {
    var e := Tab(limit, d.color, d.insert);
    if n == 0 {
      assert d.trace + [] == d.trace;
    } else {
      BlanksOften(d, limit, n - 1);
      assert Often(e, n) == Often(e, n - 1) + [e];
      assert d.trace + Often(e, n) == d.trace + Often(e, n - 1) + [e];
    }
  }

  /** What a final byte does with its number is what its function means. */
  lemma NumberEffect(env: Env, s: Screen, v: AnsiVars, f: Function, n: nat)
    requires s.rep == v.rep && Bias(f) <= n
    ensures Ansi.CountEffect(env, s.d, v, FinalOf(f), n - Bias(f)) == s.d.(trace := s.d.trace + Events(env, s, f, n))
  {
    assert s.d.trace + [] == s.d.trace;
    if f.REP? {
      PutOften(s.d, s.rep, n);
    } else if f.CHT? {
      BlanksOften(s.d, 79, n - 1);
    }
    hide Often;
  }

  /** An omitted number does what the default does. */
  lemma DefaultEffect(env: Env, s: Screen, v: AnsiVars, f: Function)
    requires s.rep == v.rep
    ensures Ansi.StartEffect(env, s.d, v, FinalOf(f)) == s.d.(trace := s.d.trace + Events(env, s, f, Default(f)))
  {
    if f.REP? {
      assert Often(Event.Print(s.rep, s.d.color, s.d.insert), 1) == [Event.Print(s.rep, s.d.color, s.d.insert)];
    } else if f.CHT? {
      assert Often(Tab(79, s.d.color, s.d.insert), 1) == [Tab(79, s.d.color, s.d.insert)];
    }
    hide Often;
  }

  lemma DefaultAnswer(env: Env, s: State, f: Function)
    requires s.ansi.scan == AnsiStart && (f.DL? ==> !env.ansiMusic)
    ensures Ansi.Step(env, s, FinalOf(f)) == Ansi.Done(s.(d := Ansi.StartEffect(env, s.d, s.ansi, FinalOf(f))))
  {
    hide Ansi.StartEffect, Ansi.Done;
    assert Ansi.Step(env, s, FinalOf(f)) == Ansi.Start(env, s, FinalOf(f));
    hide Ansi.Step;
  }

  lemma NumberAnswer(env: Env, s: State, f: Function, n: nat)
    requires s.ansi.scan == AnsiCount && Bias(f) <= n && Csi.Ps(s.buf, s.ansi.count).value == n
    requires Csi.ParseOne(s.buf, s.ansi.count, 0) == n && Csi.ParseOne(s.buf, s.ansi.count, 1) == n - 1
    ensures Ansi.Step(env, s, FinalOf(f)) == Ansi.Done(s.(d := Ansi.CountEffect(env, s.d, s.ansi, FinalOf(f), n - Bias(f))))
  {
    hide Ansi.CountEffect, Ansi.Done, Csi.Ps, Csi.ParseOne;
    assert Ansi.Step(env, s, FinalOf(f)) == Ansi.Count(env, s, FinalOf(f));
    hide Ansi.Step;
  }

  lemma OmittedRuns(env: Env, st: State, f: Function)
    requires Sgr.Idle(env, st) && ValidSequence(env, One(f, Omitted))
    ensures Ran(env, st, Feed(env, st, Encode(One(f, Omitted))), Meaning(env, ScreenOf(st), One(f, Omitted)), 3)
  {
    var b := FinalOf(f);
    hide Feed, Ran;
    var o := Sgr.BracketRuns(env, st, [b]);
    OpenedIsWithin(env, st, o);
    var counted := o.(received := o.received + 1);
    DefaultEffect(env, ScreenOf(st), counted.ansi, f);
    DefaultAnswer(env, counted, f);
    hide Ansi.StartEffect, Events, Ansi.Step, Ansi.Done;
    var t := counted.(d := Ansi.StartEffect(env, o.d, counted.ansi, b));
    FinalRuns(env, st, o, b, t, 2);
    assert Encode(One(f, Omitted)) == [ESC, BRACKET] + [b];
  }

  /** What the parsers read of one number. */
  lemma NumberHeld(env: Env, st: State, s: State, x: Number)
    requires IsNumber(x) && Sgr.Collecting(env, st, s, Written(x)) && s.n < 127
    ensures s.ansi.scan == AnsiCount && s.ansi.count == 2
    ensures Csi.Ps(s.buf, 2).value == x.value
    ensures Csi.ParseOne(s.buf, 2, 0) == x.value
    ensures Csi.ParseOne(s.buf, 2, 1) == x.value - 1
    ensures s.n == 3 && s.Cell(2) == '6' as int <==> x == Number(6, 1)
  {
    var p := Written(x);
    Sgr.HeldIsHeld(env, st, s, p);
    forall c | c in p ensures c != SEMICOLON {
    }
    Sgr.NoSemicolons(p);
    WrittenIsParameter(x);
    assert s.buf[2..2 + x.width] == p && Csi.Cell(s.buf, 2 + x.width) == 0;
    hide Csi.Ps;
    NumberIsRead(s.buf, 2, x);
    if x.width == 1 {
      assert p == [0x30 + x.value % 10] && s.buf[2] == s.buf[2..s.n][0];
    }
  }

  lemma NumberRuns(env: Env, st: State, x: Number, tail: seq<byte>) returns (s: State)
    requires Sgr.Idle(env, st) && IsNumber(x)
    ensures Sgr.Collecting(env, st, s, Written(x)) && s.n < 126
    ensures Feed(env, st, [ESC, BRACKET] + Written(x) + tail) == Feed(env, s, tail)
  {
    WrittenIsParameter(x);
    hide Feed, Sgr.Idle, Inv;
    s := Sgr.StringRuns(env, st, Written(x), tail);
  }

  lemma GivenRuns(env: Env, st: State, f: Function, x: Number)
    requires Sgr.Idle(env, st) && ValidSequence(env, One(f, Given(x)))
    ensures Ran(env, st, Feed(env, st, Encode(One(f, Given(x)))), Meaning(env, ScreenOf(st), One(f, Given(x))), 3 + x.width)
  {
    var b := FinalOf(f);
    hide Feed, Ran, Inv;
    var s := NumberRuns(env, st, x, [b]);
    CollectingIsWithin(env, st, s, Written(x));
    NumberHeld(env, st, s, x);
    hide Sgr.Collecting, Csi.Ps, Csi.ParseOne;
    var counted := s.(received := s.received + 1);
    NumberEffect(env, ScreenOf(st), counted.ansi, f, x.value);
    NumberAnswer(env, counted, f, x.value);
    hide Ansi.CountEffect, Events, Ansi.Step, Ansi.Done;
    var t := counted.(d := Ansi.CountEffect(env, s.d, counted.ansi, b, x.value - Bias(f)));
    FinalRuns(env, st, s, b, t, 2 + x.width);
  }

  // ------------------------------------------------------------- a bracket and a final byte

  lemma StartRuns(env: Env, st: State, o: State, b: byte, t: State)
    requires Sgr.Idle(env, st) && Sgr.Opened(env, st, o) && b != CR && b != LF
    requires Feed(env, st, [ESC, BRACKET] + [b]) == Feed(env, o, [b])
    requires var counted := o.(received := o.received + 1);
      Ansi.Step(env, counted, b) == Ansi.Done(t) && t == counted.(d := t.d, ansi := t.ansi)
    ensures Ran(env, st, Feed(env, st, [ESC, BRACKET, b]), ScreenOf(t).(marked := false), 3)
  {
    OpenedIsWithin(env, st, o);
    hide Ansi.Step, Ansi.Done, Feed;
    FinalRuns(env, st, o, b, t, 2);
    assert [ESC, BRACKET] + [b] == [ESC, BRACKET, b];
  }

  /** The sequences that are nothing but a bracket and a final byte, other than those of a function. */
  predicate IsBare(c: Sequence) {
    || (c.CUP? && c.place.Nowhere?) || (c.Graphics? && c.xs == []) || c.Save? || c.Restore?
    || (c.Identify? && !c.z) || (c.Query? && c.p.Omitted?)
  }

  function BareEffect(env: Env, s: State, c: Sequence): State
    requires IsBare(c)
  {
    match c
    case CUP(_, _) => s.Show(CursorPosition(0, 0))
    case Graphics(_) => s.(d := s.d.(color := env.Text()))
    case Save => s.(ansi := s.ansi.(savedX := env.cursorX(s.d.trace), savedY := env.cursorY(s.d.trace)))
    case Restore => s.Show(CursorPosition(s.ansi.savedY, s.ansi.savedX))
    case Identify(_) => s.Show(Send([ESC, '[' as int, '?' as int]))
    case _ => s
  }

  lemma BareAnswer(env: Env, s: State, c: Sequence)
    requires s.ansi.scan == AnsiStart && IsBare(c)
    ensures Ansi.Step(env, s, Encode(c)[2]) == Ansi.Done(BareEffect(env, s, c))
  {
    hide Ansi.Done;
    assert Ansi.Step(env, s, Encode(c)[2]) == Ansi.Start(env, s, Encode(c)[2]);
    hide Ansi.Step;
  }

  lemma BareMeaning(env: Env, st: State, o: State, c: Sequence)
    requires Sgr.Opened(env, st, o) && IsBare(c)
    ensures ScreenOf(BareEffect(env, o.(received := o.received + 1), c)).(marked := false) == Meaning(env, ScreenOf(st), c)
  {
    if c.Query? {
      assert st.d.trace + [] == st.d.trace;
    }
  }

  lemma BareRuns(env: Env, st: State, c: Sequence)
    requires Sgr.Idle(env, st) && IsBare(c)
    ensures Ran(env, st, Feed(env, st, Encode(c)), Meaning(env, ScreenOf(st), c), 3)
  {
    var b := Encode(c)[2];
    assert Encode(c) == [ESC, BRACKET, b] && b != CR && b != LF;
    hide Feed, Ran, Inv, Encode, Meaning;
    var o := Sgr.BracketRuns(env, st, [b]);
    var counted := o.(received := o.received + 1);
    BareAnswer(env, counted, c);
    BareMeaning(env, st, o, c);
    hide Ansi.Step, Ansi.Done;
    StartRuns(env, st, o, b, BareEffect(env, counted, c));
  }

  /** ESC Z. */
  lemma IdentifyRuns(env: Env, st: State)
    requires Sgr.Idle(env, st)
    ensures Ran(env, st, Feed(env, st, [ESC, 'Z' as int]), Meaning(env, ScreenOf(st), Identify(true)), 2)
  {
    var z: byte := 'Z' as int;
    var e := Sgr.Opens(env, st, ESC);
    var counted := e.(received := e.received + 1);
    var t := counted.Show(Send(Ansi.IDENTITY));
    assert Ansi.Step(env, counted, z) == Ansi.Escape(env, counted, z) == Ansi.Done(t);
    hide Ansi.Step, Ansi.Done, Feed, Inv, ConsoleByte;
    FeedIs(env, st, [ESC, z], ESC, [z]);
    FinalRuns(env, st, e, z, t, 1);
  }

  // ------------------------------------------------------------- positions

  lemma {:induction false} SemicolonsConcat(a: seq<byte>, b: seq<byte>)
    ensures Sgr.Semicolons(a + b) == Sgr.Semicolons(a) + Sgr.Semicolons(b)
    decreases |b|
  {
    if b == [] {
      assert a + b == a;
    } else {
      assert (a + b)[..|a + b| - 1] == a + b[..|b| - 1];
      SemicolonsConcat(a, b[..|b| - 1]);
    }
  }

  lemma PairText(x: Number, y: Number)
    ensures var s := Written(x) + [SEMICOLON] + Written(y); Sgr.ScanFor(s) == AnsiCountTwo && |s| == x.width + 1 + y.width
  {
    forall c | c in Written(x) + Written(y) ensures c != SEMICOLON {
    }
    Sgr.NoSemicolons(Written(x));
    Sgr.NoSemicolons(Written(y));
    SemicolonsConcat(Written(x) + [SEMICOLON], Written(y));
    SemicolonsConcat(Written(x), [SEMICOLON]);
    Sgr.OneHeld(SEMICOLON);
    assert [SEMICOLON][..0] == [];
    assert Sgr.Semicolons([SEMICOLON]) == Sgr.Semicolons([]) + 1;
  }

  predicate At(p: Csi.Position, e: Event) {
    p.Position? && e == CursorPosition(p.row, p.column)
  }

  lemma RowRead(buf: seq<byte>, r: Number)
    requires IsNumber(r) && Parameters.Holds(buf, 2, Written(r)) && Csi.Cell(buf, 3 + r.width) == 0
    ensures At(Csi.ParsePosition(buf, 2), Coordinates(Row(r)))
  {
    NumberIsRead(buf, 2, r);
    assert buf[2] == buf[2..2 + r.width][0] && Written(r)[0] in Written(r);
    hide Csi.Ps;
  }

  lemma PairLies(buf: seq<byte>, x: seq<byte>, y: seq<byte>)
    requires Parameters.Holds(buf, 2, x + [SEMICOLON] + y) && x != [] && IsDigit(x[0])
    ensures 3 + |x| + |y| <= |buf| && buf[2..2 + |x|] == x && buf[3 + |x|..3 + |x| + |y|] == y
    ensures Csi.Cell(buf, 2) != SEMICOLON && Csi.Cell(buf, 2 + |x|) == SEMICOLON && Csi.Cell(buf, 3 + |x| + |y|) == 0
  {
    var s := x + [SEMICOLON] + y;
    Parameters.HoldsPart(buf, 2, s, 0);
    Parameters.HoldsPart(buf, 2, s, |x|);
    Parameters.HoldsPart(buf, 3 + |x|, y, |y|);
    assert s[..|x|] == x && s[|x| + 1..] == y && y[..|y|] == y;
  }

  lemma PairRead(buf: seq<byte>, r: Number, c: Number)
    requires IsNumber(r) && IsNumber(c) && Parameters.Holds(buf, 2, Written(r) + [SEMICOLON] + Written(c))
    requires Csi.Cell(buf, 4 + r.width + c.width) == 0
    ensures At(Csi.ParsePosition(buf, 2), Coordinates(RowColumn(r, c)))
  {
    assert Written(r)[0] in Written(r);
    hide Csi.Ps, Csi.Cell, Csi.ParsePosition, Parameters.Holds, Digits, IsNumber;
    PairLies(buf, Written(r), Written(c));
    NumberIsRead(buf, 2, r);
    NumberIsRead(buf, 3 + r.width, c);
    PairParsed(buf, r.width, c.width, r.value, c.value);
  }

  lemma PairParsed(buf: seq<byte>, k: nat, l: nat, row: nat, column: nat)
    requires Csi.Ps(buf, 2) == Csi.Number(row, 2 + k) && Csi.Ps(buf, 3 + k) == Csi.Number(column, 3 + k + l)
    requires Csi.Cell(buf, 2) != SEMICOLON && Csi.Cell(buf, 2 + k) == SEMICOLON && Csi.Cell(buf, 4 + k + l) == 0
    ensures Csi.ParsePosition(buf, 2) == Csi.Position(ZeroBased(row), ZeroBased(column))
  {
    hide Csi.Ps, Csi.Cell;
  }

  lemma PlaceHeld(env: Env, st: State, s: State, place: Place)
    requires !place.Nowhere? && IsPlace(place) && Sgr.Collecting(env, st, s, PlaceText(place)) && s.n < 126
    ensures s.ansi.scan in {AnsiCount, AnsiCountTwo} && s.ansi.count == 2
    ensures At(Csi.ParsePosition(s.buf, 2), Coordinates(place))
  {
    var held := PlaceText(place);
    Sgr.HeldIsHeld(env, st, s, held);
    hide Csi.ParsePosition;
    match place
    case Semicolon =>
      Sgr.OneHeld(SEMICOLON);
      Parameters.LoneSemicolon(s.buf, 2, held);
    case Row(r) =>
      NumberHeld(env, st, s, r);
      RowRead(s.buf, r);
    case RowColumn(r, c) =>
      PairText(r, c);
      PairRead(s.buf, r, c);
  }

  lemma LocateAnswer(env: Env, s: State, b: byte, row: int, column: int)
    requires s.ansi.scan in {AnsiCount, AnsiCountTwo} && (b == 'H' as int || b == 'f' as int)
    requires Csi.ParsePosition(s.buf, s.ansi.count) == Csi.Position(row, column)
    ensures Ansi.Step(env, s, b) == Ansi.Done(s.Show(CursorPosition(row, column)))
  {
    hide Ansi.Done, Csi.ParsePosition;
  }

  lemma PlaceEnds(env: Env, st: State, s: State, b: byte, held: seq<byte>, row: int, column: int)
    requires Sgr.Collecting(env, st, s, held) && s.n < 126 && Within(env, st, s, 2 + |held|)
    requires s.ansi.scan in {AnsiCount, AnsiCountTwo} && (b == 'H' as int || b == 'f' as int)
    requires Csi.ParsePosition(s.buf, s.ansi.count) == Csi.Position(row, column)
    ensures Inv(env, s) && !s.fault
    ensures Ran(env, st, Feed(env, s, [b]), Shown(ScreenOf(st), [CursorPosition(row, column)]), 3 + |held|)
  {
    var counted := s.(received := s.received + 1);
    hide Feed, Ran, Inv, Csi.ParsePosition;
    LocateAnswer(env, counted, b, row, column);
    hide Ansi.Step, Ansi.Done;
    FinalRuns(env, st, s, b, counted.Show(CursorPosition(row, column)), 2 + |held|);
  }

  lemma PlaceMeaning(env: Env, s: Screen, place: Place, hvp: bool)
    ensures Encode(CUP(place, hvp)) == [ESC, BRACKET] + PlaceText(place) + [if hvp then 'f' as int else 'H' as int]
    ensures Meaning(env, s, CUP(place, hvp)) == Shown(s, [Coordinates(place)])
  {
  }

  lemma PlaceTextIsHeld(place: Place)
    requires !place.Nowhere? && IsPlace(place)
    ensures PlaceText(place) != [] && |PlaceText(place)| <= 13
    ensures forall c | c in PlaceText(place) :: Parameters.IsListByte(c)
  {
  }

  lemma PlaceRuns(env: Env, st: State, place: Place, hvp: bool)
    requires Sgr.Idle(env, st) && IsPlace(place) && !place.Nowhere?
    ensures Ran(env, st, Feed(env, st, Encode(CUP(place, hvp))), Meaning(env, ScreenOf(st), CUP(place, hvp)),
                |Encode(CUP(place, hvp))|)
  {
    var b: byte := if hvp then 'f' as int else 'H' as int;
    PlaceTextIsHeld(place);
    PlaceMeaning(env, ScreenOf(st), place, hvp);
    hide Encode, Meaning, Shown, Feed, Ran, Inv, PlaceText, Coordinates, Parameters.IsListByte, Within, Sgr.Idle, ConsoleByte;
    var held := PlaceText(place);
    var s := Sgr.StringRuns(env, st, held, [b]);
    CollectingIsWithin(env, st, s, held);
    PlaceHeld(env, st, s, place);
    var at := Csi.ParsePosition(s.buf, 2);
    hide Csi.ParsePosition;
    PlaceEnds(env, st, s, b, held, at.row, at.column);
  }

  // ------------------------------------------------------------- colours

  lemma PenIsFold(env: Env, pen: Attr, vs: seq<int>)
    ensures Parameters.Fold(env, pen, vs) == Pen(env, pen, vs)
  {
    hide Parameters.Fold, Sgr.Last;
    Sgr.LastDecides(env, pen, vs);
  }

  /** No parameter at all counts as a 0. */
  lemma ResetPen(env: Env, pen: Attr)
    ensures Pen(env, pen, [0]) == env.Text()
  {
    assert [0][..0] == [];
  }

  lemma GraphicsRuns(env: Env, st: State, xs: seq<Number>)
    requires Sgr.Idle(env, st) && xs != [] && ValidSequence(env, Graphics(xs))
    ensures Ran(env, st, Feed(env, st, Encode(Graphics(xs))), Meaning(env, ScreenOf(st), Graphics(xs)), |Encode(Graphics(xs))|)
  {
    hide Feed, Inv, Sgr.Idle, Pen, Parameters.Fold, Parameters.Joined, IsNumber;
    AllWrittenAreParameters(xs);
    Sgr.SgrFolds(env, st, AllWritten(xs));
    PenIsFold(env, st.d.color, ValuesOf(xs));
  }

  // ------------------------------------------------------------- numbers that belong to no function

  /** What the last byte of these does to a state that holds their number. */
  function NumberedEffect(env: Env, s: State, c: Sequence): State {
    match c
    case Mode(on, _, mode) =>
      if mode.value == 7 && (s.ansi.privateMode || s.ansi.decPrivateMode) then s.(d := s.d.(lineWrap := on)) else s
    case Report(number) =>
      if number == Number(6, 1) then s.Show(ReportCursor(env.cursorY(s.d.trace) + 1, env.cursorX(s.d.trace) + 1)) else s
    case _ => s
  }

  predicate IsNumbered(c: Sequence) {
    c.Mode? || c.Report? || (c.Query? && c.p.Given?)
  }

  function NumberOf(c: Sequence): Number
    requires IsNumbered(c)
  {
    match c
    case Mode(_, _, mode) => mode
    case Report(number) => number
    case Query(p) => p.number
    case _ => Number(0, 1)
  }

  function NumberedFinal(c: Sequence): byte
    requires IsNumbered(c)
  {
    match c
    case Mode(on, _, _) => if on then 'h' as int else 'l' as int
    case Report(_) => 'n' as int
    case _ => '!' as int
  }

  lemma NumberedAnswer(env: Env, s: State, c: Sequence)
    requires IsNumbered(c) && s.ansi.scan == AnsiCount && s.ansi.count == 2
    requires Csi.ParseOne(s.buf, 2, 0) == NumberOf(c).value
    requires s.n == 3 && s.Cell(2) == '6' as int <==> NumberOf(c) == Number(6, 1)
    ensures Ansi.Step(env, s, NumberedFinal(c)) == Ansi.Done(NumberedEffect(env, s, c))
  {
    hide Ansi.Done, Csi.ParseOne;
    assert Ansi.Step(env, s, NumberedFinal(c)) == Ansi.Count(env, s, NumberedFinal(c));
    hide Ansi.Step;
  }

  /** From behind the bracket, with or without a marker. */
  lemma NumberedRuns(env: Env, st: State, o: State, c: Sequence)
    requires Sgr.Opened(env, st, o) && IsNumbered(c) && IsNumber(NumberOf(c))
    ensures Inv(env, o) && !o.fault
    ensures Ran(env, st, Feed(env, o, Written(NumberOf(c)) + [NumberedFinal(c)]),
                ScreenOf(NumberedEffect(env, st, c)).(marked := false), 3 + NumberOf(c).width)
  {
    var x, b := NumberOf(c), NumberedFinal(c);
    WrittenIsParameter(x);
    hide Feed, Ran, Inv, Sgr.Opened, ConsoleByte, NumberOf, NumberedFinal;
    var s := Sgr.ParametersRun(env, st, o, Written(x), [b]);
    CollectingIsWithin(env, st, s, Written(x));
    NumberHeld(env, st, s, x);
    NumberedEnds(env, st, s, c);
  }

  lemma NumberedFrame(env: Env, st: State, s: State, c: Sequence)
    requires IsNumbered(c) && Sgr.Collecting(env, st, s, Written(NumberOf(c)))
    ensures var counted := s.(received := s.received + 1); var t := NumberedEffect(env, counted, c);
      && t == counted.(d := t.d, ansi := t.ansi)
      && ScreenOf(t).(marked := false) == ScreenOf(NumberedEffect(env, st, c)).(marked := false)
  {
    hide Inv, Written;
  }

  lemma NumberedEnds(env: Env, st: State, s: State, c: Sequence)
    requires IsNumbered(c) && IsNumber(NumberOf(c)) && s.n < 127
    requires Sgr.Collecting(env, st, s, Written(NumberOf(c))) && Within(env, st, s, 2 + NumberOf(c).width)
    requires s.ansi.scan == AnsiCount && s.ansi.count == 2 && Csi.ParseOne(s.buf, 2, 0) == NumberOf(c).value
    requires s.n == 3 && s.Cell(2) == '6' as int <==> NumberOf(c) == Number(6, 1)
    ensures Inv(env, s) && !s.fault
    ensures Ran(env, st, Feed(env, s, [NumberedFinal(c)]),
                ScreenOf(NumberedEffect(env, st, c)).(marked := false), 3 + NumberOf(c).width)
  {
    NumberedFrame(env, st, s, c);
    hide Feed, Ran, Csi.ParseOne, NumberedEffect, Sgr.Collecting, Inv;
    var counted := s.(received := s.received + 1);
    NumberedAnswer(env, counted, c);
    hide Ansi.Step, Ansi.Done;
    FinalRuns(env, st, s, NumberedFinal(c), NumberedEffect(env, counted, c), 2 + NumberOf(c).width);
  }

  /** The state that a marker makes of one: it is as if the mark had been there before. */
  function Marked(st: State, m: Marker): State {
    match m
    case Unmarked => st
    case Dos => st.(received := st.received + 1, ansi := st.ansi.(privateMode := true))
    case Dec => st.(received := st.received + 1, ansi := st.ansi.(decPrivateMode := true))
  }

  lemma MarkerRuns(env: Env, st: State, o: State, m: Marker, tail: seq<byte>) returns (r: State)
    requires Sgr.Opened(env, st, o)
    ensures Inv(env, o) && !o.fault
    ensures Sgr.Opened(env, Marked(st, m), r) && Feed(env, o, MarkerText(m) + tail) == Feed(env, r, tail)
  {
    hide Feed, ConsoleByte;
    if m.Unmarked? {
      assert MarkerText(m) + tail == tail;
      r := o;
    } else {
      var b := MarkerText(m)[0];
      MarkerAnswer(env, o.(received := o.received + 1), m);
      Sgr.SilentByte(env, o, b);
      r := ConsoleByte(env, o, b);
      hide Inv;
      FeedIs(env, o, MarkerText(m) + tail, b, tail);
    }
  }

  lemma MarkerAnswer(env: Env, s: State, m: Marker)
    requires s.ansi.scan == AnsiStart && !m.Unmarked?
    ensures Ansi.Step(env, s, MarkerText(m)[0])
         == Silent(s.(ansi := if m.Dos? then s.ansi.(privateMode := true) else s.ansi.(decPrivateMode := true)))
  {
    assert Ansi.Step(env, s, MarkerText(m)[0]) == Ansi.Start(env, s, MarkerText(m)[0]);
    hide Ansi.Step;
  }

  lemma NumberedMeaning(env: Env, st: State, c: Sequence)
    requires IsNumbered(c)
    ensures var m := MarkerOf(c);
      && ScreenOf(NumberedEffect(env, Marked(st, m), c)).(marked := false) == Meaning(env, ScreenOf(st), c)
      && Marked(st, m).received == st.received + |MarkerText(m)|
  {
    assert st.d.trace + [] == st.d.trace;
  }

  lemma NumberedBytes(c: Sequence)
    requires IsNumbered(c)
    ensures Encode(c) == [ESC, BRACKET] + (MarkerText(MarkerOf(c)) + (Written(NumberOf(c)) + [NumberedFinal(c)]))
  {
    hide Written;
    assert MarkerText(Unmarked) + (Written(NumberOf(c)) + [NumberedFinal(c)]) == Written(NumberOf(c)) + [NumberedFinal(c)];
  }

  function MarkerOf(c: Sequence): Marker {
    if c.Mode? then c.marker else Unmarked
  }

  lemma NumberedSequenceRuns(env: Env, st: State, c: Sequence)
    requires Sgr.Idle(env, st) && IsNumbered(c) && IsNumber(NumberOf(c))
    ensures Ran(env, st, Feed(env, st, Encode(c)), Meaning(env, ScreenOf(st), c), |Encode(c)|)
  {
    NumberedMeaning(env, st, c);
    NumberedBytes(c);
    hide MarkerOf, Feed, Inv, Encode, Meaning, NumberOf, NumberedFinal, NumberedEffect, Sgr.Opened, Sgr.Idle, MarkerText;
    var m := MarkerOf(c);
    var tail := Written(NumberOf(c)) + [NumberedFinal(c)];
    var o := Sgr.BracketRuns(env, st, MarkerText(m) + tail);
    var r := MarkerRuns(env, st, o, m, tail);
    NumberedRuns(env, Marked(st, m), r, c);
  }

  // ------------------------------------------------------------- fonts

  const BLANK: byte := 0x20
  const FONT: byte := 0x44

  lemma BlankAnswer(env: Env, s: State)
    requires s.ansi.scan == AnsiCountTwo
    ensures Ansi.Step(env, s, BLANK) == Silent(s.(ansi := s.ansi.(discard := true)))
  {
  }

  lemma FontAnswer(env: Env, s: State)
    requires s.ansi.scan == AnsiCountTwo && s.ansi.discard
    ensures Ansi.Step(env, s, FONT) == Ansi.Done(s)
  {
    hide Ansi.Done;
  }

  lemma FontEnds(env: Env, st: State, s: State, bytes: nat)
    requires Within(env, st, s, bytes) && s.ansi.scan == AnsiCountTwo
    ensures Inv(env, s) && !s.fault
    ensures Ran(env, st, Feed(env, s, [BLANK, FONT]), Shown(ScreenOf(st), []), bytes + 2)
  {
    BlankAnswer(env, s.(received := s.received + 1));
    Sgr.SilentByte(env, s, BLANK);
    var r := ConsoleByte(env, s, BLANK);
    FontAnswer(env, r.(received := r.received + 1));
    hide Ansi.Step, Ansi.Done, ConsoleByte, Feed;
    FeedIs(env, s, [BLANK, FONT], BLANK, [FONT]);
    FinalRuns(env, st, r, FONT, r.(received := r.received + 1), bytes + 1);
    assert st.d.trace + [] == st.d.trace;
  }

  lemma FontRuns(env: Env, st: State, c: Sequence)
    requires Sgr.Idle(env, st) && c.Font? && ValidSequence(env, c)
    ensures Ran(env, st, Feed(env, st, Encode(c)), Meaning(env, ScreenOf(st), c), |Encode(c)|)
  {
    var held := Written(c.slot) + [SEMICOLON] + Written(c.font);
    PairText(c.slot, c.font);
    PlaceTextIsHeld(RowColumn(c.slot, c.font));
    hide Feed, Inv, ConsoleByte, Written, Ran, Sgr.Idle;
    var s := Sgr.StringRuns(env, st, held, [BLANK, FONT]);
    CollectingIsWithin(env, st, s, held);
    FontEnds(env, st, s, 2 + |held|);
  }

  // ------------------------------------------------------------- music

  const MUSIC: byte := 0x4D

  /** In a tune, with so many bytes received. */
  predicate Playing(env: Env, st: State, s: State, music: seq<byte>, bytes: nat) {
    Within(env, st, s, bytes) && s.ansi.scan == AnsiMusic && s.ansi.music == music
  }

  lemma MusicAnswer(env: Env, s: State)
    requires s.ansi.scan == AnsiStart && env.ansiMusic
    ensures Ansi.Step(env, s, MUSIC) == Silent(s.(ansi := s.ansi.(scan := AnsiMusic, music := [MUSIC])))
  {
    assert Ansi.Step(env, s, MUSIC) == Ansi.Start(env, s, MUSIC);
    hide Ansi.Step;
  }

  lemma MusicRuns(env: Env, st: State, tail: seq<byte>) returns (s: State)
    requires Sgr.Idle(env, st) && env.ansiMusic
    ensures Playing(env, st, s, [MUSIC], 3) && Inv(env, s) && !s.fault
    ensures Feed(env, st, [ESC, BRACKET, MUSIC] + tail) == Feed(env, s, tail)
  {
    hide Feed, ConsoleByte;
    var o := Sgr.BracketRuns(env, st, [MUSIC] + tail);
    assert [ESC, BRACKET] + ([MUSIC] + tail) == [ESC, BRACKET, MUSIC] + tail;
    MusicAnswer(env, o.(received := o.received + 1));
    Sgr.SilentByte(env, o, MUSIC);
    FeedIs(env, o, [MUSIC] + tail, MUSIC, tail);
    s := ConsoleByte(env, o, MUSIC);
  }

  lemma NoteAnswer(env: Env, s: State, b: byte)
    requires s.ansi.scan == AnsiMusic && IsNote(b)
    ensures var kept := s.(ansi := s.ansi.(music := s.ansi.music + [b]));
      Ansi.Step(env, s, b) == if |s.ansi.music| + 1 < 1024 then Silent(kept) else Ansi.Done(kept)
  {
    hide Ansi.Done;
  }

  lemma NoteRuns(env: Env, st: State, s: State, music: seq<byte>, bytes: nat, b: byte)
    requires Playing(env, st, s, music, bytes) && IsNote(b) && |music| + 1 < 1024
    ensures Playing(env, st, ConsoleByte(env, s, b), music + [b], bytes + 1)
  {
    hide ConsoleByte, Ansi.Step;
    NoteAnswer(env, s.(received := s.received + 1), b);
    Sgr.SilentByte(env, s, b);
  }

  lemma PlayingHasInv(env: Env, st: State, s: State, music: seq<byte>, bytes: nat)
    requires Playing(env, st, s, music, bytes)
    ensures Inv(env, s) && !s.fault
  {
  }

  lemma {:induction false} NotesRun(env: Env, st: State, s: State, music: seq<byte>, bytes: nat, notes: seq<byte>, tail: seq<byte>)
    returns (r: State)
    requires Playing(env, st, s, music, bytes) && |music| + |notes| < 1024 && forall b | b in notes :: IsNote(b)
    requires Inv(env, s) && !s.fault
    ensures Playing(env, st, r, music + notes, bytes + |notes|) && Inv(env, r) && !r.fault
    ensures Feed(env, s, notes + tail) == Feed(env, r, tail)
    decreases |notes|
  {
    hide ConsoleByte, Feed, Inv, Playing, IsNote;
    if notes == [] {
      assert music + notes == music && notes + tail == tail;
      r := s;
    } else {
      var b := notes[0];
      NoteRuns(env, st, s, music, bytes, b);
      PlayingHasInv(env, st, ConsoleByte(env, s, b), music + [b], bytes + 1);
      FeedIs(env, s, notes + tail, b, notes[1..] + tail);
      r := NotesRun(env, st, ConsoleByte(env, s, b), music + [b], bytes + 1, notes[1..], tail);
      assert music + [b] + notes[1..] == music + notes;
    }
  }

  lemma TuneEnds(env: Env, st: State, s: State, music: seq<byte>, bytes: nat)
    requires Playing(env, st, s, music, bytes)
    ensures Inv(env, s) && !s.fault
    ensures Ran(env, st, Feed(env, s, [0x0E]), Shown(ScreenOf(st), [Refresh, PlayMusic(music)]), bytes + 1)
  {
    var counted := s.(received := s.received + 1);
    var t := counted.Show(Refresh).Show(PlayMusic(music));
    assert Ansi.Step(env, counted, 0x0E) == Ansi.Music(env, counted, 0x0E) == Ansi.Done(t);
    hide Ansi.Step, Ansi.Done, Feed;
    FinalRuns(env, st, s, 0x0E, t, bytes);
    assert st.d.trace + [Refresh, PlayMusic(music)] == st.d.trace + [Refresh] + [PlayMusic(music)];
  }

  /** The note that there is no room for. */
  lemma TuneIsLost(env: Env, st: State, s: State, music: seq<byte>, bytes: nat, b: byte)
    requires Playing(env, st, s, music, bytes) && IsNote(b) && |music| == 1023
    ensures Inv(env, s) && !s.fault
    ensures Ran(env, st, Feed(env, s, [b]), Shown(ScreenOf(st), []), bytes + 1)
  {
    var counted := s.(received := s.received + 1);
    NoteAnswer(env, counted, b);
    hide Ansi.Step, Ansi.Done, Feed;
    FinalRuns(env, st, s, b, counted.(ansi := counted.ansi.(music := counted.ansi.music + [b])), bytes);
    assert st.d.trace + [] == st.d.trace;
  }

  lemma TuneRuns(env: Env, st: State, notes: seq<byte>)
    requires Sgr.Idle(env, st) && ValidSequence(env, Tune(notes))
    ensures Ran(env, st, Feed(env, st, Encode(Tune(notes))), Meaning(env, ScreenOf(st), Tune(notes)), |Encode(Tune(notes))|)
  {
    hide Feed, Inv, ConsoleByte, Playing, IsNote, Sgr.Idle, Ran;
    var m := MusicRuns(env, st, notes + [0x0E]);
    var s := NotesRun(env, st, m, [MUSIC], 3, notes, [0x0E]);
    TuneEnds(env, st, s, [MUSIC] + notes, 3 + |notes|);
    assert Encode(Tune(notes)) == [ESC, BRACKET, MUSIC] + (notes + [0x0E]);
  }

  lemma LostTuneRuns(env: Env, st: State, notes: seq<byte>)
    requires Sgr.Idle(env, st) && ValidSequence(env, LostTune(notes))
    ensures Ran(env, st, Feed(env, st, Encode(LostTune(notes))), Meaning(env, ScreenOf(st), LostTune(notes)),
                |Encode(LostTune(notes))|)
  {
    hide Feed, Inv, ConsoleByte, Playing, IsNote, Sgr.Idle, Ran;
    var front, b := notes[..1022], notes[1022];
    assert notes == front + [b] && forall x | x in front :: x in notes;
    assert b in notes;
    var m := MusicRuns(env, st, notes);
    var s := NotesRun(env, st, m, [MUSIC], 3, front, [b]);
    TuneIsLost(env, st, s, [MUSIC] + front, 3 + |front|, b);
  }

  // ------------------------------------------------------------- the streams

  lemma IdleHasInv(env: Env, st: State)
    requires Sgr.Idle(env, st)
    ensures Inv(env, st) && !st.fault
  {
  }

  /** One sequence, whatever it is. */
  lemma SequenceRuns(env: Env, st: State, c: Sequence)
    requires Sgr.Idle(env, st) && ValidSequence(env, c)
    ensures Ran(env, st, Feed(env, st, Encode(c)), Meaning(env, ScreenOf(st), c), |Encode(c)|)
  {
    IdleHasInv(env, st);
    hide ConsoleByte, Feed, Ran, Meaning, Inv, Sgr.Idle;
    match c
    case Plain(b) =>
      PlainRuns(env, st, b);
      FeedIs(env, st, [b], b, []);
    case One(f, p) => if p.Omitted? { OmittedRuns(env, st, f); } else { GivenRuns(env, st, f, p.number); }
    case CUP(place, hvp) => if place.Nowhere? { BareRuns(env, st, c); } else { PlaceRuns(env, st, place, hvp); }
    case Graphics(xs) => if xs == [] { BareRuns(env, st, c); } else { GraphicsRuns(env, st, xs); }
    case Identify(z) => if z { IdentifyRuns(env, st); } else { BareRuns(env, st, c); }
    case Query(p) => if p.Omitted? { BareRuns(env, st, c); } else { NumberedSequenceRuns(env, st, c); }
    case Mode(_, _, _) => NumberedSequenceRuns(env, st, c);
    case Report(_) => NumberedSequenceRuns(env, st, c);
    case Font(_, _) => FontRuns(env, st, c);
    case Tune(notes) => TuneRuns(env, st, notes);
    case LostTune(notes) => LostTuneRuns(env, st, notes);
    case Save => BareRuns(env, st, c);
    case Restore => BareRuns(env, st, c);
  }

  ghost predicate AllValid(env: Env, cs: seq<Sequence>) {
    forall c | c in cs :: ValidSequence(env, c)
  }

  /** Any list of sequences: the console shows what each one means, in order, and nothing else; it ends between two
      sequences, and it has counted every byte. */
  lemma {:induction false} SequencesRun(env: Env, st: State, cs: seq<Sequence>)
    requires Sgr.Idle(env, st) && AllValid(env, cs)
    ensures Ran(env, st, Feed(env, st, EncodeAll(cs)), MeaningAll(env, ScreenOf(st), cs), |EncodeAll(cs)|)
    decreases cs
  {
    IdleHasInv(env, st);
    hide Meaning, Encode, Feed, Inv, ValidSequence, ConsoleByte;
    if cs != [] {
      assert cs[0] in cs && forall c | c in cs[1..] :: c in cs;
      var first, rest := Encode(cs[0]), EncodeAll(cs[1..]);
      SequenceRuns(env, st, cs[0]);
      FeedConcat(env, st, first, rest);
      SequencesRun(env, Feed(env, st, first), cs[1..]);
    }
  }

  // ------------------------------------------------------------- laws

  /** So many copies of a byte. */
  function Copies(c: byte, n: nat): seq<Sequence>
    decreases n
  {
    if n == 0 then [] else Copies(c, n - 1) + [Plain(c)]
  }

  lemma {:induction false} MeaningConcat(env: Env, s: Screen, a: seq<Sequence>, b: seq<Sequence>)
    ensures MeaningAll(env, s, a + b) == MeaningAll(env, MeaningAll(env, s, a), b)
    decreases |a|
  {
    hide Meaning;
    if a == [] {
      assert a + b == b;
    } else {
      assert (a + b)[1..] == a[1..] + b;
      MeaningConcat(env, Meaning(env, s, a[0]), a[1..], b);
    }
  }

  lemma MeaningOne(env: Env, s: Screen, c: Sequence)
    ensures MeaningAll(env, s, [c]) == Meaning(env, s, c)
  {
    hide Meaning;
    assert [c][1..] == [];
  }

  /** Once printed, a byte is printed again without a refresh. */
  lemma {:induction false} CopiesMean(env: Env, s: Screen, c: byte, n: nat)
    requires IsPrintable(c)
    ensures var once := Printed(env, s, env.glyph(c));
      MeaningAll(env, once, Copies(c, n)) == once.(d := once.d.(trace := once.d.trace
        + Often(Event.Print(env.glyph(c), s.d.color, s.d.insert), n)))
    decreases n
  {
    var once := Printed(env, s, env.glyph(c));
    var e := Event.Print(env.glyph(c), s.d.color, s.d.insert);
    if n == 0 {
      assert once.d.trace + [] == once.d.trace;
    } else {
      CopiesMean(env, s, c, n - 1);
      var before := MeaningAll(env, once, Copies(c, n - 1));
      MeaningConcat(env, once, Copies(c, n - 1), [Plain(c)]);
      MeaningOne(env, before, Plain(c));
      assert Often(e, n) == Often(e, n - 1) + [e];
      assert before.d.trace + [e] == once.d.trace + (Often(e, n - 1) + [e]);
    }
  }

  lemma {:induction false} CopiesEncode(env: Env, c: byte, n: nat)
    requires c != ESC
    ensures AllValid(env, Copies(c, n)) && EncodeAll(Copies(c, n)) == seq(n, _ => c)
    decreases n
  {
    if n > 0 {
      CopiesEncode(env, c, n - 1);
      EncodeConcat(Copies(c, n - 1), [Plain(c)]);
      assert EncodeAll([Plain(c)]) == [c] + EncodeAll([Plain(c)][1..]);
      assert seq(n, _ => c) == seq(n - 1, _ => c) + [c];
    }
  }

  lemma {:induction false} EncodeConcat(a: seq<Sequence>, b: seq<Sequence>)
    ensures EncodeAll(a + b) == EncodeAll(a) + EncodeAll(b)
    decreases |a|
  {
    hide Encode;
    if a == [] {
      assert a + b == b;
    } else {
      assert (a + b)[1..] == a[1..] + b;
      EncodeConcat(a[1..], b);
    }
  }

  lemma RepeatMeans(env: Env, s: Screen, c: byte, x: Number)
    requires IsPrintable(c)
    ensures MeaningAll(env, s, [Plain(c)] + [One(REP, Given(x))]).d == MeaningAll(env, s, [Plain(c)] + Copies(c, x.value)).d
  {
    var rep := One(REP, Given(x));
    hide Copies, Often, MeaningAll;
    MeaningConcat(env, s, [Plain(c)], [rep]);
    MeaningConcat(env, s, [Plain(c)], Copies(c, x.value));
    MeaningOne(env, s, Plain(c));
    MeaningOne(env, Meaning(env, s, Plain(c)), rep);
    CopiesMean(env, s, c, x.value);
  }

  lemma RepeatBytes(env: Env, c: byte, x: Number)
    requires IsPrintable(c) && IsNumber(x)
    ensures var cs, ds := [Plain(c)] + [One(REP, Given(x))], [Plain(c)] + Copies(c, x.value);
      && AllValid(env, cs) && AllValid(env, ds)
      && EncodeAll(cs) == [c] + Encode(One(REP, Given(x))) && EncodeAll(ds) == [c] + seq(x.value, _ => c)
  {
    var rep := One(REP, Given(x));
    CopiesEncode(env, c, x.value);
    EncodeConcat([Plain(c)], [rep]);
    EncodeConcat([Plain(c)], Copies(c, x.value));
    assert EncodeAll([Plain(c)]) == [c] + EncodeAll([Plain(c)][1..]);
    assert EncodeAll([rep]) == Encode(rep) + EncodeAll([rep][1..]);
    assert ValidSequence(env, rep) && ValidSequence(env, Plain(c));
    hide ValidSequence, Copies, Encode;
  }

  /** REP is repetition: a printable byte and ESC [ n b show what n + 1 of the bytes show, animated or not. */
  lemma RepeatIsRepetition(env: Env, st: State, c: byte, x: Number)
    requires Sgr.Idle(env, st) && IsPrintable(c) && IsNumber(x)
    ensures Feed(env, st, [c] + Encode(One(REP, Given(x)))).d == Feed(env, st, [c] + seq(x.value, _ => c)).d
  {
    IdleHasInv(env, st);
    hide Feed, Sgr.Idle, Inv, Encode, Copies, MeaningAll, EncodeAll;
    RepeatBytes(env, c, x);
    RepeatMeans(env, ScreenOf(st), c, x);
    SequencesRun(env, st, [Plain(c)] + [One(REP, Given(x))]);
    SequencesRun(env, st, [Plain(c)] + Copies(c, x.value));
  }

  ghost predicate SavesNothing(cs: seq<Sequence>) {
    forall c | c in cs :: !c.Save?
  }

  lemma {:induction false} SavedStays(env: Env, s: Screen, cs: seq<Sequence>)
    requires SavesNothing(cs)
    ensures MeaningAll(env, s, cs).savedX == s.savedX && MeaningAll(env, s, cs).savedY == s.savedY
    decreases |cs|
  {
    if cs != [] {
      assert cs[0] in cs && forall c | c in cs[1..] :: c in cs;
      SavedStays(env, Meaning(env, s, cs[0]), cs[1..]);
    }
  }

  lemma RestoreMeans(env: Env, s: Screen, cs: seq<Sequence>)
    requires SavesNothing(cs)
    ensures var r := MeaningAll(env, s, [Save] + cs + [Restore]).d;
      r.trace != [] && r.trace[|r.trace| - 1] == CursorPosition(env.cursorY(s.d.trace), env.cursorX(s.d.trace))
  {
    var saved := Meaning(env, s, Save);
    var late := MeaningAll(env, s, [Save] + cs);
    MeaningOne(env, s, Save);
    SavedStays(env, saved, cs);
    MeaningConcat(env, s, [Save], cs);
    MeaningOne(env, late, Restore);
    MeaningConcat(env, s, [Save] + cs, [Restore]);
    hide MeaningAll;
  }

  /** ESC [ u goes back to where the cursor was at ESC [ s, whatever came between them but another ESC [ s. */
  lemma RestoreUndoesMoves(env: Env, st: State, cs: seq<Sequence>)
    requires Sgr.Idle(env, st) && AllValid(env, cs) && SavesNothing(cs)
    ensures var r := Feed(env, st, EncodeAll([Save] + cs + [Restore])).d;
      r.trace != [] && r.trace[|r.trace| - 1] == CursorPosition(env.cursorY(st.d.trace), env.cursorX(st.d.trace))
  {
    IdleHasInv(env, st);
    assert ValidSequence(env, Save) && ValidSequence(env, Restore);
    hide Feed, Sgr.Idle, Inv, Encode, ValidSequence, MeaningAll, SavesNothing;
    SequencesRun(env, st, [Save] + cs + [Restore]);
    RestoreMeans(env, ScreenOf(st), cs);
  }

  /** Inside a sequence, a rejected byte leaves the markers that came before it for the next sequence. */
  lemma RejectionKeepsMarks(env: Env, s: State, b: byte)
    requires env.emulation == EmulateAnsi && Ready(env, s) && s.n + 1 < 127
    requires TerminalEmulator(env, s, b).status == ManyChars
    ensures var r := ConsoleByte(env, s, b);
      Sgr.Idle(env, r) && ScreenOf(r) == ScreenOf(s).(d := r.d)
  {
    ReadyHasInv(env, s);
    hide TerminalEmulator, ConsoleByte, Inv;
    Rejection.AnsiRejectionConserves(env, s, b);
    ConsoleByteKeeps(env, s, b);
  }

  lemma ReadyHasInv(env: Env, s: State)
    requires Ready(env, s)
    ensures Inv(env, s) && !s.fault
  {
  }

  lemma ConsoleByteKeeps(env: Env, s: State, b: byte)
    requires Inv(env, s) && !s.fault
    ensures var r := ConsoleByte(env, s, b); r.fault || (Inv(env, r) && r.last != ManyChars)
  {
    hide TerminalEmulator, Inv, Drain;
  }
}
