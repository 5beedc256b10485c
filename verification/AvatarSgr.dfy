/**
 AVATAR's own Select Graphic Rendition, from the bytes received to the colour in force, and exactly when it agrees with
 ANSI's.
 */
module AvatarSgr {
  import opened Display
  import opened Machine
  import opened Invariant
  import opened Console
  import opened Parameters
  import opened AvatarFraming
  import opened Decimal
  import Ansi
  import AnsiFraming
  import AnsiMeaning
  import Avatar
  import Csi
  import Sgr

  // ------------------------------------------------------- two pens and one list

  /** A flag that the two pens agree on, or that the list decides for both. */
  predicate Settled(env: Env, part: Sgr.Part, x: bool, y: bool, vs: seq<int>) {
    x == y || Sgr.Last(env, part, vs) != -1
  }

  predicate AllSettled(env: Env, a: Attr, b: Attr, vs: seq<int>) {
    && Settled(env, Sgr.Bold, a.bold, b.bold, vs)
    && Settled(env, Sgr.Dim, a.dim, b.dim, vs)
    && Settled(env, Sgr.Underline, a.underline, b.underline, vs)
    && Settled(env, Sgr.Blink, a.blink, b.blink, vs)
    && Settled(env, Sgr.Reverse, a.reverse, b.reverse, vs)
  }

  lemma FlagsAgree(env: Env, a: Attr, b: Attr, x: Attr, y: Attr, bold: int, dim: int, underline: int, blink: int, reverse: int)
    requires Sgr.FlagsDecided(env, a, x, bold, dim, underline, blink, reverse)
    requires Sgr.FlagsDecided(env, b, y, bold, dim, underline, blink, reverse)
    requires x.fg == y.fg && x.bg == y.bg
    ensures x == y <==>
      && (a.bold == b.bold || bold != -1) && (a.dim == b.dim || dim != -1) && (a.underline == b.underline || underline != -1)
      && (a.blink == b.blink || blink != -1) && (a.reverse == b.reverse || reverse != -1)
  {
  }

  lemma ColorsAgree(env: Env, a: Attr, b: Attr, x: Attr, y: Attr, foreground: int, background: int)
    requires Sgr.ColorsDecided(env, a, x, foreground, background) && Sgr.ColorsDecided(env, b, y, foreground, background)
    requires a.fg == b.fg && a.bg == b.bg
    ensures x.fg == y.fg && x.bg == y.bg
  {
  }

  /** A list makes two pens of the same colours equal exactly when it decides every flag that they differ in. */
  lemma FoldsAgreeExactly(env: Env, a: Attr, b: Attr, vs: seq<int>)
    requires a.fg == b.fg && a.bg == b.bg
    ensures Fold(env, a, vs) == Fold(env, b, vs) <==> AllSettled(env, a, b, vs)
  {
    hide Fold, Sgr.Last, Sgr.FlagsDecided, Sgr.ColorsDecided;
    Sgr.LastDecides(env, a, vs);
    Sgr.LastDecides(env, b, vs);
    var x, y := Fold(env, a, vs), Fold(env, b, vs);
    ColorsAgree(env, a, b, x, y, Sgr.Last(env, Sgr.Foreground, vs), Sgr.Last(env, Sgr.Background, vs));
    FlagsAgree(env, a, b, x, y, Sgr.Last(env, Sgr.Bold, vs), Sgr.Last(env, Sgr.Dim, vs), Sgr.Last(env, Sgr.Underline, vs),
               Sgr.Last(env, Sgr.Blink, vs), Sgr.Last(env, Sgr.Reverse, vs));
  }

  // ------------------------------------------------------- from the bytes

  /** Inside an SGR that avatar() reads itself, with the parameter bytes `held`. */
  predicate Gathering(env: Env, st: State, s: State, held: seq<byte>) {
    && env.emulation == EmulateAvatar && Inv(env, s) && !s.fault && s.last == NoCharYet && s.repeat == []
    && s.avatar.scan == AtCsiParam && s.avatar.count == 2 && s.avatar.attributes == st.avatar.attributes
    && s.n == 2 + |held| && s.buf[0] == ESC && s.buf[1] == Sgr.BRACKET && s.buf[2..s.n] == held
    && s.d == st.d && s.received == st.received + 2 + |held|
  }

  lemma GatherByte(env: Env, st: State, s: State, held: seq<byte>, c: byte)
    requires Gathering(env, st, s, held) && IsListByte(c) && s.n < 127
    ensures Gathering(env, st, ConsoleByte(env, s, c), held + [c])
  {
    var counted := s.(received := s.received + 1);
    assert Avatar.Step(env, counted, c) == Silent(counted.Store(c));
    hide Avatar.Step, ConsoleByte;
    SilentByte(env, s, c);
    assert s.buf[s.n := c][2..s.n + 1] == s.buf[2..s.n] + [c];
  }

  lemma {:induction false} GatherAll(env: Env, st: State, s: State, held: seq<byte>, more: seq<byte>, tail: seq<byte>)
    returns (r: State)
    requires Gathering(env, st, s, held) && (forall c | c in more :: IsListByte(c)) && |held| + |more| <= 124
    ensures Gathering(env, st, r, held + more) && Feed(env, s, more + tail) == Feed(env, r, tail)
    decreases |more|
  {
    hide ConsoleByte, Feed, Inv;
    if more == [] {
      assert held + more == held && more + tail == tail;
      r := s;
    } else {
      var c := more[0];
      GatherByte(env, st, s, held, c);
      FeedIs(env, s, more + tail, c, more[1..] + tail);
      r := GatherAll(env, st, ConsoleByte(env, s, c), held + [c], more[1..], tail);
      assert held + [c] + more[1..] == held + more;
    }
  }

  /** ESC, the bracket and the first digit. */
  lemma GatherBegins(env: Env, st: State, c: byte, tail: seq<byte>) returns (r: State)
    requires Idle(env, st) && env.avatarColor && IsDigit(c)
    ensures Gathering(env, st, r, [c]) && Feed(env, st, [ESC, Sgr.BRACKET, c] + tail) == Feed(env, r, tail)
  {
    var e := EscapeRuns(env, st);
    var o := BracketRuns(env, e);
    r := DigitRuns(env, o, c);
    GatherStarts(env, st, e, o, r, c);
    IdleHasInv(env, st);
    KeptHasInv(env, st, ESC, AtEsc, e);
    KeptHasInv(env, e, Sgr.BRACKET, AtCsi, o);
    hide Inv, ConsoleByte, Feed, Kept, Idle, Gathering;
    FeedThree(env, st, e, o, ESC, Sgr.BRACKET, c, tail);
  }

  lemma FeedThree(env: Env, st: State, e: State, o: State, x: byte, y: byte, z: byte, tail: seq<byte>)
    requires Inv(env, st) && !st.fault && e == ConsoleByte(env, st, x) && !e.fault
    requires Inv(env, e) && o == ConsoleByte(env, e, y) && !o.fault && Inv(env, o)
    ensures Feed(env, st, [x, y, z] + tail) == Feed(env, ConsoleByte(env, o, z), tail)
  {
    hide ConsoleByte, Feed, Inv;
    FeedIs(env, st, [x, y, z] + tail, x, [y, z] + tail);
    FeedIs(env, e, [y, z] + tail, y, [z] + tail);
    FeedIs(env, o, [z] + tail, z, tail);
  }

  lemma KeptHasInv(env: Env, st: State, b: byte, scan: AvatarScan, r: State)
    requires Kept(env, st, b, scan, r)
    ensures Inv(env, r) && !r.fault
  {
    hide Inv;
  }

  lemma GatherStarts(env: Env, st: State, e: State, o: State, r: State, c: byte)
    requires env.emulation == EmulateAvatar && Kept(env, st, ESC, AtEsc, e) && Kept(env, e, Sgr.BRACKET, AtCsi, o)
    requires Kept(env, o, c, AtCsiParam, r) && e.n == 1 && r.avatar.count == 2
    ensures Gathering(env, st, r, [c])
  {
    hide Inv;
    assert r.buf[2..3] == [c];
  }

  /** What a byte leaves that is stored and no more. */
  predicate Kept(env: Env, st: State, b: byte, scan: AvatarScan, r: State) {
    && Inv(env, r) && !r.fault && r.last == NoCharYet && r.repeat == []
    && r.avatar.scan == scan && r.avatar.attributes == st.avatar.attributes
    && |st.buf| == 128 && st.n < 127 && r.buf == st.buf[st.n := b] && r.n == st.n + 1
    && r.d == st.d && r.received == st.received + 1
  }

  lemma EscapeRuns(env: Env, st: State) returns (r: State)
    requires Idle(env, st)
    ensures r == ConsoleByte(env, st, ESC) && Kept(env, st, ESC, AtEsc, r) && r.n == 1
  {
    hide ConsoleByte;
    SilentByte(env, st, ESC);
    r := ConsoleByte(env, st, ESC);
  }

  lemma BracketRuns(env: Env, st: State) returns (r: State)
    requires env.emulation == EmulateAvatar && Inv(env, st) && !st.fault && st.last == NoCharYet && st.repeat == []
    requires st.avatar.scan == AtEsc && env.avatarColor
    ensures r == ConsoleByte(env, st, Sgr.BRACKET) && Kept(env, st, Sgr.BRACKET, AtCsi, r) && r.n == 2
  {
    hide ConsoleByte;
    SilentByte(env, st, Sgr.BRACKET);
    r := ConsoleByte(env, st, Sgr.BRACKET);
  }

  lemma DigitRuns(env: Env, st: State, c: byte) returns (r: State)
    requires env.emulation == EmulateAvatar && Inv(env, st) && !st.fault && st.last == NoCharYet && st.repeat == []
    requires st.avatar.scan == AtCsi && IsDigit(c)
    ensures r == ConsoleByte(env, st, c) && Kept(env, st, c, AtCsiParam, r) && r.n == 3 && r.avatar.count == 2
  {
    hide ConsoleByte;
    SilentByte(env, st, c);
    r := ConsoleByte(env, st, c);
  }

  /** m after a list that avatar() collected itself.  It starts from the attributes its last SGR left. */
  lemma ListEnds(env: Env, st: State, ps: seq<seq<byte>>)
    requires BufferOk(st) && !st.fault && st.avatar.scan == AtCsiParam && st.avatar.count == 2
    requires ps != [] && AllParameters(ps) && st.n == 2 + |Joined(ps)| < 127 && st.buf[2..st.n] == Joined(ps)
    ensures var r := Avatar.Step(env, st, Sgr.SGR);
      var pen := Pen(env, st, ps);
      && r.status == NoCharYet
      && r.st == st.(d := st.d.(color := pen, insert := false), buf := Zeros(), n := 0, i := 0,
                     avatar := st.avatar.(scan := AtNone, attributes := pen, pattern := []))
  {
    var kept := st.Store(Sgr.SGR);
    assert kept.buf[2..st.n] == st.buf[2..st.n];
    ListParsed(env, kept.buf, 2, ps, st.avatar.attributes.(fg := st.d.color.fg, bg := st.d.color.bg));
    hide Csi.ParseSgr, Fold;
    assert Avatar.Step(env, st, Sgr.SGR) == Avatar.Parameter(env, st, Sgr.SGR);
    hide Avatar.Step;
  }

  /** The colours in force with the attributes of the last SGR, and the parameters applied to them. */
  function Pen(env: Env, st: State, ps: seq<seq<byte>>): Attr {
    Fold(env, st.avatar.attributes.(fg := st.d.color.fg, bg := st.d.color.bg), Values(ps))
  }

  lemma GatherAnswer(env: Env, st: State, s: State, ps: seq<seq<byte>>)
    requires ps != [] && AllParameters(ps) && Gathering(env, st, s, Joined(ps)) && s.n < 127
    ensures var counted := s.(received := s.received + 1);
      var r := Avatar.Step(env, counted, Sgr.SGR);
      && r.status == NoCharYet
      && r.st == counted.(d := st.d.(color := Pen(env, st, ps), insert := false), buf := Zeros(), n := 0, i := 0,
                          avatar := s.avatar.(scan := AtNone, attributes := Pen(env, st, ps), pattern := []))
  {
    var counted := s.(received := s.received + 1);
    GatheringParts(env, st, s, Joined(ps));
    ListEnds(env, counted, ps);
    hide Inv, Fold, Avatar.Step;
  }

  lemma GatherEnds(env: Env, st: State, s: State, ps: seq<seq<byte>>)
    requires ps != [] && AllParameters(ps) && Gathering(env, st, s, Joined(ps)) && s.n < 127
    ensures var r := ConsoleByte(env, s, Sgr.SGR);
      && Idle(env, r) && r.d == st.d.(color := Pen(env, st, ps), insert := false) && r.avatar.attributes == Pen(env, st, ps)
      && r.received == st.received + 3 + |Joined(ps)|
  {
    hide Avatar.Step, ConsoleByte, Pen, Joined, Gathering, Inv, AllParameters;
    GatheringReady(env, st, s, Joined(ps));
    GatherAnswer(env, st, s, ps);
    SilentByte(env, s, Sgr.SGR);
    ClearedIsIdle(env, s, ConsoleByte(env, s, Sgr.SGR));
  }

  lemma GatheringReady(env: Env, st: State, s: State, held: seq<byte>)
    requires Gathering(env, st, s, held)
    ensures env.emulation == EmulateAvatar && Inv(env, s) && !s.fault && s.last == NoCharYet && s.repeat == []
    ensures s.ansi.scan == AnsiNone && s.received == st.received + 2 + |held|
  {
  }

  lemma ClearedIsIdle(env: Env, s: State, r: State)
    requires env.emulation == EmulateAvatar && s.ansi.scan == AnsiNone && !s.fault && s.repeat == []
    requires r == s.(received := r.received, last := NoCharYet, d := r.d, buf := Zeros(), n := 0, i := 0, avatar := r.avatar)
    requires r.avatar.scan == AtNone
    ensures Idle(env, r)
  {
  }

  lemma GatheringParts(env: Env, st: State, s: State, held: seq<byte>)
    requires Gathering(env, st, s, held)
    ensures BufferOk(s)
  {
  }

  /** ESC [ p1;...;pk m under AVATAR with its colour option on. */
  lemma AvatarSgrFolds(env: Env, st: State, ps: seq<seq<byte>>)
    requires Idle(env, st) && env.avatarColor && ps != [] && AllParameters(ps) && |Joined(ps)| <= 124
    ensures var r := Feed(env, st, Sgr.Sequence(ps));
      && Idle(env, r) && r.d == st.d.(color := Pen(env, st, ps), insert := false) && r.avatar.attributes == Pen(env, st, ps)
  {
    hide ConsoleByte, Feed, Pen, AllParameters, Idle, Joined, IsListByte, Inv;
    Sgr.JoinedIsListBytes(ps);
    FirstIsDigit(ps);
    var s := Joined(ps);
    var c, more := s[0], s[1..];
    assert s == [c] + more && forall x | x in more :: x in s;
    var first := GatherBegins(env, st, c, more + [Sgr.SGR]);
    var last := GatherAll(env, st, first, [c], more, [Sgr.SGR]);
    assert Sgr.Sequence(ps) == [ESC, Sgr.BRACKET, c] + (more + [Sgr.SGR]);
    GatherEnds(env, st, last, ps);
    FeedIs(env, last, [Sgr.SGR], Sgr.SGR, []);
  }

  lemma FirstIsDigit(ps: seq<seq<byte>>)
    requires ps != [] && AllParameters(ps)
    ensures Joined(ps) != [] && IsDigit(Joined(ps)[0])
  {
    assert ps[0] in ps && ps[0][0] in ps[0];
  }

  // ------------------------------------------------------- against ANSI

  lemma {:induction false} FoldIgnoresEmulation(env: Env, other: Env, pen: Attr, vs: seq<int>)
    requires other == env.(emulation := other.emulation)
    ensures Fold(env, pen, vs) == Fold(other, pen, vs)
    decreases |vs|
  {
    if vs != [] {
      StepIgnoresEmulation(env, other, pen, vs[0]);
      hide Csi.SgrStep;
      FoldIgnoresEmulation(env, other, Csi.SgrStep(env, pen, vs[0]), vs[1..]);
    }
  }

  lemma StepIgnoresEmulation(env: Env, other: Env, pen: Attr, v: int)
    requires other == env.(emulation := other.emulation)
    ensures Csi.SgrStep(env, pen, v) == Csi.SgrStep(other, pen, v)
  {
  }

  /**
   The same sequence, received between two others on the same display, leaves the same display under AVATAR as under
   ANSI exactly when insert mode was off and the list decides every flag in which the attributes of AVATAR's last SGR
   differ from those in force.
   */
  lemma AvatarSgrExactly(env: Env, st: State, ansi: Env, an: State, ps: seq<seq<byte>>)
    requires Idle(env, st) && env.avatarColor && ansi == env.(emulation := EmulateAnsi)
    requires Sgr.Idle(ansi, an) && an.d == st.d
    requires ps != [] && AllParameters(ps) && |Joined(ps)| <= 124
    ensures Feed(env, st, Sgr.Sequence(ps)).d == Feed(ansi, an, Sgr.Sequence(ps)).d
        <==> !st.d.insert && AllSettled(env, st.avatar.attributes, st.d.color, Values(ps))
  {
    hide Feed, Fold, Sgr.Idle, Idle, AllSettled, Joined, AllParameters, Inv;
    AvatarSgrFolds(env, st, ps);
    Sgr.SgrFolds(ansi, an, ps);
    var saved := st.avatar.attributes.(fg := st.d.color.fg, bg := st.d.color.bg);
    FoldIgnoresEmulation(env, ansi, st.d.color, Values(ps));
    FoldsAgreeExactly(env, saved, st.d.color, Values(ps));
    SettledIgnoresColors(env, st.avatar.attributes, st.d.color, Values(ps));
  }

  lemma SettledIgnoresColors(env: Env, a: Attr, b: Attr, vs: seq<int>)
    ensures AllSettled(env, a.(fg := b.fg, bg := b.bg), b, vs) <==> AllSettled(env, a, b, vs)
  {
  }

  // ------------------------------------------------------- a bare m, and CGA colours

  lemma EmptyAnswer(env: Env, s: State)
    requires s.avatar.scan == AtCsi && BufferOk(s) && s.n == 2 && !s.fault
    ensures var t := s.Store(Sgr.SGR);
      Avatar.Step(env, s, Sgr.SGR) == Silent(t.(d := t.d.(color := env.Text())).AvatarClear())
  {
    hide Avatar.Rejected;
    assert Avatar.Step(env, s, Sgr.SGR) == Avatar.Bracket(env, s, Sgr.SGR);
  }

  lemma EmptyEnds(env: Env, st: State, o: State)
    requires env.emulation == EmulateAvatar && Inv(env, o) && !o.fault && o.last == NoCharYet && o.repeat == []
    requires o.avatar.scan == AtCsi && o.n == 2 && o.d == st.d
    ensures var r := ConsoleByte(env, o, Sgr.SGR);
      Idle(env, r) && r.d == st.d.(insert := false, color := env.Text())
  {
    EmptyAnswer(env, o.(received := o.received + 1));
    hide Avatar.Step, ConsoleByte;
    SilentByte(env, o, Sgr.SGR);
    ClearedIsIdle(env, o, ConsoleByte(env, o, Sgr.SGR));
  }

  /** ESC [ m resets the colour to that of plain text, and leaves insert mode. */
  lemma EmptySgrResets(env: Env, st: State)
    requires Idle(env, st) && env.avatarColor
    ensures var r := Feed(env, st, [ESC, Sgr.BRACKET, Sgr.SGR]);
      Idle(env, r) && r.d == st.d.(insert := false,
                                   color := Attr(env.textFg, env.textBg, env.textBold, false, false, false, false))
  {
    var e := EscapeRuns(env, st);
    KeptHasInv(env, st, ESC, AtEsc, e);
    KeptIs(env, st, ESC, AtEsc, e);
    hide ConsoleByte, Feed, Inv, Idle, Kept;
    var o := BracketRuns(env, e);
    KeptHasInv(env, e, Sgr.BRACKET, AtCsi, o);
    KeptIs(env, e, Sgr.BRACKET, AtCsi, o);
    EmptyEnds(env, st, o);
    FeedThree(env, st, e, o, ESC, Sgr.BRACKET, Sgr.SGR, []);
    assert [ESC, Sgr.BRACKET, Sgr.SGR] + [] == [ESC, Sgr.BRACKET, Sgr.SGR];
  }

  lemma KeptIs(env: Env, st: State, b: byte, scan: AvatarScan, r: State)
    requires Kept(env, st, b, scan, r)
    ensures r.avatar.scan == scan && r.last == NoCharYet && r.repeat == [] && r.d == st.d
  {
  }

  /** ^V^A and a CGA colour number give the colour that SGR gives for the number with its bits turned round, be it of
      the characters or, four bits higher and with 40 for 30, of what is behind them. */
  lemma CgaMatchesSgr(env: Env, st: State, ansi: Env, an: State, k: nat)
    requires Idle(env, st) && Sgr.Idle(ansi, an) && k < 8
    ensures Feed(env, st, [0x16, 0x01, k]).d.color.fg
         == Feed(ansi, an, AnsiMeaning.Encode(AnsiMeaning.Graphics([Number(30 + Mirrored(k), 2)]))).d.color.fg
    ensures Feed(env, st, [0x16, 0x01, 16 * k]).d.color.bg
         == Feed(ansi, an, AnsiMeaning.Encode(AnsiMeaning.Graphics([Number(40 + Mirrored(k), 2)]))).d.color.bg
  {
    var m := Mirrored(k);
    MirroredIsSmall(k);
    hide Feed, Idle, Inv, AnsiMeaning.Encode, Mirrored, Sgr.Idle;
    SetColorRuns(env, st, k);
    SetColorRuns(env, st, 16 * k);
    GraphicsOne(ansi, an, 30 + m);
    GraphicsOne(ansi, an, 40 + m);
  }

  lemma MirroredIsSmall(k: int)
    ensures 0 <= Mirrored(k) < 8
  {
  }

  /** One colour parameter. */
  lemma GraphicsOne(ansi: Env, an: State, v: nat)
    requires Sgr.Idle(ansi, an) && (30 <= v <= 37 || 40 <= v <= 47)
    ensures var r := Feed(ansi, an, AnsiMeaning.Encode(AnsiMeaning.Graphics([Number(v, 2)]))).d.color;
      if v < 40 then r.fg == Sgr.Palette(v - 30) else r.bg == Sgr.Palette(v - 40)
  {
    var xs := [Number(v, 2)];
    assert Power(2) == 100;
    assert IsNumber(xs[0]);
    assert AllWritten(xs) == [Written(xs[0])];
    assert ValuesOf(xs) == [v];
    hide Feed, Inv, Sgr.Idle;
    AnsiFraming.SequenceRuns(ansi, an, AnsiMeaning.Graphics(xs));
    assert [v][..0] == [];
    assert Sgr.Last(ansi, Sgr.Foreground, [v]) == if v < 40 then v else -1;
    assert Sgr.Last(ansi, Sgr.Background, [v]) == if v < 40 then -1 else v;
  }
}
