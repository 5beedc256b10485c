/**
 Runs from the first byte on that reach the places where the code does not do what one would expect.
 */
module Reached {
  import opened Display
  import opened Machine
  import opened Invariant
  import opened Console
  import opened Conservation
  import Ansi
  import AnsiFallback
  import AnsiFraming
  import AnsiMeaning
  import Avatar
  import AvatarFraming
  import AvatarSgr
  import AvatarStops
  import Controls
  import Csi
  import Decimal
  import FallbackFeed
  import FallbackReach
  import OneNumber
  import Parameters
  import Rejection
  import Sgr

  const BRACKET: byte := Sgr.BRACKET
  const NO_FINAL: byte := 0x78  // x ends no sequence

  /** ESC [ and 124 digits: as much as a sequence can hold. */
  function Longest(): (r: seq<byte>)
    ensures |r| == 126
  {
    [ESC, BRACKET] + Ones(124)
  }

  function Ones(n: nat): (r: seq<byte>)
    ensures |r| == n && forall c | c in r :: c == 0x31
  {
    seq(n, _ => 0x31)
  }

  lemma InitialIsIdle(env: Env, d: Display)
    ensures Inv(env, Initial(env, d)) && Initial(env, d).received == 0
    ensures env.emulation == EmulateAnsi ==> Sgr.Idle(env, Initial(env, d))
    ensures env.emulation == EmulateAvatar ==> AvatarFraming.Idle(env, Initial(env, d))
    ensures Between(env, Initial(env, d)) && AnsiFallback.AtRest(Initial(env, d))
  {
  }

  // ------------------------------------------------------- 127 bytes

  /** From reset on a bare m changes nothing, u goes back to where the cursor was, and no refresh precedes a byte printed. */
  lemma ResetIsNeutral(env: Env, d: Display, c: byte)
    requires env.emulation == EmulateAnsi && Controls.IsPrintable(c)
    ensures Inv(env, Initial(env, d))
    ensures var st := Initial(env, d);
      && Feed(env, st, [ESC, BRACKET, Sgr.SGR]).d == st.d
      && Feed(env, st, [ESC, BRACKET, 0x75]).d == st.d.Emit(CursorPosition(env.cursorY(d.trace), env.cursorX(d.trace)))
      && Feed(env, st, [c]).d == st.d.Emit(Event.Print(env.glyph(c), st.d.color, st.d.insert))
  {
    InitialIsIdle(env, d);
    var st := Initial(env, d);
    AnsiFraming.ResetPen(env, st.d.color);
    hide Feed, Inv, Sgr.Idle, AnsiMeaning.Pen;
    assert AnsiMeaning.Encode(AnsiMeaning.Graphics([])) == [ESC, BRACKET, Sgr.SGR];
    AnsiFraming.SequenceRuns(env, st, AnsiMeaning.Graphics([]));
    AnsiFraming.SequenceRuns(env, st, AnsiMeaning.Restore);
    AnsiFraming.SequenceRuns(env, st, AnsiMeaning.Plain(c));
  }


  lemma XIsUnknown(env: Env, st: State)
    requires InSequence(st.ansi.scan)
    ensures Ansi.Step(env, st, NO_FINAL) == Ansi.Unknown(st, NO_FINAL)
    ensures AvatarStops.Refuses(env, st, NO_FINAL)
  {
    hide Ansi.Unknown;
  }

  /** Under ANSI: of 127 bytes no more than three events come back, and one byte too many is counted. */
  lemma OverlongUnderAnsi(env: Env, d: Display)
    requires env.emulation == EmulateAnsi
    ensures Inv(env, Initial(env, d))
    ensures var r := Feed(env, Initial(env, d), Longest() + [NO_FINAL]);
      |r.d.trace| <= |d.trace| + 3 && r.received == 128
  {
    hide Feed, ConsoleByte, Inv, TerminalEmulator, Sgr.Idle, Ansi.Step, Sgr.Collecting;
    InitialIsIdle(env, d);
    var st := Initial(env, d);
    assert forall c | c in Ones(124) :: Parameters.IsListByte(c);
    var s := Sgr.StringRuns(env, st, Ones(124), [NO_FINAL]);
    CollectedParts(env, st, s, Ones(124));
    XIsUnknown(env, s.(received := s.received + 1));
    Rejection.AnsiCall(env, s, NO_FINAL);
    Rejection.AnsiRejectionLoses(env, s, NO_FINAL);
    FeedIs(env, s, [NO_FINAL], NO_FINAL, []);
  }

  lemma CollectedParts(env: Env, st: State, s: State, held: seq<byte>)
    requires Sgr.Collecting(env, st, s, held) && |held| <= 124
    ensures Ready(env, s) && Inv(env, s) && !s.fault && InSequence(s.ansi.scan) && |s.buf| == 128
    ensures s.n == 2 + |held| && s.d == st.d && s.received == st.received + 2 + |held|
  {
  }

  /** Under AVATAR with its colour option on and fallback off the same bytes make it stop. */
  lemma OverlongUnderAvatar(env: Env, d: Display)
    requires env.emulation == EmulateAvatar && env.avatarColor && !env.avatarFallback
    ensures Inv(env, Initial(env, d)) && Feed(env, Initial(env, d), Longest() + [NO_FINAL]).fault
  {
    hide Feed, ConsoleByte, Inv, TerminalEmulator, AvatarFraming.Idle, AvatarSgr.Gathering;
    InitialIsIdle(env, d);
    var st := Initial(env, d);
    var tail := Ones(123) + [NO_FINAL];
    var first := AvatarSgr.GatherBegins(env, st, 0x31, tail);
    var s := AvatarSgr.GatherAll(env, st, first, [0x31], Ones(123), [NO_FINAL]);
    assert Longest() + [NO_FINAL] == [ESC, BRACKET, 0x31] + tail;
    GatheredParts(env, st, s, [0x31] + Ones(123));
    AvatarStops.StopsExactly(env, s, NO_FINAL);
    FeedIs(env, s, [NO_FINAL], NO_FINAL, []);
  }

  lemma GatheredParts(env: Env, st: State, s: State, held: seq<byte>)
    requires AvatarSgr.Gathering(env, st, s, held) && |held| == 124 && !env.avatarFallback
    ensures Ready(env, s) && Inv(env, s) && !s.fault && s.avatar.scan == AtCsiParam
    ensures AvatarStops.Overfills(env, s, NO_FINAL)
  {
  }

  // ------------------------------------------------------- the same in fallback

  lemma DigitPair(env: Env, st: State, av: State, an: State, held: seq<byte>, c: byte)
    requires FallbackFeed.Paired(env, av, an) && Sgr.Collecting(FallbackFeed.Plain(env), st, an, held)
    requires IsDigit(c) && |held| < 124
    ensures Inv(env, av) && Inv(FallbackFeed.Plain(env), an)
    ensures FallbackFeed.Paired(env, ConsoleByte(env, av, c), ConsoleByte(FallbackFeed.Plain(env), an, c))
    ensures Sgr.Collecting(FallbackFeed.Plain(env), st, ConsoleByte(FallbackFeed.Plain(env), an, c), held + [c])
  {
    var plain := FallbackFeed.Plain(env);
    Sgr.CollectByte(plain, st, an, held, c);
    CollectedParts(plain, st, an, held);
    DigitIsKept(plain, an.(received := an.received + 1), c);
    FallbackFeed.PairedHasInv(env, av, an);
    PairedRoom(env, av, an);
    hide ConsoleByte, Inv, Ansi.Step, Avatar.Step, Sgr.Collecting, FallbackFeed.Agreed, FallbackFeed.Paired;
    FallbackFeed.AnswersAgree(env, av, an, c);
    FallbackFeed.AnsweredAlike(env, av, an, c);
  }

  lemma DigitIsKept(env: Env, st: State, c: byte)
    requires st.ansi.scan in {AnsiCount, AnsiCountTwo, AnsiCountMany} && IsDigit(c)
    ensures Ansi.Step(env, st, c).status == NoCharYet
  {
    hide Ansi.Unknown;
  }

  lemma PairedRoom(env: Env, av: State, an: State)
    requires FallbackFeed.Paired(env, av, an) && an.n < 127
    ensures Ready(env, av) && Ready(FallbackFeed.Plain(env), an) && env.emulation == EmulateAvatar && av.n == an.n
    ensures av.avatar.scan == AtFallback && av.ansi == an.ansi && av.d == an.d
  {
  }

  lemma {:induction false} DigitsPair(env: Env, st: State, av: State, an: State, held: seq<byte>, more: seq<byte>)
    returns (x: State, y: State)
    requires FallbackFeed.Paired(env, av, an) && Sgr.Collecting(FallbackFeed.Plain(env), st, an, held)
    requires (forall c | c in more :: IsDigit(c)) && |held| + |more| <= 124
    ensures Inv(env, av) && x == Feed(env, av, more)
    ensures FallbackFeed.Paired(env, x, y) && Sgr.Collecting(FallbackFeed.Plain(env), st, y, held + more)
    decreases |more|
  {
    hide ConsoleByte, Feed, Inv, Sgr.Collecting, FallbackFeed.Paired;
    FallbackFeed.PairedHasInv(env, av, an);
    if more == [] {
      assert held + more == held;
      AvatarStops.FedNothing(env, av);
      x, y := av, an;
    } else {
      var c := more[0];
      assert c in more && forall k | k in more[1..] :: k in more;
      PairedIsRunning(env, av, an);
      DigitPair(env, st, av, an, held, c);
      x, y := DigitsPair(env, st, ConsoleByte(env, av, c), ConsoleByte(FallbackFeed.Plain(env), an, c), held + [c], more[1..]);
      assert held + [c] + more[1..] == held + more && more == [c] + more[1..];
      FeedIs(env, av, more, c, more[1..]);
    }
  }

  lemma PairedIsRunning(env: Env, av: State, an: State)
    requires FallbackFeed.Paired(env, av, an)
    ensures !av.fault && !an.fault
  {
  }

  /** avatar() in fallback and ansi() after ESC and the bracket. */
  lemma BracketPair(env: Env, st: State, e: State, o: State) returns (x: State, y: State)
    requires FallbackReach.FallbackOnly(env) && FallbackFeed.Escaped(env, e, o)
    requires Ready(FallbackFeed.Plain(env), o) && o.ansi.scan == AnsiEsc && o.n == 1 && o.buf[0] == ESC && |o.buf| == 128
    requires o.d == st.d && o.ansi == st.ansi.(scan := AnsiEsc, attributes := st.d.color) && o.received == st.received + 1
    ensures Inv(env, e) && x == ConsoleByte(env, e, BRACKET) && FallbackFeed.Paired(env, x, y)
    ensures Sgr.Opened(FallbackFeed.Plain(env), st, y)
  {
    var plain := FallbackFeed.Plain(env);
    hide ConsoleByte, Inv, Ansi.Step, FallbackFeed.Paired, FallbackFeed.Escaped;
    FallbackFeed.EscapedHasInv(env, e, o);
    EscapeGoesOn(plain, o);
    FallbackFeed.EscapedPair(env, e, o, BRACKET);
    x := ConsoleByte(env, e, BRACKET);
    y := Sgr.Opens(plain, o, BRACKET);
  }

  /** Both sides after the ESC. */
  lemma EscapeSides(env: Env, st: State) returns (e: State, o: State)
    requires FallbackReach.FallbackOnly(env) && AnsiFallback.AtRest(st) && Inv(env, st) && st.last != ManyChars
    ensures !st.fault && e == ConsoleByte(env, st, ESC) && Inv(env, e) && !e.fault && FallbackFeed.Escaped(env, e, o)
    ensures var plain, an := FallbackFeed.Plain(env), FallbackFeed.Alone(st);
      && Ready(plain, o) && o.ansi == an.ansi.(scan := AnsiEsc, attributes := an.d.color)
      && o.n == 1 && |o.buf| == 128 && o.buf[0] == ESC && o.d == an.d && o.received == an.received + 1
  {
    FallbackFeed.EscapePair(env, st);
    AloneIsIdle(env, st);
    hide ConsoleByte, Ansi.Step, FallbackFeed.Escaped;
    e := ConsoleByte(env, st, ESC);
    o := Sgr.Opens(FallbackFeed.Plain(env), FallbackFeed.Alone(st), ESC);
    FallbackFeed.EscapedHasInv(env, e, o);
  }

  lemma TwoBytes(env: Env, st: State) returns (x: State, y: State)
    requires FallbackReach.FallbackOnly(env) && AnsiFallback.AtRest(st) && Inv(env, st) && st.last != ManyChars
    ensures x == Feed(env, st, [ESC, BRACKET]) && FallbackFeed.Paired(env, x, y)
    ensures Sgr.Opened(FallbackFeed.Plain(env), FallbackFeed.Alone(st), y)
  {
    hide ConsoleByte, Feed, Inv, Ansi.Step, AnsiFallback.AtRest, FallbackFeed.Paired, FallbackFeed.Escaped, Sgr.Opened;
    var e, o := EscapeSides(env, st);
    x, y := BracketPair(env, FallbackFeed.Alone(st), e, o);
    FeedIs(env, st, [ESC, BRACKET], ESC, [BRACKET]);
    FeedIs(env, e, [BRACKET], BRACKET, []);
  }

  lemma ThirdByte(env: Env, st: State, av: State, an: State) returns (x: State, y: State)
    requires FallbackFeed.Paired(env, av, an) && Sgr.Opened(FallbackFeed.Plain(env), st, an)
    ensures Inv(env, av) && x == ConsoleByte(env, av, 0x31) && FallbackFeed.Paired(env, x, y)
    ensures Sgr.Collecting(FallbackFeed.Plain(env), st, y, [0x31])
  {
    var plain := FallbackFeed.Plain(env);
    FallbackFeed.PairedHasInv(env, av, an);
    PairedIsRunning(env, av, an);
    PairedRoom(env, av, an);
    StartGoesOn(plain, an);
    hide ConsoleByte, Ansi.Step, Avatar.Step, FallbackFeed.Agreed, FallbackFeed.Paired;
    Sgr.FirstByte(plain, st, an, 0x31);
    y := ConsoleByte(plain, an, 0x31);
    x := ConsoleByte(env, av, 0x31);
    FallbackFeed.AnswersAgree(env, av, an, 0x31);
    FallbackFeed.AnsweredAlike(env, av, an, 0x31);
  }

  /** ESC, the bracket and one digit, under AVATAR and under ANSI. */
  lemma FallbackOpens(env: Env, st: State) returns (x: State, y: State)
    requires FallbackReach.FallbackOnly(env) && AnsiFallback.AtRest(st) && Inv(env, st) && st.last != ManyChars
    ensures x == Feed(env, st, [ESC, BRACKET, 0x31]) && FallbackFeed.Paired(env, x, y)
    ensures Sgr.Collecting(FallbackFeed.Plain(env), FallbackFeed.Alone(st), y, [0x31])
  {
    hide ConsoleByte, Inv, Feed, FallbackFeed.Paired, Sgr.Opened, Sgr.Collecting;
    var x2, y2 := TwoBytes(env, st);
    x, y := ThirdByte(env, FallbackFeed.Alone(st), x2, y2);
    assert [ESC, BRACKET] + [0x31] == [ESC, BRACKET, 0x31];
    FeedConcat(env, st, [ESC, BRACKET], [0x31]);
    PairedIsRunning(env, x2, y2);
    FeedIs(env, x2, [0x31], 0x31, []);
  }

  lemma AloneIsIdle(env: Env, st: State)
    requires AnsiFallback.AtRest(st)
    ensures Sgr.Idle(FallbackFeed.Plain(env), FallbackFeed.Alone(st))
  {
  }

  lemma EscapeGoesOn(env: Env, st: State)
    requires st.ansi.scan == AnsiEsc
    ensures Ansi.Step(env, st.(received := st.received + 1), BRACKET).status == NoCharYet
  {
    hide Ansi.Unknown;
  }

  lemma StartGoesOn(env: Env, st: State)
    requires st.ansi.scan == AnsiStart
    ensures Ansi.Step(env, st.(received := st.received + 1), 0x31).status == NoCharYet
  {
    hide Ansi.Unknown, Ansi.StartEffect;
  }

  /** In fallback, too, they make AVATAR stop. */
  lemma OverlongInFallback(env: Env, d: Display)
    requires FallbackReach.FallbackOnly(env)
    ensures Inv(env, Initial(env, d)) && Feed(env, Initial(env, d), Longest() + [NO_FINAL]).fault
  {
    hide Feed, ConsoleByte, Inv, TerminalEmulator, FallbackFeed.Paired, Sgr.Collecting, AvatarStops.Overfills;
    InitialIsIdle(env, d);
    var st := Initial(env, d);
    var three := [ESC, BRACKET, 0x31];
    var x, y := FallbackOpens(env, st);
    var av, an := DigitsPair(env, FallbackFeed.Alone(st), x, y, [0x31], Ones(123));
    assert Longest() + [NO_FINAL] == three + (Ones(123) + [NO_FINAL]);
    FallbackFeed.PairedHasInv(env, x, y);
    FeedConcat(env, st, three, Ones(123) + [NO_FINAL]);
    FeedConcat(env, x, Ones(123), [NO_FINAL]);
    CollectedParts(FallbackFeed.Plain(env), FallbackFeed.Alone(st), an, [0x31] + Ones(123));
    PairedRoom(env, av, an);
    FullHere(env, av);
    AvatarStops.StopsExactly(env, av, NO_FINAL);
    FallbackFeed.PairedHasInv(env, av, an);
    PairedIsRunning(env, av, an);
    FeedIs(env, av, [NO_FINAL], NO_FINAL, []);
  }

  lemma FullHere(env: Env, st: State)
    requires st.n == 126 && st.avatar.scan == AtFallback && InSequence(st.ansi.scan)
    ensures AvatarStops.Overfills(env, st, NO_FINAL)
  {
    XIsUnknown(env, st);
    hide AvatarStops.Refuses;
  }

  // ------------------------------------------------------- an omitted row

  const LOCATE: byte := 0x48

  /** ESC [ ; 5 H does not move the cursor: all five bytes are shown. */
  lemma OmittedRowIsShown(env: Env, d: Display)
    requires env.emulation == EmulateAnsi
    ensures Inv(env, Initial(env, d))
    ensures Feed(env, Initial(env, d), [ESC, BRACKET, 0x3B, 0x35, LOCATE]).d
         == Rejection.Shown(env, Initial(env, d).d, [ESC, BRACKET, 0x3B, 0x35, LOCATE])
  {
    hide Feed, ConsoleByte, Inv, TerminalEmulator, Sgr.Idle, Sgr.Collecting, Parameters.IsLocation, Rejection.Glyphs;
    InitialIsIdle(env, d);
    var st := Initial(env, d);
    var held := [0x3B, 0x35];
    var s := Sgr.StringRuns(env, st, held, [LOCATE]);
    CollectedParts(env, st, s, held);
    NoLocation();
    Sgr.LocateExactly(env, st, s, held, LOCATE);
    FeedIs(env, s, [LOCATE], LOCATE, []);
    assert [ESC, BRACKET] + held + [LOCATE] == [ESC, BRACKET, 0x3B, 0x35, LOCATE];
    OneNumber.HeldBytes(env, st, s, held, LOCATE);
  }

  lemma NoLocation()
    ensures forall row, column :: !Parameters.IsLocation([0x3B, 0x35], row, column)
    ensures Parameters.IsPositionString([0x3B, 0x35])
  {
    var s := [0x3B, 0x35];
    forall k | 0 < k <= |s| ensures !Parameters.IsParameter(s[..k]) {
      assert s[..k][0] == 0x3B && s[..k][0] in s[..k];
    }
    assert s != [Parameters.SEMICOLON];
  }

  // ------------------------------------------------------- a private marker

  /** ESC [ ? x swallows four bytes and shows three. */
  lemma MarkerIsLost(env: Env, d: Display)
    requires env.emulation == EmulateAnsi
    ensures Inv(env, Initial(env, d))
    ensures Feed(env, Initial(env, d), [ESC, BRACKET, 0x3F, NO_FINAL]).d
         == Rejection.Shown(env, Initial(env, d).d, [ESC, BRACKET, NO_FINAL])
  {
    InitialIsIdle(env, d);
    var st := Initial(env, d);
    hide Feed, ConsoleByte, Inv, TerminalEmulator, Ansi.Step, Rejection.Shown;
    var e := Sgr.Opens(env, st, ESC);
    var o := Sgr.Opens(env, e, BRACKET);
    MarkerByte(env, o);
    var q := ConsoleByte(env, o, 0x3F);
    FeedIs(env, st, [ESC], ESC, []);
    FeedIs(env, st, [ESC, BRACKET], ESC, [BRACKET]);
    FeedIs(env, e, [BRACKET], BRACKET, []);
    FeedIs(env, st, [ESC, BRACKET, 0x3F], ESC, [BRACKET, 0x3F]);
    FeedIs(env, e, [BRACKET, 0x3F], BRACKET, [0x3F]);
    FeedIs(env, o, [0x3F], 0x3F, []);
    var s := [ESC, BRACKET, 0x3F];
    ReadyInside(env, e);
    ReadyInside(env, o);
    assert s[..1] == [ESC] && s[..2] == [ESC, BRACKET] && s[..3] == s;
    assert Swallowed(env, st, s);
    XIsAnswered(env, q);
    StoredOfMarker();
    StoredComesBack(env, st, s, NO_FINAL);
    assert s + [NO_FINAL] == [ESC, BRACKET, 0x3F, NO_FINAL];
    assert st.d.trace + [] == st.d.trace;
  }

  /** Mode 7, with its one digit. */
  const WRAP := AnsiMeaning.Mode(true, AnsiMeaning.Unmarked, Decimal.Number(7, 1))

  /** ESC [ 7 h is ignored without a private marker, and obeyed after ESC [ ? x, whose marker nobody has cleared. */
  lemma MarkerIsStale(env: Env, d: Display)
    requires env.emulation == EmulateAnsi && !d.lineWrap
    ensures Inv(env, Initial(env, d))
    ensures !Feed(env, Initial(env, d), [ESC, BRACKET, 0x37, 0x68]).d.lineWrap
    ensures Feed(env, Initial(env, d), [ESC, BRACKET, 0x3F, NO_FINAL] + [ESC, BRACKET, 0x37, 0x68]).d.lineWrap
  {
    InitialIsIdle(env, d);
    var st := Initial(env, d);
    WrapBytes(env, st);
    hide Feed, ConsoleByte, Inv, AnsiMeaning.Encode, AnsiMeaning.ValidSequence, Sgr.Idle;
    AnsiFraming.SequenceRuns(env, st, WRAP);
    var r := Rejected(env, st, [ESC, BRACKET, 0x37, 0x68]);
    AnsiFraming.SequenceRuns(env, r, WRAP);
  }

  lemma WrapBytes(env: Env, st: State)
    ensures AnsiMeaning.Encode(WRAP) == [ESC, BRACKET, 0x37, 0x68] && AnsiMeaning.ValidSequence(env, WRAP)
  {
    var x := Decimal.Number(7, 1);
    assert Decimal.Power(1) == 10;
    assert Decimal.Digits(7, 1) == Decimal.Digits(0, 0) + [0x37];
    assert Decimal.Written(x) == [0x37];
    hide Decimal.Written;
  }

  /** After ESC [ ?. */
  lemma MarkerHeld(env: Env, st: State, tail: seq<byte>) returns (q: State)
    requires Sgr.Idle(env, st) && Inv(env, st) && !st.fault
    ensures env.emulation == EmulateAnsi && Ready(env, q) && Inv(env, q) && !q.fault && q.ansi.scan == AnsiStart && q.n == 2
    ensures AnsiMeaning.ScreenOf(q).marked && Feed(env, st, [ESC, BRACKET, 0x3F] + tail) == Feed(env, q, tail)
  {
    var m, rest := AnsiMeaning.Dec, [0x3F as byte] + tail;
    hide Feed, ConsoleByte, Inv, Sgr.Opened, Sgr.Idle;
    var o := Sgr.BracketRuns(env, st, rest);
    assert AnsiMeaning.MarkerText(m) + tail == rest;
    q := AnsiFraming.MarkerRuns(env, st, o, m, tail);
    OpenedParts(env, AnsiFraming.Marked(st, m), q);
    assert [ESC, BRACKET, 0x3F] + tail == [ESC, BRACKET] + rest;
  }

  /** After ESC [ ? x. */
  lemma Rejected(env: Env, st: State, tail: seq<byte>) returns (r: State)
    requires Sgr.Idle(env, st) && Inv(env, st) && !st.fault
    ensures Sgr.Idle(env, r) && AnsiMeaning.ScreenOf(r).marked && Inv(env, r) && !r.fault
    ensures Feed(env, st, [ESC, BRACKET, 0x3F, NO_FINAL] + tail) == Feed(env, r, tail)
  {
    hide Feed, ConsoleByte, Inv, Sgr.Idle, TerminalEmulator;
    var q := MarkerHeld(env, st, [NO_FINAL] + tail);
    XRejected(env, q);
    AnsiFraming.RejectionKeepsMarks(env, q, NO_FINAL);
    FeedIs(env, q, [NO_FINAL] + tail, NO_FINAL, tail);
    r := ConsoleByte(env, q, NO_FINAL);
    AnsiFraming.IdleHasInv(env, r);
    assert [ESC, BRACKET, 0x3F, NO_FINAL] + tail == [ESC, BRACKET, 0x3F] + ([NO_FINAL] + tail);
  }

  lemma OpenedParts(env: Env, st: State, q: State)
    requires Sgr.Opened(env, st, q)
    ensures env.emulation == EmulateAnsi && Ready(env, q) && Inv(env, q) && !q.fault && q.ansi.scan == AnsiStart && q.n == 2
    ensures AnsiMeaning.ScreenOf(q).marked == AnsiMeaning.ScreenOf(st).marked
  {
  }

  lemma XRejected(env: Env, q: State)
    requires env.emulation == EmulateAnsi && Ready(env, q) && q.ansi.scan == AnsiStart && q.n == 2
    ensures TerminalEmulator(env, q, NO_FINAL).status == ManyChars
  {
    hide Ansi.Step, TerminalEmulator;
    XIsUnknown(env, q.(received := q.received + 1));
    Rejection.AnsiCall(env, q, NO_FINAL);
  }

  lemma MarkerByte(env: Env, st: State)
    requires env.emulation == EmulateAnsi && Ready(env, st) && st.ansi.scan == AnsiStart
    ensures Inside(env, ConsoleByte(env, st, 0x3F)) && Ready(env, ConsoleByte(env, st, 0x3F))
    ensures ConsoleByte(env, st, 0x3F).ansi.scan == AnsiStart
  {
    hide ConsoleByte, Ansi.StartEffect, Ansi.Unknown;
    Sgr.SilentByte(env, st, 0x3F);
  }

  lemma ReadyInside(env: Env, st: State)
    requires env.emulation == EmulateAnsi && Ready(env, st) && InSequence(st.ansi.scan)
    ensures Inside(env, st)
  {
  }

  lemma XIsAnswered(env: Env, st: State)
    requires env.emulation == EmulateAnsi && Ready(env, st) && InSequence(st.ansi.scan)
    ensures TerminalEmulator(env, st, NO_FINAL).status != NoCharYet
  {
    hide Ansi.Step, TerminalEmulator;
    XIsUnknown(env, st.(received := st.received + 1));
    Rejection.AnsiCall(env, st, NO_FINAL);
  }

  lemma StoredOfMarker()
    ensures var s := [ESC, BRACKET, 0x3F];
      && Stored(EmulateAnsi, s) == [ESC, BRACKET] && Obeyed(EmulateAnsi, s[1..]) == []
      && Stored(EmulateAnsi, s) + [NO_FINAL] == [ESC, BRACKET, NO_FINAL]
  {
    var e := EmulateAnsi;
    OneStored(e, ESC);
    StoredMore(e, [ESC], BRACKET);
    StoredMore(e, [ESC, BRACKET], 0x3F);
    hide Stored, Kept, Obeyed;
    assert [ESC] + [BRACKET] == [ESC, BRACKET] && [ESC, BRACKET] + [0x3F] == [ESC, BRACKET, 0x3F];
  }

  lemma OneStored(e: Emulation, b: byte)
    ensures Stored(e, [b]) == [b] && Obeyed(e, [b][1..]) == []
  {
  }

  // ------------------------------------------------------- AVATAR's stale attributes

  const BOLD: byte := 0x08  // the CGA attribute of bold black on black

  /** ^V^A sets bold, and the SGR for reverse that follows takes it away again, which it does not under ANSI. */
  lemma AttributesAreStale(env: Env, d: Display)
    requires env.emulation == EmulateAvatar && env.avatarColor
    ensures Inv(env, Initial(env, d))
    ensures var plain := FallbackFeed.Plain(env);
      var st := Feed(env, Initial(env, d), [0x16, 0x01, BOLD]);
      var an := Initial(plain, d).(d := st.d);
      && Inv(env, st) && Inv(plain, an)
      && Feed(env, st, [ESC, BRACKET, 0x37, Sgr.SGR]).d != Feed(plain, an, [ESC, BRACKET, 0x37, Sgr.SGR]).d
  {
    hide Feed, Inv, AvatarFraming.Idle, Sgr.Idle, AvatarSgr.AllSettled, Parameters.Joined, Parameters.Values;
    var plain := FallbackFeed.Plain(env);
    var st := BoldSet(env, d);
    var an := Initial(plain, d).(d := st.d);
    ShownIsIdle(plain, d, st.d);
    var ps := [[0x37]];
    ReverseList();
    assert Sgr.Sequence(ps) == [ESC, BRACKET, 0x37, Sgr.SGR];
    NotSettled(env, st.avatar.attributes, st.d.color);
    AvatarSgr.AvatarSgrExactly(env, st, plain, an, ps);
  }

  lemma BoldSet(env: Env, d: Display) returns (st: State)
    requires env.emulation == EmulateAvatar
    ensures Inv(env, Initial(env, d)) && st == Feed(env, Initial(env, d), [0x16, 0x01, BOLD])
    ensures AvatarFraming.Idle(env, st) && Inv(env, st) && st.d.color.bold && !st.avatar.attributes.bold
  {
    hide ConsoleByte, Feed;
    InitialIsIdle(env, d);
    var start := Initial(env, d);
    var l := AvatarFraming.LeadRuns(env, start);
    LeadKeeps(env, start);
    var a := AvatarFraming.OperandRuns(env, start, l, 0x01, 1);
    AvatarFraming.SilentByte(env, a, BOLD);
    st := ConsoleByte(env, a, BOLD);
    assert Avatar.PcColor(BOLD).bold;
    FeedIs(env, start, [0x16, 0x01, BOLD], 0x16, [0x01, BOLD]);
    FeedIs(env, l, [0x01, BOLD], 0x01, [BOLD]);
    FeedIs(env, a, [BOLD], BOLD, []);
  }

  lemma LeadKeeps(env: Env, st: State)
    requires AvatarFraming.Idle(env, st)
    ensures ConsoleByte(env, st, 0x16).avatar == st.avatar.(scan := AtV)
  {
    hide ConsoleByte;
    AvatarFraming.SilentByte(env, st, 0x16);
  }

  lemma ShownIsIdle(env: Env, d: Display, shown: Display)
    requires env.emulation == EmulateAnsi
    ensures Sgr.Idle(env, Initial(env, d).(d := shown)) && Inv(env, Initial(env, d).(d := shown))
  {
  }

  lemma ReverseList()
    ensures var ps := [[0x37 as byte]];
      Parameters.AllParameters(ps) && Parameters.Joined(ps) == [0x37] && Parameters.Values(ps) == [7]
  {
    var ps := [[0x37 as byte]];
    assert ps[1..] == [] && [0x37 as byte][..0] == [] && [0x37 as byte][1..] == [];
    assert Csi.Value([0x37]) == 7;
  }

  lemma NotSettled(env: Env, a: Attr, b: Attr)
    requires a.bold != b.bold
    ensures !AvatarSgr.AllSettled(env, a, b, [7])
  {
    assert [7][..0] == [];
    assert Sgr.Last(env, Sgr.Bold, [7]) == -1;
  }

  // ------------------------------------------------------- an unknown command

  /** With fallback off, ^V and a byte that is no command make AVATAR stop at whatever byte comes next. */
  lemma UnknownCommandStops(env: Env, d: Display, next: byte)
    requires env.emulation == EmulateAvatar && !env.avatarFallback
    ensures Inv(env, Initial(env, d)) && Feed(env, Initial(env, d), [0x16, 0x00, next]).fault
  {
    hide ConsoleByte, Feed, Inv;
    InitialIsIdle(env, d);
    var start := Initial(env, d);
    var l := AvatarFraming.LeadRuns(env, start);
    InsideIsReady(env, start, l);
    Rejection.UnknownCommandSticks(env, l, 0x00);
    var r := ConsoleByte(env, l, 0x00);
    FeedIs(env, start, [0x16, 0x00, next], 0x16, [0x00, next]);
    FeedIs(env, l, [0x00, next], 0x00, [next]);
    FeedIs(env, r, [next], next, []);
  }

  lemma InsideIsReady(env: Env, st: State, r: State)
    requires AvatarFraming.Inside(env, st, r, AtV, 1)
    ensures Ready(env, r) && Inv(env, r) && r.avatar.scan == AtV && env.emulation == EmulateAvatar
  {
  }
}
