/**
 ANSI fallback seen from the console: the same bytes, fed through the dispatcher under AVATAR and under ANSI, show the
 same, except where a CR or LF meets an unfinished sequence and where a rejected one fills the buffer.
 */
module FallbackFeed {
  import opened Display
  import opened Machine
  import opened Invariant
  import opened Console
  import opened Rejection
  import opened Conservation
  import opened AnsiFallback
  import Ansi
  import Avatar
  import AvatarSgr
  import AvatarStops
  import Csi
  import FallbackReach

  // ------------------------------------------------------- ansi() does not ask which emulation is on

  /** The same settings under ANSI. */
  function Plain(env: Env): Env {
    env.(emulation := EmulateAnsi)
  }

  lemma {:induction false} ParseIgnores(env: Env, buf: seq<byte>, at: nat, pen: Attr)
    ensures Csi.ParseSgr(env, buf, at, pen) == Csi.ParseSgr(Plain(env), buf, at, pen)
    decreases |buf| - at
  {
    hide Csi.SgrStep, Csi.Ps;
    var ps := Csi.Ps(buf, at);
    if ps.value != -1 {
      AvatarSgr.StepIgnoresEmulation(env, Plain(env), pen, ps.value);
      if Csi.Cell(buf, ps.end) == ';' as int && ps.end + 1 < |buf| {
        ParseIgnores(env, buf, ps.end + 1, Csi.SgrStep(env, pen, ps.value));
      }
    }
  }

  lemma ColourIgnores(env: Env, st: State, b: byte)
    ensures Ansi.Colour(env, st, b) == Ansi.Colour(Plain(env), st, b)
  {
    hide Csi.ParseSgr;
    ParseIgnores(env, st.buf, st.ansi.count, st.ansi.attributes.(fg := st.d.color.fg, bg := st.d.color.bg));
  }

  lemma EffectsIgnore(env: Env, d: Display, v: AnsiVars, b: byte, ps: nat)
    ensures Ansi.StartEffect(env, d, v, b) == Ansi.StartEffect(Plain(env), d, v, b)
    ensures Ansi.CountEffect(env, d, v, b, ps) == Ansi.CountEffect(Plain(env), d, v, b, ps)
  {
  }

  lemma CountIgnores(env: Env, st: State, b: byte)
    ensures Ansi.Count(env, st, b) == Ansi.Count(Plain(env), st, b)
  {
    hide Csi.Ps, Csi.ParseOne, Csi.ParsePosition, Ansi.Colour, Ansi.CountEffect, Ansi.Unknown;
    ColourIgnores(env, st, b);
    var ps := Csi.Ps(st.buf, st.ansi.count).value;
    if ps != -1 {
      EffectsIgnore(env, st.d, st.ansi, b, ps);
    }
    var one := Csi.ParseOne(st.buf, st.ansi.count, if b as char in {'d', 'G', 'I'} then 1 else 0);
    if one != -1 {
      EffectsIgnore(env, st.d, st.ansi, b, one);
    }
  }

  lemma StepIgnores(env: Env, st: State, b: byte)
    ensures Ansi.Step(env, st, b) == Ansi.Step(Plain(env), st, b)
  {
    hide Csi.ParsePosition, Ansi.Colour, Ansi.Count, Ansi.StartEffect, Ansi.Unknown;
    CountIgnores(env, st, b);
    ColourIgnores(env, st, b);
    EffectsIgnore(env, st.d, st.ansi, b, 0);
  }

  // ------------------------------------------------------- one byte on either side

  /** avatar() in fallback, and ansi() on its own, after the same bytes. */
  predicate Paired(env: Env, av: State, an: State) {
    && env.emulation == EmulateAvatar && av.avatar.scan == AtFallback
    && Inv(env, av) && Inv(Plain(env), an) && !av.fault && !an.fault && av.last != ManyChars && an.last != ManyChars
    && SameBuffer(av, an) && SameButBuffer(av, an)
  }

  /** Both have room, and have thrown away a full buffer if they had one. */
  lemma PairedJunk(env: Env, av: State, an: State, b: byte)
    requires Paired(env, av, an)
    ensures var x, y := Junk(av), Junk(an);
      && Paired(env, x, y) && Ready(env, x) && Ready(Plain(env), y)
      && ConsoleByte(env, av, b) == ConsoleByte(env, x, b) && ConsoleByte(Plain(env), an, b) == ConsoleByte(Plain(env), y, b)
      && x.d == av.d && y.d == an.d && y.ansi == an.ansi
  {
    hide ConsoleByte, TerminalEmulator;
    JunkFirst(env, av, b);
    JunkFirst(Plain(env), an, b);
  }

  /** The same answer, by avatar() from its fallback and by ansi(). */
  predicate Agreed(x: Result, y: Result) {
    && !x.st.fault && !y.st.fault && x.status == y.status != RepeatState && x.ch == y.ch
    && SameBuffer(x.st, y.st) && SameButBuffer(x.st, y.st)
    && x.st.avatar.scan == (match x.status case NoCharYet => AtFallback case ManyChars => AtDump case _ => AtNone)
    && (y.status == OneChar || y.status == ManyChars ==> y.st.ansi.scan == AnsiNone)
  }

  /** What the last byte handed over makes avatar() answer, and the same byte ansi(). */
  lemma RelayAgreed(env: Env, av: State, an: State, b: byte)
    requires SameBuffer(av, an) && SameButBuffer(av, an)
    requires av.avatar.relayed + 1 == |av.avatar.relay| && av.avatar.relay[av.avatar.relayed] == b
    requires BufferOk(an) && AnsiOk(an) && AnsiIdleOk(an) && !an.fault && an.n < 127
    ensures Agreed(Avatar.Relay(env, av), Ansi.Step(Plain(env), an, b))
  {
    hide Ansi.Step;
    StepsAgree(env, av, an, b);
    StepIgnores(env, an, b);
    AnsiStepKeeps(env, an, b);
    LastRelayed(env, av);
  }

  lemma AnswersAgree(env: Env, av: State, an: State, b: byte)
    requires Paired(env, av, an) && Ready(env, av) && Ready(Plain(env), an)
    ensures Agreed(Avatar.Step(env, av.(received := av.received + 1), b),
                   Ansi.Step(Plain(env), an.(received := an.received + 1), b))
  {
    hide Ansi.Step, Inv, Agreed, Avatar.Relay;
    PairedParts(env, av, an, b);
    var one := av.(received := av.received + 1, avatar := av.avatar.(relay := [b]));
    RelayAgreed(env, one, an.(received := an.received + 1), b);
    assert Avatar.Step(env, av.(received := av.received + 1), b) == Avatar.Relay(env, one);
  }

  lemma PairedParts(env: Env, av: State, an: State, b: byte)
    requires Paired(env, av, an) && Ready(env, av) && Ready(Plain(env), an)
    ensures av.avatar.relay == [] && av.avatar.relayed == 0
    ensures BufferOk(an) && AnsiOk(an) && AnsiIdleOk(an)
  {
  }

  lemma {:induction false} GlyphsIgnore(env: Env, bytes: seq<byte>)
    ensures Glyphs(env, bytes) == Glyphs(Plain(env), bytes)
  {
    if bytes != [] {
      GlyphsIgnore(env, bytes[1..]);
    }
  }

  /** What the console makes of such answers. */
  predicate ShownAlike(env: Env, x: State, y: State, status: Status, full: bool) {
    && (status == NoCharYet ==> Paired(env, x, y))
    && (status != NoCharYet ==> x.fault || x.avatar.scan == AtNone)
    && (x.d == y.d <==> !(status == ManyChars && full))
  }

  /** A byte other than CR and LF. */
  lemma AnsweredAlike(env: Env, av: State, an: State, b: byte)
    requires env.emulation == EmulateAvatar && Ready(env, av) && Ready(Plain(env), an) && b != CR && b != LF
    requires var y := Ansi.Step(Plain(env), an.(received := an.received + 1), b);
      Agreed(Avatar.Step(env, av.(received := av.received + 1), b), y)
    ensures var y := Ansi.Step(Plain(env), an.(received := an.received + 1), b);
      ShownAlike(env, ConsoleByte(env, av, b), ConsoleByte(Plain(env), an, b), y.status, an.n == 126)
  {
    hide Ansi.Step, Avatar.Step, Inv, ConsoleByte, TerminalEmulator, AnsiKept, Drain, Glyphs;
    AvatarCall(env, av, b);
    AnsiCall(Plain(env), an, b);
    NotedAnswer(env, Avatar.Step(env, av.(received := av.received + 1), b));
    ReadyIsInv(env, av);
    ReadyIsInv(Plain(env), an);
    match Ansi.Step(Plain(env), an.(received := an.received + 1), b).status {
      case NoCharYet =>
        SilentDrains(env, av, b);
        SilentDrains(Plain(env), an, b);
      case OneChar =>
        OneCharDrains(env, av, b);
        OneCharDrains(Plain(env), an, b);
      case ManyChars =>
        ManyAlike(env, av, an, b);
    }
  }

  lemma ManyAlike(env: Env, av: State, an: State, b: byte)
    requires env.emulation == EmulateAvatar && Ready(env, av) && Ready(Plain(env), an)
    requires var x, y := TerminalEmulator(env, av, b), TerminalEmulator(Plain(env), an, b);
      && x.status == y.status == ManyChars && x.ch == y.ch && !x.st.fault && x.st.avatar.scan == AtDump
      && SameBuffer(x.st, y.st) && SameButBuffer(x.st, y.st) && y.st.ansi.scan == AnsiNone
    ensures ConsoleByte(env, av, b).d == ConsoleByte(Plain(env), an, b).d <==> an.n != 126
    ensures ConsoleByte(env, av, b).fault || ConsoleByte(env, av, b).avatar.scan == AtNone
  {
    hide Inv, ConsoleByte, TerminalEmulator, Drain, Glyphs;
    ReadyIsInv(env, av);
    ReadyIsInv(Plain(env), an);
    ManyCharsDrains(env, av, b);
    var x, y := TerminalEmulator(env, av, b), TerminalEmulator(Plain(env), an, b);
    AnsiRejects(Plain(env), an, b);
    assert x.st.buf == y.st.buf && x.st.n == y.st.n == an.n + 1;
    if an.n < 126 {
      ManyCharsDrains(Plain(env), an, b);
      AvatarPrintout(env, x.st, x.ch);
      AnsiPrintout(Plain(env), y.st, y.ch);
      GlyphsIgnore(env, x.st.buf[x.st.i..x.st.n]);
    } else {
      AvatarLoses(env, x.st, x.ch);
      AnsiRejectionLoses(Plain(env), an, b);
    }
  }

  /** CR and LF, which the dispatcher keeps from ansi(), between two sequences. */
  lemma ReturnPair(env: Env, av: State, an: State, b: byte)
    requires Paired(env, av, an) && Ready(env, av) && Ready(Plain(env), an) && (b == CR || b == LF)
    requires an.ansi.scan == AnsiNone
    ensures Paired(env, ConsoleByte(env, av, b), ConsoleByte(Plain(env), an, b))
  {
    hide Avatar.Step, Inv, ConsoleByte, TerminalEmulator;
    NotReturned(Plain(env), an, b);
    var counted := av.(received := av.received + 1);
    PairedParts(env, av, an, b);
    AvatarCall(env, av, b);
    ReturnObeyed(env, counted, b);
    NotedAnswer(env, Avatar.Step(env, counted, b));
    SilentDrains(env, av, b);
    TerminalEmulatorKeeps(Plain(env), an, b);
    SilentDrains(Plain(env), an, b);
  }

  lemma ReturnObeyed(env: Env, st: State, b: byte)
    requires st.avatar.scan == AtFallback && st.avatar.relay == [] && st.avatar.relayed == 0 && st.ansi.scan == AnsiNone
    requires b == CR || b == LF
    ensures Avatar.Step(env, st, b) == Silent(st.Show(if b == CR then CarriageReturn else LineFeed))
  {
    var one := st.(avatar := st.avatar.(relay := [b]));
    assert Avatar.Step(env, st, b) == Avatar.Relay(env, one);
    LastRelayed(env, one);
    assert Ansi.Step(env, one, b) == Ansi.Ground(env, one, b);
    hide Ansi.Step, Avatar.Step, Avatar.Relay;
  }

  /** Inside a sequence ANSI obeys them and AVATAR does not. */
  lemma ReturnDiverges(env: Env, av: State, an: State, b: byte)
    requires Paired(env, av, an) && Ready(env, av) && Ready(Plain(env), an) && (b == CR || b == LF)
    requires an.ansi.scan != AnsiNone
    ensures ConsoleByte(env, av, b).d != ConsoleByte(Plain(env), an, b).d
  {
    hide Avatar.Step, Ansi.Step, Inv, ConsoleByte, TerminalEmulator;
    NotReturned(Plain(env), an, b);
    PairedHasInv(env, av, an);
    if an.ansi.scan == AnsiMusic {
      MusicDiverges(env, av, b);
    } else {
      var counted := av.(received := av.received + 1);
      AvatarCall(env, av, b);
      AnswersAgree(env, av, an, b);
      NotedAnswer(env, Avatar.Step(env, counted, b));
      ReturnRefused(env, an, b);
      FallbackOutcome(env, av, b);
      ReadyIsInv(env, av);
    }
  }

  lemma PairedHasInv(env: Env, av: State, an: State)
    requires Paired(env, av, an)
    ensures Inv(env, av) && Inv(Plain(env), an) && av.d == an.d && av.ansi == an.ansi
  {
  }

  lemma ReturnRefused(env: Env, an: State, b: byte)
    requires InSequence(an.ansi.scan) && (b == CR || b == LF)
    ensures Ansi.Step(Plain(env), an.(received := an.received + 1), b).status != NoCharYet
  {
    hide Ansi.Step;
    AvatarStops.RefusesExactly(Plain(env), an.(received := an.received + 1), b);
  }

  lemma MusicDiverges(env: Env, av: State, b: byte)
    requires env.emulation == EmulateAvatar && Ready(env, av) && av.ansi.scan == AnsiMusic && av.avatar.scan == AtFallback
    requires b == CR || b == LF
    ensures var e := if b == CR then CarriageReturn else LineFeed; ConsoleByte(env, av, b).d != av.d.Emit(e)
  {
    hide ConsoleByte, Inv, TerminalEmulator;
    AvatarCall(env, av, b);
    var counted := av.(received := av.received + 1);
    FallbackIdle(env, av, b);
    MusicAnswer(env, counted, b);
    NotedAnswer(env, Avatar.Step(env, counted, b));
    hide Avatar.Step;
    ReadyIsInv(env, av);
    SilentDrains(env, av, b);
    var e := if b == CR then CarriageReturn else LineFeed;
    assert |av.d.Emit(e).trace| == |av.d.trace| + 1;
    assert |av.d.Emit(Refresh).Emit(PlayMusic(av.ansi.music)).trace| == |av.d.trace| + 2;
  }

  lemma MusicAnswer(env: Env, st: State, b: byte)
    requires st.avatar.scan == AtFallback && st.avatar.relay == [] && st.avatar.relayed == 0 && st.ansi.scan == AnsiMusic
    requires b == CR || b == LF
    ensures var r := Avatar.Step(env, st, b);
      r.status == NoCharYet
      && r.st.d == if b == CR then st.d.Emit(Refresh).Emit(PlayMusic(st.ansi.music)) else st.d
  {
    var one := st.(avatar := st.avatar.(relay := [b]));
    assert Avatar.Step(env, st, b) == Avatar.Relay(env, one);
    LastRelayed(env, one);
    assert Ansi.Step(env, one, b) == Ansi.Music(env, one, b);
    hide Ansi.Step, Avatar.Step, Avatar.Relay;
  }

  // ------------------------------------------------------- whole sequences

  /** A CR or LF inside a sequence, and the byte that makes 127 of a rejected one. */
  predicate Diverges(env: Env, an: State, b: byte) {
    if b == CR || b == LF then an.ansi.scan != AnsiNone
    else an.n == 126 && AvatarStops.Refuses(Plain(env), an, b)
  }

  /** One byte, received in fallback, shows the same on either side exactly when it does not diverge. */
  lemma ByteAgreesExactly(env: Env, av: State, an: State, b: byte)
    requires Paired(env, av, an)
    ensures ConsoleByte(env, av, b).d == ConsoleByte(Plain(env), an, b).d <==> !Diverges(env, an, b)
    ensures !Diverges(env, an, b) ==>
      || Paired(env, ConsoleByte(env, av, b), ConsoleByte(Plain(env), an, b))
      || ConsoleByte(env, av, b).fault || ConsoleByte(env, av, b).avatar.scan == AtNone
  {
    hide ConsoleByte, Inv, Ansi.Step, AvatarStops.Refuses;
    PairedJunk(env, av, an, b);
    var x, y := Junk(av), Junk(an);
    JunkDiverges(env, an, b);
    if b == CR || b == LF {
      if y.ansi.scan == AnsiNone {
        ReturnPair(env, x, y, b);
      } else {
        ReturnDiverges(env, x, y, b);
      }
    } else {
      AnswersAgree(env, x, y, b);
      FullRefusal(env, y, b);
      AnsweredAlike(env, x, y, b);
    }
  }

  lemma JunkDiverges(env: Env, an: State, b: byte)
    ensures Diverges(env, Junk(an), b) <==> Diverges(env, an, b)
  {
    hide AvatarStops.Refuses;
  }

  lemma FullRefusal(env: Env, an: State, b: byte)
    requires Ready(Plain(env), an) && b != CR && b != LF
    ensures Diverges(env, an, b) <==>
      an.n == 126 && Ansi.Step(Plain(env), an.(received := an.received + 1), b).status == ManyChars
  {
    hide Ansi.Step;
    var counted := an.(received := an.received + 1);
    ReadyParts(Plain(env), an);
    if an.n == 126 {
      assert InSequence(an.ansi.scan);
      AvatarStops.RefusesExactly(Plain(env), counted, b);
      AvatarStops.SameRefusal(Plain(env), counted, an, b);
      OneCharMeansEmpty(Plain(env), counted, b);
      AvatarStops.AnsiStatus(Plain(env), counted, b);
      hide AvatarStops.Refuses;
    }
  }

  /** The state in which ANSI would meet the same bytes. */
  function Alone(st: State): State {
    st.(last := NoCharYet)
  }

  lemma AloneHasInv(env: Env, st: State)
    requires AtRest(st)
    ensures Inv(Plain(env), Alone(st)) && AtRest(Alone(st))
  {
  }

  /** Both sides after ESC and the byte after it: they show the same unless that is a CR or LF. */
  lemma SecondByte(env: Env, st: State, b: byte)
    requires FallbackReach.FallbackOnly(env) && AtRest(st) && Inv(env, st) && st.last != ManyChars
    ensures Inv(Plain(env), Alone(st))
    ensures var x, y := Feed(env, st, [ESC, b]), Feed(Plain(env), Alone(st), [ESC, b]);
      && (x.d == y.d <==> b != CR && b != LF)
      && (x.d == y.d ==> Paired(env, x, y) || x.fault || x.avatar.scan == AtNone)
  {
    hide ConsoleByte, Feed, Inv;
    AloneHasInv(env, st);
    var e := ConsoleByte(env, st, ESC);
    var o := ConsoleByte(Plain(env), Alone(st), ESC);
    EscapePair(env, st);
    EscapedHasInv(env, e, o);
    if b == CR || b == LF {
      EscapedReturn(env, e, o, b);
    } else {
      EscapedPair(env, e, o, b);
    }
    FeedIs(env, st, [ESC, b], ESC, [b]);
    FeedIs(env, e, [b], b, []);
    FeedIs(Plain(env), Alone(st), [ESC, b], ESC, [b]);
    FeedIs(Plain(env), o, [b], b, []);
  }

  lemma EscapedHasInv(env: Env, e: State, o: State)
    requires Escaped(env, e, o)
    ensures Inv(env, e) && Inv(Plain(env), o) && !e.fault && !o.fault
  {
  }

  /** avatar() holds the ESC that ansi() has begun with. */
  predicate Escaped(env: Env, e: State, o: State) {
    && Inv(env, e) && Inv(Plain(env), o) && !e.fault && !o.fault && e.last != ManyChars && o.last != ManyChars
    && e.avatar.scan == AtEsc && e.ansi == o.ansi.(scan := AnsiNone, attributes := e.ansi.attributes)
    && o.ansi.scan == AnsiEsc && o.ansi.attributes == o.d.color
    && e.buf == o.buf && e.n == o.n == 1 && e.i == o.i && e.d == o.d && e.buf[0] == ESC && TailIsZero(e)
  }

  lemma EscapePair(env: Env, st: State)
    requires FallbackReach.FallbackOnly(env) && AtRest(st) && Inv(env, st) && st.last != ManyChars
    ensures Inv(Plain(env), Alone(st)) && Escaped(env, ConsoleByte(env, st, ESC), ConsoleByte(Plain(env), Alone(st), ESC))
  {
    var an := Alone(st);
    AloneHasInv(env, st);
    JunkFirst(env, st, ESC);
    JunkFirst(Plain(env), an, ESC);
    AvatarCall(env, st, ESC);
    AnsiCall(Plain(env), an, ESC);
    var counted, alone := st.(received := st.received + 1), an.(received := an.received + 1);
    assert Avatar.Step(env, counted, ESC) == Silent(counted.Store(ESC).AvatarTo(AtEsc));
    NotedAnswer(env, Avatar.Step(env, counted, ESC));
    assert Ansi.Step(Plain(env), alone, ESC) == Ansi.Ground(Plain(env), alone, ESC);
    hide Avatar.Step, Ansi.Step, TerminalEmulator, ConsoleByte, AnsiKept, Drain;
    SilentDrains(env, st, ESC);
    SilentDrains(Plain(env), an, ESC);
  }

  /** The byte after it, and with it the ESC, is handed over. */
  lemma EscapedPair(env: Env, e: State, o: State, b: byte)
    requires FallbackReach.FallbackOnly(env) && Escaped(env, e, o) && b != CR && b != LF
    ensures var x, y := ConsoleByte(env, e, b), ConsoleByte(Plain(env), o, b);
      && x.d == y.d && (Paired(env, x, y) || x.fault || x.avatar.scan == AtNone)
      && (Ansi.Step(Plain(env), o.(received := o.received + 1), b).status == NoCharYet ==> Paired(env, x, y))
  {
    EscapedParts(env, e, o);
    hide ConsoleByte, Inv, Ansi.Step, Agreed, Avatar.Step, TerminalEmulator;
    EscapedAnswer(env, e.(received := e.received + 1), o.(received := o.received + 1), b);
    AnsweredAlike(env, e, o, b);
  }

  /** ANSI obeys a CR or LF there, and AVATAR hands it over for ansi() to reject. */
  lemma EscapedReturn(env: Env, e: State, o: State, b: byte)
    requires FallbackReach.FallbackOnly(env) && Escaped(env, e, o) && (b == CR || b == LF)
    ensures ConsoleByte(env, e, b).d != ConsoleByte(Plain(env), o, b).d
  {
    EscapedParts(env, e, o);
    EscapedHasInv(env, e, o);
    EscapedIsInside(env, e, o);
    hide ConsoleByte, Inv, Ansi.Step, Avatar.Step, TerminalEmulator, Drain, Inside;
    NotReturned(Plain(env), o, b);
    AvatarCall(env, e, b);
    EscapedAnswer(env, e.(received := e.received + 1), o.(received := o.received + 1), b);
    NotedAnswer(env, Avatar.Step(env, e.(received := e.received + 1), b));
    ReturnRefused(env, o, b);
    EscapeOutcome(env, e, b);
    ReadyIsInv(env, e);
  }

  lemma EscapedIsInside(env: Env, e: State, o: State)
    requires FallbackReach.FallbackOnly(env) && Escaped(env, e, o)
    ensures Inside(env, e) && |e.buf| == 128 && e.d == o.d && env.emulation == EmulateAvatar && env.avatarFallback
  {
  }

  lemma EscapedParts(env: Env, e: State, o: State)
    requires FallbackReach.FallbackOnly(env) && Escaped(env, e, o)
    ensures Ready(env, e) && Ready(Plain(env), o) && BufferOk(e) && BufferOk(o) && AnsiOk(o) && AnsiIdleOk(o)
  {
  }

  lemma EscapedAnswer(env: Env, e: State, o: State, b: byte)
    requires FallbackReach.FallbackOnly(env) && BufferOk(e) && BufferOk(o) && AnsiOk(o) && AnsiIdleOk(o)
    requires !e.fault && !o.fault && e.avatar.scan == AtEsc && o.ansi.scan == AnsiEsc && o.ansi.attributes == o.d.color
    requires e.ansi == o.ansi.(scan := AnsiNone, attributes := e.ansi.attributes)
    requires e.buf == o.buf && e.n == o.n == 1 && e.i == o.i == 0 && e.d == o.d && e.buf[0] == ESC
    ensures Agreed(Avatar.Step(env, e, b), Ansi.Step(Plain(env), o, b))
  {
    var kept := e.Store(b);
    assert kept.buf[..2] == [ESC, b];
    var begun := kept.(avatar := kept.avatar.(scan := AtFallback, relay := [ESC, b], relayed := 0), n := 0, i := 0);
    hide Avatar.Relay;
    assert Avatar.Step(env, e, b) == Avatar.Relay(env, begun);
    EscapeRelayed(env, begun, b);
    assert Ansi.Step(env, begun, ESC) == Ansi.Ground(env, begun, ESC);
    var first := Ansi.Step(env, begun, ESC).st;
    var second := first.(avatar := begun.avatar.(scan := AtFallback, relayed := 1));
    assert SameBuffer(second, o) && SameButBuffer(second, o);
    hide Ansi.Step, Avatar.Step, Agreed;
    RelayAgreed(env, second, o, b);
  }

  /** Bytes from an ESC on that leave avatar() in fallback, and none of which diverges. */
  ghost predicate Together(env: Env, st: State, s: seq<byte>)
    requires Inv(env, st) && Inv(Plain(env), Alone(st))
  {
    && 2 <= |s| && s[0] == ESC && s[1] != CR && s[1] != LF
    && (forall k | 2 <= k <= |s| :: InFallback(Feed(env, st, s[..k])))
    && (forall k | 2 <= k < |s| :: !Diverges(env, Feed(Plain(env), Alone(st), s[..k]), s[k]))
  }

  predicate InFallback(st: State) {
    !st.fault && st.avatar.scan == AtFallback
  }

  lemma {:induction false} TogetherIsPaired(env: Env, st: State, s: seq<byte>)
    requires FallbackReach.FallbackOnly(env) && AtRest(st) && Inv(env, st) && Inv(Plain(env), Alone(st)) && st.last != ManyChars
    requires Together(env, st, s)
    ensures Paired(env, Feed(env, st, s), Feed(Plain(env), Alone(st), s))
    decreases |s|
  {
    hide Feed, ConsoleByte, Inv, Diverges;
    var n := |s| - 1;
    var b := s[n];
    assert s[..|s|] == s && InFallback(Feed(env, st, s[..|s|]));
    if n == 1 {
      assert s == [ESC, b];
      SecondByte(env, st, b);
    } else {
      var front := s[..n];
      assert s == front + [b];
      forall k | 2 <= k <= n ensures InFallback(Feed(env, st, front[..k])) {
        assert front[..k] == s[..k];
      }
      forall k | 2 <= k < n ensures !Diverges(env, Feed(Plain(env), Alone(st), front[..k]), front[k]) {
        assert front[..k] == s[..k];
      }
      TogetherIsPaired(env, st, front);
      PairedFeeds(env, st, front, b);
      ByteAgreesExactly(env, Feed(env, st, front), Feed(Plain(env), Alone(st), front), b);
      assert !Diverges(env, Feed(Plain(env), Alone(st), s[..n]), s[n]);
    }
  }

  lemma PairedFeeds(env: Env, st: State, s: seq<byte>, b: byte)
    requires Inv(env, st) && !st.fault && Inv(Plain(env), Alone(st))
    requires Paired(env, Feed(env, st, s), Feed(Plain(env), Alone(st), s))
    ensures PairedStays(env, Feed(env, st, s), Feed(Plain(env), Alone(st), s))
    ensures Feed(env, st, s + [b]) == ConsoleByte(env, Feed(env, st, s), b)
    ensures Feed(Plain(env), Alone(st), s + [b]) == ConsoleByte(Plain(env), Feed(Plain(env), Alone(st), s), b)
  {
    hide Feed, ConsoleByte, Inv;
    FeedConcat(env, st, s, [b]);
    FeedIs(env, Feed(env, st, s), [b], b, []);
    FeedConcat(Plain(env), Alone(st), s, [b]);
    FeedIs(Plain(env), Feed(Plain(env), Alone(st), s), [b], b, []);
  }

  predicate PairedStays(env: Env, av: State, an: State) {
    Inv(env, av) && Inv(Plain(env), an) && !av.fault && !an.fault
  }

  /**
   From an ESC met at rest, for as long as avatar() stays in fallback, the console shows under AVATAR what it shows under
   ANSI, up to and including the byte that ends the fallback, exactly until a byte diverges.
   */
  lemma FeedsAgreeExactly(env: Env, st: State, s: seq<byte>, b: byte)
    requires FallbackReach.FallbackOnly(env) && AtRest(st) && Inv(env, st) && Inv(Plain(env), Alone(st)) && st.last != ManyChars
    requires Together(env, st, s)
    ensures Feed(env, st, s).d == Feed(Plain(env), Alone(st), s).d
    ensures Feed(env, st, s + [b]).d == Feed(Plain(env), Alone(st), s + [b]).d
        <==> !Diverges(env, Feed(Plain(env), Alone(st), s), b)
  {
    hide Feed, ConsoleByte, Inv, Diverges, Together;
    TogetherIsPaired(env, st, s);
    PairedFeeds(env, st, s, b);
    ByteAgreesExactly(env, Feed(env, st, s), Feed(Plain(env), Alone(st), s), b);
  }
}
