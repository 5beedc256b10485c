/**
 From the bytes received to the bytes printed back: which of them a sequence holds in the buffer, and exactly when a
 rejected sequence is reproduced in full.
 */
module Conservation {
  import opened Display
  import opened Machine
  import opened Invariant
  import opened Console
  import opened Rejection
  import Ansi
  import AnsiFallback
  import Avatar
  import Csi

  /** Inside an escape sequence other than music. */
  predicate InSequence(scan: AnsiScan) {
    scan in {AnsiEsc, AnsiStart, AnsiCount, AnsiCountTwo, AnsiCountMany}
  }

  /** Swallowed by ansi() without being stored: a repeated ESC, the private markers and the blank. */
  predicate IsMarker(b: byte) {
    b == ESC || b == '=' as int || b == '?' as int || b == ' ' as int
  }

  /** Under ANSI the dispatcher takes CR and LF away as well, and obeys them. */
  predicate IsObeyed(e: Emulation, b: byte) {
    e == EmulateAnsi && (b == CR || b == LF)
  }

  predicate IsDropped(e: Emulation, b: byte) {
    IsMarker(b) || IsObeyed(e, b)
  }

  /** The bytes that are stored. */
  function Kept(e: Emulation, s: seq<byte>): seq<byte> {
    if s == [] then [] else Kept(e, s[..|s| - 1]) + if IsDropped(e, s[|s| - 1]) then [] else [s[|s| - 1]]
  }

  /** Between two sequences. */
  predicate Between(env: Env, st: State) {
    && Inv(env, st) && !st.fault && st.last != ManyChars
    && match env.emulation
       case EmulateAnsi => st.ansi.scan == AnsiNone
       case EmulateAvatar => st.avatar.scan == AtNone
  }

  /** Inside an escape sequence, be it AVATAR that holds it or ansi(). */
  predicate Inside(env: Env, st: State) {
    && Inv(env, st) && !st.fault && st.last != ManyChars
    && match env.emulation
       case EmulateAnsi => InSequence(st.ansi.scan)
       case EmulateAvatar => st.avatar.scan == AtEsc || (st.avatar.scan == AtFallback && InSequence(st.ansi.scan))
  }

  /** What ansi() does with a byte that leaves it inside a sequence. */
  predicate Swallows(st: State, b: byte, r: Result) {
    InSequence(r.st.ansi.scan) ==>
      && r.status == NoCharYet && r.st.d == st.d && !r.st.fault
      && (if IsMarker(b) then r.st.buf == st.buf && r.st.n == st.n
          else st.n < |st.buf| && r.st.buf == st.buf[st.n := b] && r.st.n == st.n + 1)
  }

  lemma UnknownEnds(st: State, b: byte)
    ensures Ansi.Unknown(st, b).st.ansi.scan == AnsiNone
  {
  }

  lemma DoneEnds(st: State)
    ensures Ansi.Done(st).st.ansi.scan == AnsiNone
  {
  }

  lemma LocateEnds(env: Env, st: State, b: byte)
    ensures Ansi.Locate(env, st, b).st.ansi.scan == AnsiNone
  {
    hide Csi.ParsePosition;
  }

  lemma ColourEnds(env: Env, st: State, b: byte)
    ensures Ansi.Colour(env, st, b).st.ansi.scan == AnsiNone
  {
    hide Csi.AnsiColor;
  }

  lemma NumberEnds(env: Env, st: State, b: byte, ps: int)
    requires -1 <= ps
    ensures (if ps == -1 then Ansi.Unknown(st, b) else Ansi.Done(st.(d := Ansi.CountEffect(env, st.d, st.ansi, b, ps))))
            .st.ansi.scan == AnsiNone
  {
    hide Ansi.CountEffect;
  }

  lemma StartSwallows(env: Env, st: State, b: byte)
    requires BufferOk(st) && !st.fault && st.n < 127 && st.ansi.scan == AnsiStart
    ensures Swallows(st, b, Ansi.Start(env, st, b))
  {
    hide Ansi.StartEffect, Ansi.Unknown, Ansi.Done;
    UnknownEnds(st, b);
    DoneEnds(st.(d := Ansi.StartEffect(env, st.d, st.ansi, b)));
    DoneEnds(st.(ansi := st.ansi.(savedX := env.cursorX(st.d.trace), savedY := env.cursorY(st.d.trace))));
  }

  lemma CountSwallows(env: Env, st: State, b: byte)
    requires BufferOk(st) && !st.fault && st.n < 127 && st.ansi.scan == AnsiCount
    ensures Swallows(st, b, Ansi.Count(env, st, b))
  {
    hide Ansi.Unknown, Ansi.Done, Ansi.Locate, Ansi.Colour, Ansi.CountEffect, Csi.Ps, Csi.ParseOne;
    UnknownEnds(st, b);
    LocateEnds(env, st, b);
    ColourEnds(env, st, b);
    DoneEnds(st);
    DoneEnds(st.Show(ReportCursor(env.cursorY(st.d.trace) + 1, env.cursorX(st.d.trace) + 1)));
    NumberEnds(env, st, b, Csi.Ps(st.buf, st.ansi.count).value);
    NumberEnds(env, st, b, Csi.ParseOne(st.buf, st.ansi.count, if b as char in {'d', 'G', 'I'} then 1 else 0));
  }

  lemma ListSwallows(env: Env, st: State, b: byte)
    requires BufferOk(st) && !st.fault && st.n < 127
    ensures st.ansi.scan == AnsiCountTwo ==> Swallows(st, b, Ansi.CountTwo(env, st, b))
    ensures st.ansi.scan == AnsiCountMany ==> Swallows(st, b, Ansi.CountMany(env, st, b))
  {
    hide Ansi.Unknown, Ansi.Done, Ansi.Locate, Ansi.Colour;
    UnknownEnds(st, b);
    LocateEnds(env, st, b);
    ColourEnds(env, st, b);
    DoneEnds(st);
  }

  /** One byte given to ansi() inside a sequence. */
  lemma AnsiSwallows(env: Env, st: State, b: byte)
    requires BufferOk(st) && !st.fault && st.n < 127 && InSequence(st.ansi.scan)
    ensures Swallows(st, b, Ansi.Step(env, st, b))
  {
    hide Ansi.Start, Ansi.Count, Ansi.CountTwo, Ansi.CountMany;
    StartSwallowsIf(env, st, b);
    UnknownEnds(st, b);
    ListSwallows(env, st, b);
  }

  lemma StartSwallowsIf(env: Env, st: State, b: byte)
    requires BufferOk(st) && !st.fault && st.n < 127
    ensures st.ansi.scan == AnsiStart ==> Swallows(st, b, Ansi.Start(env, st, b))
    ensures st.ansi.scan == AnsiCount ==> Swallows(st, b, Ansi.Count(env, st, b))
  {
    hide Ansi.Start, Ansi.Count;
    if st.ansi.scan == AnsiStart {
      StartSwallows(env, st, b);
    } else if st.ansi.scan == AnsiCount {
      CountSwallows(env, st, b);
    }
  }

  // ------------------------------------------------------- one received byte

  /** A byte that leaves the sequence open: it is stored at the end of what is held, unless it is dropped. */
  predicate Took(env: Env, st: State, b: byte, r: State) {
    var clean := Junk(st);
    && |clean.buf| == |r.buf| == 128 && clean.n < 127
    && (env.emulation == EmulateAvatar ==> r.avatar.scan == AtFallback)
    && r.n == (if IsDropped(env.emulation, b) then clean.n else clean.n + 1)
    && r.buf[..r.n] == clean.buf[..clean.n] + (if IsDropped(env.emulation, b) then [] else [b])
    && r.d == if !IsObeyed(env.emulation, b) then st.d else st.d.Emit(if b == CR then CarriageReturn else LineFeed)
  }

  /** A byte that is rejected: what is held and the byte are shown, unless that makes 127 of them. */
  predicate GivenBack(env: Env, st: State, b: byte, d: Display) {
    var clean := Junk(st);
    && |clean.buf| == 128 && clean.n < 127
    && st.d.trace < d.trace && d.trace[|st.d.trace|].Print?
    && (clean.n == 0 ==> |d.trace| == |st.d.trace| + 1)
    && (0 < clean.n < 126 ==> d == Shown(env, st.d, clean.buf[..clean.n] + [b]))
    && (clean.n == 126 ==> |d.trace| <= |st.d.trace| + 3)
  }

  predicate Outcome(env: Env, st: State, b: byte)
    requires Inv(env, st) && !st.fault
  {
    && (Inside(env, ConsoleByte(env, st, b)) ==> Took(env, st, b, ConsoleByte(env, st, b)))
    && (TerminalEmulator(env, st, b).status != NoCharYet ==>
          !Inside(env, ConsoleByte(env, st, b)) && GivenBack(env, st, b, ConsoleByte(env, st, b).d))
  }

  /** A full buffer is thrown away before anything else happens. */
  lemma JunkFirst(env: Env, st: State, b: byte)
    requires Inv(env, st) && !st.fault && st.last != ManyChars
    ensures var clean := Junk(st);
      Ready(env, clean) && TerminalEmulator(env, st, b) == TerminalEmulator(env, clean, b)
      && ConsoleByte(env, st, b) == ConsoleByte(env, clean, b) && Junk(clean) == clean
      && clean.d == st.d && clean.ansi == st.ansi && clean.avatar == st.avatar
  {
    hide Fresh, Continue, Drain;
    JunkKeeps(env, st);
    assert TerminalEmulator(env, st, b) == TerminalEmulator(env, Junk(st), b);
    hide TerminalEmulator;
  }

  lemma {:induction false} PutAllExtends(d: Display, chs: seq<int>)
    ensures d.trace <= d.PutAll(chs).trace && |d.PutAll(chs).trace| == |d.trace| + |chs|
    decreases chs
  {
    if chs != [] {
      PutAllExtends(d.Put(chs[0]), chs[1..]);
    }
  }

  lemma ShownExtends(env: Env, d: Display, s: seq<byte>)
    requires s != []
    ensures d.trace <= Shown(env, d, s).trace && |Shown(env, d, s).trace| == |d.trace| + |s|
    ensures Shown(env, d, s).trace[|d.trace|] == Event.Print(s[0], d.color, d.insert)
  {
    GlyphsLength(env, s[1..]);
    PutAllExtends(d.Put(s[0]), Glyphs(env, s[1..]));
  }

  /** ansi() answers with one character inside a sequence only when the buffer was just thrown away. */
  lemma OneCharMeansEmpty(env: Env, st: State, b: byte)
    requires BufferOk(st) && AnsiOk(st) && AnsiIdleOk(st) && !st.fault && st.n < 127 && InSequence(st.ansi.scan)
    ensures var r := Ansi.Step(env, st, b);
      && (r.status == OneChar ==> st.n == 0 && r.st.d == st.d && r.st.ansi.scan == AnsiNone)
      && (r.status == ManyChars ==> 0 < st.n && r.st.ansi.scan == AnsiNone)
  {
    hide Csi.Ps, Csi.ParseOne, Ansi.CountEffect, Ansi.StartEffect, Csi.ParsePosition, Csi.AnsiColor;
    AnsiStepKeeps(env, st, b);
    AnsiHandsBack(env, st, b);
  }

  lemma BackIsShown(env: Env, st: State, b: byte, d: Display)
    requires |st.buf| == 128 && 0 < st.n < 127 && PrintedBack(env, st, b, d)
    ensures d == Shown(env, st.d, st.buf[..st.n] + [b])
  {
    var all := st.buf[..st.n] + [b];
    assert all[1..] == st.buf[1..st.n] + [b] && all[0] == st.buf[0];
    hide Glyphs;
  }

  lemma NotReturned(env: Env, st: State, b: byte)
    requires env.emulation == EmulateAnsi && Ready(env, st) && (b == CR || b == LF)
    ensures var e := if b == CR then CarriageReturn else LineFeed;
      && TerminalEmulator(env, st, b).status == NoCharYet
      && ConsoleByte(env, st, b) == st.(received := st.received + 1, d := st.d.Emit(e))
  {
  }

  lemma AnsiRejected(env: Env, st: State, b: byte)
    requires env.emulation == EmulateAnsi && Ready(env, st) && InSequence(st.ansi.scan)
    requires TerminalEmulator(env, st, b).status != NoCharYet
    ensures ConsoleByte(env, st, b).ansi.scan == AnsiNone && GivenBack(env, st, b, ConsoleByte(env, st, b).d)
  {
    hide Ansi.Step, TerminalEmulator, Drain, Inv, Shown, AnsiKept, ConsoleByte;
    if b == CR || b == LF {
      NotReturned(env, st, b);
    }
    var counted := st.(received := st.received + 1);
    ReadyParts(env, st);
    ReadyParts(env, counted);
    AnsiCall(env, st, b);
    TerminalEmulatorKeeps(env, st, b);
    OneCharMeansEmpty(env, counted, b);
    if TerminalEmulator(env, st, b).status == ManyChars {
      if st.n < 126 {
        AnsiRejectionConserves(env, st, b);
        BackIsShown(env, st, b, ConsoleByte(env, st, b).d);
        ShownExtends(env, st.d, st.buf[..st.n] + [b]);
      } else {
        AnsiRejectionLoses(env, st, b);
      }
    } else {
      OneCharDrains(env, st, b);
    }
  }

  lemma OneCharDrains(env: Env, st: State, b: byte)
    requires Inv(env, st) && !st.fault && TerminalEmulator(env, st, b).status == OneChar
    ensures var r := TerminalEmulator(env, st, b);
      ConsoleByte(env, st, b) == if r.st.fault then r.st else r.st.(d := r.st.d.Put(r.ch))
  {
    hide TerminalEmulator, Inv;
    TerminalEmulatorKeeps(env, st, b);
  }

  lemma SilentDrains(env: Env, st: State, b: byte)
    requires Inv(env, st) && !st.fault && TerminalEmulator(env, st, b).status == NoCharYet
    ensures ConsoleByte(env, st, b) == TerminalEmulator(env, st, b).st
  {
    hide TerminalEmulator, Inv;
    TerminalEmulatorKeeps(env, st, b);
  }

  lemma AnsiOutcome(env: Env, st: State, b: byte)
    requires env.emulation == EmulateAnsi && Inside(env, st)
    ensures Outcome(env, st, b)
  {
    hide Ansi.Step, TerminalEmulator, Drain, Inv, AnsiKept, ConsoleByte, Shown;
    JunkFirst(env, st, b);
    var clean := Junk(st);
    if TerminalEmulator(env, clean, b).status != NoCharYet {
      AnsiRejected(env, clean, b);
    } else if b == CR || b == LF {
      NotReturned(env, clean, b);
      ReadyParts(env, clean);
    } else {
      var counted := clean.(received := clean.received + 1);
      ReadyParts(env, clean);
      ReadyParts(env, counted);
      AnsiCall(env, clean, b);
      SilentDrains(env, clean, b);
      AnsiSwallows(env, counted, b);
    }
  }

  // ------------------------------------------------------- the same in fallback

  lemma AvatarCall(env: Env, st: State, b: byte)
    requires env.emulation == EmulateAvatar && Ready(env, st)
    ensures var counted := st.(received := st.received + 1);
      && BufferOk(counted) && AnsiOk(counted) && AvatarOk(counted) && !counted.fault
      && TerminalEmulator(env, st, b) == Answered(env, Avatar.Step(env, counted, b))
  {
    hide Avatar.Step, Answered;
    assert Junk(st) == st;
  }

  /** The last byte handed over: ansi() decides, and avatar() notes where that leaves it. */
  lemma LastRelayed(env: Env, st: State)
    requires st.avatar.relayed + 1 == |st.avatar.relay|
    ensures var a := Ansi.Step(env, st, st.avatar.relay[st.avatar.relayed]);
      var scan := match a.status case NoCharYet => AtFallback case ManyChars => AtDump case _ => AtNone;
      Avatar.Relay(env, st) == a.(st := a.st.(avatar := st.avatar.(scan := scan, relay := [], relayed := 0)))
  {
    hide Ansi.Step;
  }

  /** What avatar() answers when the last byte handed over is `b` and ansi() is inside a sequence. */
  lemma RelayedAnswer(env: Env, st: State, b: byte)
    requires BufferOk(st) && AnsiOk(st) && AnsiIdleOk(st) && !st.fault && st.n < 127 && InSequence(st.ansi.scan)
    requires st.avatar.relayed + 1 == |st.avatar.relay| && st.avatar.relay[st.avatar.relayed] == b
    ensures var r := Avatar.Relay(env, st);
      && !r.st.fault && r.status != RepeatState
      && (r.status == NoCharYet ==> r.st.avatar.scan == AtFallback && Swallows(st, b, r))
      && (r.status == OneChar ==> st.n == 0 && r.st.d == st.d && r.st.avatar.scan == AtNone)
      && (r.status == ManyChars ==>
            && r.st.avatar.scan == AtDump && 0 < st.n && r.st.buf == st.buf[st.n := b] && r.st.n == st.n + 1 && r.st.i == 1
            && r.st.d == st.d && r.ch == st.buf[0])
  {
    hide Ansi.Step;
    LastRelayed(env, st);
    AnsiStepKeeps(env, st, b);
    AnsiSwallows(env, st, b);
    OneCharMeansEmpty(env, st, b);
    AnsiHandsBack(env, st, b);
  }

  /** From such an answer to what the console shows. */
  lemma AnswerShown(env: Env, st: State, b: byte, a: Result)
    requires env.emulation == EmulateAvatar && Ready(env, st) && TerminalEmulator(env, st, b) == Noted(a)
    requires a.status in {OneChar, ManyChars} && !a.st.fault && a.st.d == st.d
    requires a.status == OneChar ==> st.n == 0 && a.st.avatar.scan == AtNone
    requires a.status == ManyChars ==>
      && a.st.avatar.scan == AtDump && 0 < st.n && a.st.n == st.n + 1 && a.st.i == 1 && a.ch == st.buf[0]
      && |a.st.buf| == 128 && a.st.buf[..a.st.n] == st.buf[..st.n] + [b]
    ensures !Inside(env, ConsoleByte(env, st, b)) && GivenBack(env, st, b, ConsoleByte(env, st, b).d)
  {
    hide TerminalEmulator, Drain, Inv, Shown, ConsoleByte, Glyphs;
    ReadyIsInv(env, st);
    TerminalEmulatorKeeps(env, st, b);
    if a.status == OneChar {
      OneCharDrains(env, st, b);
    } else {
      ManyCharsDrains(env, st, b);
      if a.st.n < 127 {
        AvatarPrintout(env, Noted(a).st, a.ch);
        assert a.st.buf[1..a.st.n] == (st.buf[..st.n] + [b])[1..] == st.buf[1..st.n] + [b];
        BackIsShown(env, st, b, ConsoleByte(env, st, b).d);
        ShownExtends(env, st.d, st.buf[..st.n] + [b]);
      } else {
        AvatarLoses(env, Noted(a).st, a.ch);
      }
    }
  }

  lemma ReadyIsInv(env: Env, st: State)
    requires Ready(env, st)
    ensures Inv(env, st) && |st.buf| == 128 && st.n < 127 && Junk(st) == st
  {
  }

  lemma ManyCharsDrains(env: Env, st: State, b: byte)
    requires Inv(env, st) && !st.fault && TerminalEmulator(env, st, b).status == ManyChars
    ensures var r := TerminalEmulator(env, st, b);
      CallKept(env, r) && ConsoleByte(env, st, b) == Drain(env, Result(r.st, ManyChars, r.ch))
  {
    hide TerminalEmulator, Inv;
    TerminalEmulatorKeeps(env, st, b);
  }

  lemma FallbackOutcome(env: Env, st: State, b: byte)
    requires env.emulation == EmulateAvatar && Inside(env, st) && st.avatar.scan == AtFallback
    ensures Outcome(env, st, b)
  {
    hide TerminalEmulator, Drain, Inv, ConsoleByte, Shown, Avatar.Relay, AnsiOk, AvatarOk, BufferOk;
    JunkFirst(env, st, b);
    var clean := Junk(st);
    ReadyIsInv(env, clean);
    AvatarCall(env, clean, b);
    FallbackIdle(env, clean, b);
    var counted := clean.(received := clean.received + 1);
    var one := counted.(avatar := counted.avatar.(relay := [b]));
    RelayedAnswer(env, one, b);
    var a := Avatar.Relay(env, one);
    assert Avatar.Step(env, counted, b) == a;
    hide Avatar.Step;
    if a.status == NoCharYet {
      SilentDrains(env, clean, b);
      assert clean.buf[clean.n := b][..clean.n + 1] == clean.buf[..clean.n] + [b];
    } else {
      assert clean.buf[clean.n := b][..clean.n + 1] == clean.buf[..clean.n] + [b];
      AnswerShown(env, clean, b, a);
    }
  }

  lemma FallbackIdle(env: Env, st: State, b: byte)
    requires env.emulation == EmulateAvatar && Ready(env, st) && st.avatar.scan == AtFallback
    ensures var one := st.(received := st.received + 1, avatar := st.avatar.(relay := [b]));
      BufferOk(one) && AnsiOk(one) && AnsiIdleOk(one) && st.avatar.relay == [] && st.avatar.relayed == 0
  {
  }

  /** The byte after ESC is held by ansi(), or both are about to be shown. */
  predicate EscapeAnswered(st: State, b: byte, r: Result) {
    && !r.st.fault
    && match r.status
       case NoCharYet =>
         r.st.avatar.scan == AtCsi || (r.st.avatar.scan == AtFallback && (InSequence(r.st.ansi.scan) ==>
           && r.st.d == st.d && r.st.n == (if IsMarker(b) then 1 else 2)
           && |r.st.buf| == 128 && r.st.buf[..r.st.n] == [ESC] + if IsMarker(b) then [] else [b]))
       case ManyChars =>
         && r.st.avatar.scan == AtDump && |r.st.buf| == 128 && r.st.n == 2 && r.st.buf[..2] == [ESC, b] && r.st.i == 1
         && r.st.d == st.d && r.ch == ESC
       case _ => false
  }

  /** What avatar() answers to the byte after ESC. */
  lemma EscapeAnswer(env: Env, st: State, b: byte)
    requires env.avatarFallback && st.avatar.scan == AtEsc && BufferOk(st) && AnsiOk(st) && AvatarOk(st) && !st.fault
    requires st.buf[0] == ESC
    ensures EscapeAnswered(st, b, Avatar.Step(env, st, b))
  {
    hide Avatar.Relay, Ansi.Step;
    var kept := st.Store(b);
    if b == '[' as int && env.avatarColor {
      assert Avatar.Step(env, st, b) == Silent(kept.AvatarTo(AtCsi));
    } else {
      assert kept.buf[..2] == [ESC, b];
      var begun := kept.(avatar := kept.avatar.(scan := AtFallback, relay := [ESC, b], relayed := 0), n := 0, i := 0);
      assert Avatar.Step(env, st, b) == Avatar.Relay(env, begun);
      hide Avatar.Step;
      AnsiFallback.EscapeRelayed(env, begun, b);
      EscapeStored(env, begun, b);
      var first := Ansi.Step(env, begun, ESC).st;
      var second := first.(avatar := begun.avatar.(scan := AtFallback, relayed := 1));
      RelayedAnswer(env, second, b);
      assert second.buf[..1] == [ESC] && second.buf[1 := b][..2] == [ESC, b];
    }
  }

  /** ESC and the byte after it, handed over together. */
  lemma EscapeOutcome(env: Env, st: State, b: byte)
    requires env.emulation == EmulateAvatar && env.avatarFallback && Inside(env, st)
    requires st.avatar.scan == AtEsc && |st.buf| == 128 && st.buf[0] == ESC
    ensures Outcome(env, st, b)
  {
    hide TerminalEmulator, Drain, Inv, ConsoleByte, Shown, GivenBack, Took;
    var a := EscapeCall(env, st, b);
    assert st.buf[..1] == [ESC] && [ESC] + [b] == [ESC, b];
    if a.status == NoCharYet {
      SilentDrains(env, st, b);
      if Inside(env, Noted(a).st) {
        EscapeTook(env, st, b, Noted(a).st);
      }
    } else {
      AnswerShown(env, st, b, a);
    }
  }

  lemma EscapeCall(env: Env, st: State, b: byte) returns (a: Result)
    requires env.emulation == EmulateAvatar && env.avatarFallback && Inside(env, st)
    requires st.avatar.scan == AtEsc && |st.buf| == 128 && st.buf[0] == ESC
    ensures Ready(env, st) && Junk(st) == st && st.n == 1
    ensures TerminalEmulator(env, st, b) == Noted(a) && EscapeAnswered(st, b, a)
  {
    EscapeIsHeld(env, st);
    hide TerminalEmulator, Drain, Inv, ConsoleByte, Avatar.Step, AnsiOk, AvatarOk, BufferOk, Answered;
    JunkFirst(env, st, b);
    AvatarCall(env, st, b);
    var counted := st.(received := st.received + 1);
    EscapeAnswer(env, counted, b);
    a := Avatar.Step(env, counted, b);
    NotedAnswer(env, a);
  }

  lemma EscapeTook(env: Env, st: State, b: byte, r: State)
    requires env.emulation == EmulateAvatar && Junk(st) == st && |st.buf| == |r.buf| == 128 && st.n == 1 && st.buf[0] == ESC
    requires r.avatar.scan == AtFallback
    requires r.d == st.d && r.n == (if IsMarker(b) then 1 else 2) && r.buf[..r.n] == [ESC] + if IsMarker(b) then [] else [b]
    ensures Took(env, st, b, r)
  {
    assert st.buf[..1] == [ESC];
  }

  lemma NotedAnswer(env: Env, r: Result)
    requires r.status != RepeatState
    ensures Answered(env, r) == Noted(r)
  {
  }

  lemma EscapeIsHeld(env: Env, st: State)
    requires env.emulation == EmulateAvatar && Inside(env, st) && st.avatar.scan == AtEsc
    ensures st.n == 1 && Junk(st) == st
  {
  }

  lemma EscapeStored(env: Env, st: State, b: byte)
    requires |st.buf| == 128 && st.buf[0] == ESC && st.buf[127] == 0 && st.n == 0 && st.i == 0
    requires st.ansi.scan == AnsiNone && !st.fault
    ensures var r := Ansi.Step(env, st, ESC).st;
      && r.buf == st.buf && r.n == 1 && r.i == 0 && r.d == st.d && r.ansi.scan == AnsiEsc && !r.fault
      && r.received == st.received
      && BufferOk(r) && AnsiOk(r) && AnsiIdleOk(r)
  {
    assert Ansi.Step(env, st, ESC) == Ansi.Ground(env, st, ESC);
    hide Ansi.Step;
  }

  // ------------------------------------------------------- whole sequences

  /** What the dispatcher does itself with the bytes it takes away. */
  function Obeyed(e: Emulation, s: seq<byte>): seq<Event> {
    if s == [] then []
    else
      var b := s[|s| - 1];
      Obeyed(e, s[..|s| - 1]) + if IsObeyed(e, b) then [if b == CR then CarriageReturn else LineFeed] else []
  }

  function EmitAll(d: Display, es: seq<Event>): Display {
    d.(trace := d.trace + es)
  }

  /** The stored bytes of a sequence, beginning with its ESC. */
  function Stored(e: Emulation, s: seq<byte>): (r: seq<byte>)
    requires s != []
    ensures r != []
  {
    [s[0]] + Kept(e, s[1..])
  }

  /** The buffer holds all stored bytes, or it has been thrown away since. */
  predicate Holds(st: State, all: seq<byte>) {
    && |st.buf| == 128
    && ((st.n == |all| <= 127 && st.buf[..st.n] == all) || (127 <= |all| && st.n + 127 <= |all|))
  }

  /** Inside a sequence whose bytes so far are `s`, begun with the display `d`. */
  predicate Holding(env: Env, d: Display, st: State, s: seq<byte>) {
    && s != [] && s[0] == ESC && Inside(env, st)
    && (env.emulation == EmulateAvatar && st.avatar.scan == AtEsc ==> |s| == 1)
    && Holds(st, Stored(env.emulation, s))
    && st.d == EmitAll(d, Obeyed(env.emulation, s[1..]))
  }

  lemma StoredMore(e: Emulation, s: seq<byte>, b: byte)
    requires s != []
    ensures Stored(e, s + [b]) == Stored(e, s) + if IsDropped(e, b) then [] else [b]
    ensures Obeyed(e, (s + [b])[1..])
         == Obeyed(e, s[1..]) + if IsObeyed(e, b) then [if b == CR then CarriageReturn else LineFeed] else []
  {
    var t := s[1..] + [b];
    assert (s + [b])[1..] == t && t[..|t| - 1] == s[1..];
  }

  lemma HoldsMore(st: State, r: State, all: seq<byte>, more: seq<byte>)
    requires Holds(st, all) && |more| <= 1 && |r.buf| == 128 && st.n <= 127
    requires var clean := Junk(st); r.n == clean.n + |more| <= 128 && r.buf[..r.n] == clean.buf[..clean.n] + more
    ensures Holds(r, all + more)
  {
  }

  lemma HoldingMore(env: Env, d: Display, st: State, s: seq<byte>, b: byte)
    requires Holding(env, d, st, s) && Inside(env, ConsoleByte(env, st, b))
    requires env.emulation == EmulateAvatar ==> env.avatarFallback
    ensures Holding(env, d, ConsoleByte(env, st, b), s + [b])
  {
    HeldParts(env, d, st, s);
    InsideOutcome(env, st, b);
    hide ConsoleByte, Inv, Inside, Holds, Stored, Obeyed, Junk, TerminalEmulator, GivenBack;
    StoredMore(env.emulation, s, b);
    var more := if IsDropped(env.emulation, b) then [] else [b];
    HoldsMore(st, ConsoleByte(env, st, b), Stored(env.emulation, s), more);
  }

  /** ESC is in the first cell as long as avatar() holds it. */
  lemma HeldParts(env: Env, d: Display, st: State, s: seq<byte>)
    requires Holding(env, d, st, s)
    ensures |st.buf| == 128 && st.n <= 127
    ensures env.emulation == EmulateAvatar && st.avatar.scan == AtEsc ==> st.buf[0] == ESC
  {
    if env.emulation == EmulateAvatar && st.avatar.scan == AtEsc {
      assert Stored(env.emulation, s) == [ESC];
      assert st.buf[..1][0] == ESC;
    }
  }

  lemma InsideOutcome(env: Env, st: State, b: byte)
    requires Inside(env, st) && |st.buf| == 128
    requires env.emulation == EmulateAvatar ==> env.avatarFallback && (st.avatar.scan == AtEsc ==> st.buf[0] == ESC)
    ensures Outcome(env, st, b)
  {
    hide Outcome, Inv;
    match env.emulation
    case EmulateAnsi => AnsiOutcome(env, st, b);
    case EmulateAvatar =>
      if st.avatar.scan == AtEsc {
        EscapeOutcome(env, st, b);
      } else {
        FallbackOutcome(env, st, b);
      }
  }

  /** A sequence begins with ESC. */
  lemma FirstByte(env: Env, st: State, b: byte)
    requires Between(env, st) && Inside(env, ConsoleByte(env, st, b))
    ensures Holding(env, st.d, ConsoleByte(env, st, b), [b])
  {
    assert [b][1..] == [];
    match env.emulation
    case EmulateAnsi => FirstAnsiByte(env, st, b);
    case EmulateAvatar => FirstAvatarByte(env, st, b);
  }

  lemma FirstAnsiByte(env: Env, st: State, b: byte)
    requires Between(env, st) && env.emulation == EmulateAnsi && Inside(env, ConsoleByte(env, st, b))
    ensures var r := ConsoleByte(env, st, b);
      b == ESC && |r.buf| == 128 && r.n == 1 && r.buf[0] == ESC && r.d == st.d
  {
    BetweenIsReady(env, st);
    if b == CR || b == LF {
      NotReturned(env, st, b);
    } else {
      AnsiCall(env, st, b);
      var counted := st.(received := st.received + 1);
      assert Ansi.Step(env, counted, b) == Ansi.Ground(env, counted, b);
      hide Ansi.Step, TerminalEmulator, Drain, Inv, ConsoleByte, AnsiKept;
      ReadyIsInv(env, st);
      if b == ESC || IsControl(b) {
        SilentDrains(env, st, b);
      } else {
        OneCharDrains(env, st, b);
      }
    }
  }

  lemma FirstAvatarByte(env: Env, st: State, b: byte)
    requires Between(env, st) && env.emulation == EmulateAvatar && Inside(env, ConsoleByte(env, st, b))
    ensures var r := ConsoleByte(env, st, b);
      b == ESC && |r.buf| == 128 && r.n == 1 && r.buf[0] == ESC && r.d == st.d && r.avatar.scan == AtEsc
  {
    BetweenIsReady(env, st);
    AvatarCall(env, st, b);
    var counted := st.(received := st.received + 1);
    assert Avatar.Step(env, counted, b) == Avatar.Ground(env, counted, b);
    NotedAnswer(env, Avatar.Ground(env, counted, b));
    hide Avatar.Step, TerminalEmulator, Drain, Inv, ConsoleByte;
    ReadyIsInv(env, st);
    if Avatar.Ground(env, counted, b).status == OneChar {
      OneCharDrains(env, st, b);
    } else {
      SilentDrains(env, st, b);
    }
  }

  lemma BetweenIsReady(env: Env, st: State)
    requires Between(env, st)
    ensures Ready(env, st) && st.n == 0 && st.i == 0 && st.ansi.scan == AnsiNone
  {
  }

  /** Every byte of `s` leaves the emulator inside the sequence. */
  ghost predicate Swallowed(env: Env, st: State, s: seq<byte>)
    requires Between(env, st)
  {
    s != [] && forall k | 0 < k <= |s| :: Inside(env, Feed(env, st, s[..k]))
  }

  /** What is held after any bytes that a sequence swallows. */
  lemma {:induction false} ReceivedIsHeld(env: Env, st: State, s: seq<byte>)
    requires Between(env, st) && Swallowed(env, st, s)
    requires env.emulation == EmulateAvatar ==> env.avatarFallback
    ensures Holding(env, st.d, Feed(env, st, s), s)
    decreases |s|
  {
    hide Feed, ConsoleByte, Inv, Inside, Holding;
    var n := |s| - 1;
    var b := s[n];
    assert s == s[..n] + [b] && s[..|s|] == s;
    BetweenHasInv(env, st);
    if n == 0 {
      FeedIs(env, st, s, b, []);
      FirstByte(env, st, b);
    } else {
      forall k | 0 < k <= n ensures Inside(env, Feed(env, st, s[..n][..k])) {
        assert s[..n][..k] == s[..k];
      }
      ReceivedIsHeld(env, st, s[..n]);
      LastFed(env, st, s[..n], b);
      HoldingMore(env, st.d, Feed(env, st, s[..n]), s[..n], b);
    }
  }

  lemma BetweenHasInv(env: Env, st: State)
    requires Between(env, st)
    ensures Inv(env, st) && !st.fault
  {
  }

  lemma LastFed(env: Env, st: State, s: seq<byte>, b: byte)
    requires Inv(env, st) && !st.fault && Inside(env, Feed(env, st, s))
    ensures Feed(env, st, s + [b]) == ConsoleByte(env, Feed(env, st, s), b)
  {
    FeedConcat(env, st, s, [b]);
    FeedIs(env, Feed(env, st, s), [b], b, []);
    hide Feed, ConsoleByte;
  }

  // ------------------------------------------------------- what comes back

  /** No byte was swallowed without being stored. */
  predicate NoneDropped(e: Emulation, s: seq<byte>) {
    forall c | c in s :: !IsDropped(e, c)
  }

  lemma {:induction false} KeptExactly(e: Emulation, s: seq<byte>)
    ensures |Kept(e, s)| <= |s| && (|Kept(e, s)| == |s| <==> NoneDropped(e, s))
    ensures NoneDropped(e, s) ==> Kept(e, s) == s && Obeyed(e, s) == []
    decreases |s|
  {
    if s != [] {
      var front, b := s[..|s| - 1], s[|s| - 1];
      assert s == front + [b];
      KeptExactly(e, front);
      assert NoneDropped(e, s) <==> NoneDropped(e, front) && !IsDropped(e, b) by {
        assert b in s && forall c | c in front :: c in s;
      }
    }
  }

  lemma {:induction false} ObeyedAreMoves(e: Emulation, s: seq<byte>)
    ensures forall k | 0 <= k < |Obeyed(e, s)| :: Obeyed(e, s)[k] == CarriageReturn || Obeyed(e, s)[k] == LineFeed
    decreases |s|
  {
    if s != [] {
      ObeyedAreMoves(e, s[..|s| - 1]);
    }
  }

  /**
   A rejected sequence with fewer than 127 stored bytes: what the dispatcher took away was obeyed in passing, and
   the stored bytes are shown in order, the ESC as it is and the others through the code page.
   */
  lemma StoredComesBack(env: Env, st: State, s: seq<byte>, b: byte)
    requires Between(env, st) && Swallowed(env, st, s)
    requires env.emulation == EmulateAvatar ==> env.avatarFallback
    requires TerminalEmulator(env, Feed(env, st, s), b).status != NoCharYet
    requires |Stored(env.emulation, s)| < 126
    ensures Feed(env, st, s + [b]).d
         == Shown(env, EmitAll(st.d, Obeyed(env.emulation, s[1..])), Stored(env.emulation, s) + [b])
  {
    hide Feed, ConsoleByte, Inv, Shown, Stored, Obeyed, TerminalEmulator;
    var at := Feed(env, st, s);
    ReceivedIsHeld(env, st, s);
    HeldParts(env, st.d, at, s);
    InsideOutcome(env, at, b);
    BetweenHasInv(env, st);
    LastFed(env, st, s, b);
  }

  lemma NotReproduced(env: Env, st: State, at: State, s: seq<byte>, b: byte, d: Display)
    requires Holding(env, st.d, at, s) && GivenBack(env, at, b, d)
    requires !(|s| < 126 && NoneDropped(env.emulation, s[1..]))
    ensures d != Shown(env, st.d, s + [b])
  {
    hide Inside, Shown;
    var e := env.emulation;
    ShownExtends(env, st.d, s + [b]);
    KeptExactly(e, s[1..]);
    var obeyed := Obeyed(e, s[1..]);
    if obeyed != [] {
      ObeyedAreMoves(e, s[1..]);
      assert at.d.trace[|st.d.trace|] == obeyed[0];
      assert d.trace[|st.d.trace|] == obeyed[0];
    } else {
      assert st.d.trace + [] == st.d.trace;
      NotAllBack(env, at, s, b, d);
    }
  }

  lemma NotAllBack(env: Env, at: State, s: seq<byte>, b: byte, d: Display)
    requires s != [] && Holds(at, Stored(env.emulation, s)) && GivenBack(env, at, b, d)
    requires !(|s| < 126 && NoneDropped(env.emulation, s[1..]))
    ensures |d.trace| < |at.d.trace| + |s| + 1
  {
    hide Shown;
    KeptExactly(env.emulation, s[1..]);
    var clean := Junk(at);
    if 0 < clean.n < 126 {
      ShownExtends(env, at.d, clean.buf[..clean.n] + [b]);
    }
  }

  /** The state before the rejected byte, and what that byte makes of it. */
  lemma LastRejected(env: Env, st: State, s: seq<byte>, b: byte)
    requires Between(env, st) && Swallowed(env, st, s)
    requires env.emulation == EmulateAvatar ==> env.avatarFallback
    requires TerminalEmulator(env, Feed(env, st, s), b).status != NoCharYet
    ensures s != [] && Holding(env, st.d, Feed(env, st, s), s)
    ensures GivenBack(env, Feed(env, st, s), b, Feed(env, st, s + [b]).d)
  {
    hide Feed, ConsoleByte, Inv, Shown, Obeyed, TerminalEmulator, GivenBack, Holds;
    var at := Feed(env, st, s);
    ReceivedIsHeld(env, st, s);
    HeldParts(env, st.d, at, s);
    InsideOutcome(env, at, b);
    BetweenHasInv(env, st);
    LastFed(env, st, s, b);
  }

  lemma AllComesBack(env: Env, st: State, s: seq<byte>, b: byte)
    requires Between(env, st) && Swallowed(env, st, s) && s != []
    requires env.emulation == EmulateAvatar ==> env.avatarFallback
    requires TerminalEmulator(env, Feed(env, st, s), b).status != NoCharYet
    requires |s| < 126 && NoneDropped(env.emulation, s[1..])
    ensures Feed(env, st, s + [b]).d == Shown(env, st.d, s + [b])
  {
    KeptExactly(env.emulation, s[1..]);
    hide Feed, ConsoleByte, Inv, Shown, Obeyed, TerminalEmulator, Kept, Between, Swallowed;
    assert Stored(env.emulation, s) == s;
    StoredComesBack(env, st, s, b);
    assert EmitAll(st.d, []) == st.d;
  }

  /**
   A rejected sequence is reproduced exactly when it has fewer than 127 bytes and none of them was swallowed without
   being stored.  The condition speaks of the bytes received only.
   */
  lemma ReproducedExactly(env: Env, st: State, s: seq<byte>, b: byte)
    requires Between(env, st) && Swallowed(env, st, s)
    requires env.emulation == EmulateAvatar ==> env.avatarFallback
    requires TerminalEmulator(env, Feed(env, st, s), b).status != NoCharYet
    ensures Feed(env, st, s + [b]).d == Shown(env, st.d, s + [b])
        <==> |s| + 1 < 127 && NoneDropped(env.emulation, s[1..])
  {
    hide Feed, ConsoleByte, Inv, Shown, Obeyed, TerminalEmulator, GivenBack, Holding, Between, Swallowed, NoneDropped;
    BetweenHasInv(env, st);
    LastRejected(env, st, s, b);
    if |s| < 126 && NoneDropped(env.emulation, s[1..]) {
      AllComesBack(env, st, s, b);
    } else {
      NotReproduced(env, st, Feed(env, st, s), s, b, Feed(env, st, s + [b]).d);
    }
  }
}
