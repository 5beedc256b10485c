/**
 What holds of the shared variables between bytes, and the proof that each emulator keeps it.
 */
module Invariant {
  import opened Display
  import opened Machine
  import Ansi
  import Avatar
  import Csi

  /** The buffer: its last cell is always free, and zero. */
  predicate BufferOk(st: State) {
    |st.buf| == 128 && st.i <= st.n <= 127 && st.buf[127] == 0
  }

  /** Where ansi() is in a sequence decides how full the buffer is. */
  predicate AnsiOk(st: State) {
    match st.ansi.scan
    case AnsiNone => true
    case AnsiEsc => st.n == 1 && st.i == 0
    case AnsiStart => st.n == 2 && st.i == 0
    case AnsiMusic => st.n == 2 && st.i == 0 && 0 < |st.ansi.music| < Ansi.MUSIC_SIZE
    case _ => st.ansi.count == 2 && st.i == 0
  }

  /** Outside a printout, an idle ansi() means an empty buffer. */
  predicate AnsiIdleOk(st: State) {
    st.i == 0 && (st.ansi.scan == AnsiNone ==> st.n == 0)
  }

  /** Every cell past the bytes held is zero, except a first cell that was just printed alone. */
  predicate TailIsZero(st: State)
    requires |st.buf| == 128
  {
    forall k | st.n <= k < 128 && 0 < k :: st.buf[k] == 0
  }

  /** A printout in progress has printed something and has something left. */
  predicate Dumping(st: State) {
    0 < st.i < st.n
  }

  predicate AvatarOk(st: State) {
    && (st.avatar.scan != AtFallback ==> st.ansi.scan == AnsiNone)
    && match st.avatar.scan
       case AtDump => Dumping(st) || (st.n == 0 && st.i == 0)
       case AtFallback => AnsiIdleOk(st) && st.avatar.relay == [] && st.avatar.relayed == 0
       case AtCsiParam => st.i == 0 && st.avatar.count == 2
       case AtVY2 => st.i == 0 && |st.avatar.pattern| <= st.avatar.patternSize + 1
       case AtVY3 => st.i == 0 && 0 < |st.avatar.pattern| == st.avatar.patternSize
       case scan => st.i == 0 && st.n == Held(scan)
  }

  /** How many bytes of an unfinished AVATAR sequence are in the buffer. */
  function Held(scan: AvatarScan): nat {
    match scan
    case AtV => 1 case AtEsc => 1 case AtY1 => 1
    case AtA1 => 2 case AtH1 => 2 case AtY2 => 2 case AtYEmit => 2 case AtVY1 => 2 case AtVM1 => 2 case AtCsi => 2
    case AtH2 => 3 case AtVM2 => 3 case AtJK1 => 3
    case AtVM3 => 4 case AtJK2 => 4
    case AtVM4 => 5 case AtJK3 => 5
    case AtJK4 => 6 case AtJK5 => 7
    case _ => 0
  }

  // ------------------------------------------------------------------ ansi()

  /** Whatever the emulation, ansi() keeps its own part of the invariant, and a printout it starts is well formed. */
  predicate AnsiResultOk(r: Result) {
    && BufferOk(r.st) && AnsiOk(r.st)
    && match r.status
       case NoCharYet => AnsiIdleOk(r.st)
       case OneChar => r.st.ansi.scan == AnsiNone && AnsiIdleOk(r.st)
       case ManyChars => r.st.ansi.scan == AnsiNone && Dumping(r.st)
       case RepeatState => false
  }

  /** One call of ansi(): the invariant survives it, and so does the zero tail; only a full buffer can stop it. */
  predicate AnsiKept(st: State, r: Result) {
    && (r.st.fault ==> st.n == 127)
    && r.st.n <= st.n + 1
    && (!r.st.fault ==> AnsiResultOk(r))
    && (!r.st.fault && |st.buf| == 128 && TailIsZero(st) ==> TailIsZero(r.st))
  }

  lemma UnknownKeeps(st: State, b: byte)
    requires BufferOk(st) && st.i == 0 && !st.fault
    ensures AnsiKept(st, Ansi.Unknown(st, b))
  {
  }

  lemma DoneKeeps(was: State, st: State)
    requires !st.fault
    ensures AnsiKept(was, Ansi.Done(st))
  {
  }

  lemma LocateKeeps(env: Env, st: State, b: byte)
    requires BufferOk(st) && st.i == 0 && !st.fault
    ensures AnsiKept(st, Ansi.Locate(env, st, b))
  {
    hide Csi.ParsePosition;
    UnknownKeeps(st, b);
    match Csi.ParsePosition(st.buf, st.ansi.count)
    case BadPosition =>
    case Position(row, column) => DoneKeeps(st, st.Show(CursorPosition(row, column)));
  }

  lemma ColourKeeps(env: Env, st: State, b: byte)
    requires BufferOk(st) && st.i == 0 && !st.fault
    ensures AnsiKept(st, Ansi.Colour(env, st, b))
  {
    hide Csi.AnsiColor;
    var sgr := Csi.AnsiColor(env, st.buf, st.ansi.count, st.ansi.attributes, st.d.color);
    var after := st.(ansi := st.ansi.(attributes := sgr.pen));
    if sgr.ok {
      DoneKeeps(st, after.(d := after.d.(color := sgr.pen)));
    } else {
      UnknownKeeps(after, b);
      assert TailIsZero(st) <==> TailIsZero(after);
    }
  }

  lemma StoreKeeps(st: State, b: byte, scan: AnsiScan)
    requires BufferOk(st) && AnsiOk(st) && st.i == 0 && !st.fault
    requires st.ansi.count == 2 && scan in {AnsiCount, AnsiCountTwo, AnsiCountMany}
    ensures AnsiKept(st, Silent(st.Store(b).AnsiTo(scan)))
  {
  }

  lemma AnsiCountKeeps(env: Env, st: State, b: byte)
    requires BufferOk(st) && AnsiOk(st) && st.i == 0 && !st.fault
    requires st.ansi.scan == AnsiCount
    ensures AnsiKept(st, Ansi.Count(env, st, b))
  {
    hide Ansi.Locate, Ansi.Colour, Csi.Ps, Csi.ParseOne, Ansi.CountEffect;
    if IsDigit(b) {
      StoreKeeps(st, b, AnsiCount);
    } else if b == ';' as int {
      StoreKeeps(st, b, AnsiCountTwo);
    } else if b == 'H' as int || b == 'f' as int {
      LocateKeeps(env, st, b);
    } else if b == 'm' as int {
      ColourKeeps(env, st, b);
    } else {
      UnknownKeeps(st, b);
    }
  }

  lemma AnsiListKeeps(env: Env, st: State, b: byte)
    requires BufferOk(st) && AnsiOk(st) && st.i == 0 && !st.fault
    ensures st.ansi.scan == AnsiCountTwo ==> AnsiKept(st, Ansi.CountTwo(env, st, b))
    ensures st.ansi.scan == AnsiCountMany ==> AnsiKept(st, Ansi.CountMany(env, st, b))
  {
    hide Ansi.Locate, Ansi.Colour, Csi.AnsiColor;
    if st.ansi.scan in {AnsiCountTwo, AnsiCountMany} {
      if IsDigit(b) || b == ';' as int {
        StoreKeeps(st, b, st.ansi.scan);
        StoreKeeps(st, b, AnsiCountMany);
      } else if b == 'H' as int || b == 'f' as int || b == 'm' as int {
        LocateKeeps(env, st, b);
        ColourKeeps(env, st, b);
        UnknownKeeps(st, b);
      } else {
        UnknownKeeps(st, b);
        DoneKeeps(st, st);
      }
    }
  }

  lemma ParametersBegin(st: State, b: byte, scan: AnsiScan)
    requires BufferOk(st) && AnsiOk(st) && st.ansi.scan == AnsiStart && !st.fault
    requires scan in {AnsiCount, AnsiCountTwo}
    ensures var kept := st.Store(b).AnsiTo(scan);
      AnsiKept(st, Silent(kept.(ansi := kept.ansi.(count := st.n))))
  {
    StoreKeeps(st.(ansi := st.ansi.(scan := AnsiNone, count := st.n)), b, scan);
  }

  lemma AnsiStartKeeps(env: Env, st: State, b: byte)
    requires BufferOk(st) && AnsiOk(st) && st.ansi.scan == AnsiStart && !st.fault
    ensures AnsiKept(st, Ansi.Start(env, st, b))
  {
    hide Ansi.Unknown, Ansi.StartEffect;
    if IsDigit(b) {
      ParametersBegin(st, b, AnsiCount);
    } else if b == ';' as int {
      ParametersBegin(st, b, AnsiCountTwo);
    } else if Ansi.IsStartFinal(b) && !(b == 'M' as int && env.ansiMusic) {
      DoneKeeps(st, st.(d := Ansi.StartEffect(env, st.d, st.ansi, b)));
    } else {
      UnknownKeeps(st, b);
    }
  }

  lemma AnsiStepKeeps(env: Env, st: State, b: byte)
    requires BufferOk(st) && AnsiOk(st) && AnsiIdleOk(st) && !st.fault
    ensures AnsiKept(st, Ansi.Step(env, st, b))
  {
    match st.ansi.scan
    case AnsiNone =>
    case AnsiEsc => UnknownKeeps(st, b);
    case AnsiStart => AnsiStartKeeps(env, st, b);
    case AnsiCount => AnsiCountKeeps(env, st, b);
    case AnsiCountTwo => AnsiListKeeps(env, st, b);
    case AnsiCountMany => AnsiListKeeps(env, st, b);
    case AnsiMusic =>
  }

  // ---------------------------------------------------------------- avatar()

  /** One call of avatar(). */
  predicate AvatarKept(r: Result) {
    r.st.fault ||
    (&& BufferOk(r.st) && AnsiOk(r.st) && AvatarOk(r.st)
     && (r.status == ManyChars ==> r.st.avatar.scan == AtYEmit || (r.st.avatar.scan == AtDump && 0 < r.st.n)))
  }

  lemma {:induction false} RunKeeps(env: Env, st: State)
    requires BufferOk(st) && AnsiOk(st) && AvatarOk(st) && st.avatar.scan == AtYEmit && !st.fault
    ensures AvatarKept(Avatar.EmitRun(env, st)) && !Avatar.EmitRun(env, st).st.fault
    decreases st.avatar.yCount
  {
    if st.avatar.yCount != 0 && IsControl(st.avatar.yChar) {
      var less := st.(avatar := st.avatar.(yCount := st.avatar.yCount - 1));
      RunKeeps(env, less.(d := Control(env, st.d, st.avatar.yChar)));
    }
  }

  lemma {:induction false} RelayKeeps(env: Env, st: State)
    requires BufferOk(st) && AnsiOk(st) && AnsiIdleOk(st) && !st.fault
    requires st.avatar.relayed < |st.avatar.relay|
    ensures AvatarKept(Avatar.Relay(env, st))
    decreases |st.avatar.relay| - st.avatar.relayed
  {
    hide Ansi.Step;
    AnsiStepKeeps(env, st, st.avatar.relay[st.avatar.relayed]);
    var r := Ansi.Step(env, st, st.avatar.relay[st.avatar.relayed]);
    if r.status == NoCharYet && st.avatar.relayed + 1 < |st.avatar.relay| && !r.st.fault {
      RelayKeeps(env, r.st.(avatar := st.avatar.(scan := AtFallback, relayed := st.avatar.relayed + 1)));
    }
  }

  lemma RejectedKeeps(env: Env, st: State)
    requires BufferOk(st) && st.ansi.scan == AnsiNone && st.i == 0 && 0 < st.n && !st.fault
    ensures AvatarKept(Avatar.Rejected(env, st))
  {
    hide Avatar.Relay;
    if env.avatarFallback {
      RelayKeeps(env, st.(avatar := st.avatar.(scan := AtFallback, relay := st.buf[..st.n], relayed := 0), n := 0, i := 0));
    }
  }

  lemma ClearKeeps(st: State)
    requires st.ansi.scan == AnsiNone
    ensures AvatarKept(Silent(st.AvatarClear()))
  {
  }

  lemma OperandKeeps(st: State, b: byte, v: AvatarVars)
    requires BufferOk(st) && st.ansi.scan == AnsiNone && st.i == 0 && st.n + 1 == Held(v.scan) && !st.fault
    requires v.scan !in {AtDump, AtFallback, AtCsiParam, AtVY2, AtVY3}
    ensures AvatarKept(Silent(st.Store(b).(avatar := v)))
  {
  }

  lemma CommandKeeps(env: Env, st: State, b: byte)
    requires BufferOk(st) && AnsiOk(st) && AvatarOk(st) && st.avatar.scan == AtV && !st.fault
    ensures AvatarKept(Avatar.Command(env, st, b))
  {
    hide Avatar.Rejected;
    match b
    case 0x01 => OperandKeeps(st, b, st.avatar.(scan := AtA1));
    case 0x02 => ClearKeeps(st.(d := st.d.(color := st.d.color.(blink := true))));
    case 0x03 => ClearKeeps(st.Show(CursorUp(1)));
    case 0x04 => ClearKeeps(st.Show(CursorDown(1)));
    case 0x05 => ClearKeeps(st.Show(CursorLeft(1)));
    case 0x06 => ClearKeeps(st.Show(CursorRight(1)));
    case 0x07 => ClearKeeps(st.Show(EraseLine(env.cursorX(st.d.trace), env.columns - 1)));
    case 0x08 => OperandKeeps(st, b, st.avatar.(scan := AtH1));
    case 0x09 => ClearKeeps(st);
    case 0x0A => OperandKeeps(st.Store(b), 0x20, st.avatar.(scrollUp := true, scan := AtJK1));
    case 0x0B => OperandKeeps(st.Store(b), 0x20, st.avatar.(scrollUp := false, scan := AtJK1));
    case 0x0C => OperandKeeps(st.Store(b), 0x20, st.avatar.(scan := AtVM2));
    case 0x0D => OperandKeeps(st, b, st.avatar.(scan := AtVM1));
    case 0x0E => ClearKeeps(st.Show(DeleteCharacter(1)));
    case 0x10 => ClearKeeps(st);
    case 0x19 => OperandKeeps(st, b, st.avatar.(scan := AtVY1));
    case _ => RejectedKeeps(env, st);
  }

  lemma EscapeKeeps(env: Env, st: State, b: byte)
    requires BufferOk(st) && AnsiOk(st) && AvatarOk(st) && st.avatar.scan in {AtEsc, AtCsi} && !st.fault
    ensures st.avatar.scan == AtEsc ==> AvatarKept(Avatar.Escape(env, st, b))
    ensures st.avatar.scan == AtCsi ==> AvatarKept(Avatar.Bracket(env, st, b))
  {
    hide Avatar.Rejected;
    RejectedKeeps(env, st.Store(b));
  }

  lemma ParameterKeeps(env: Env, st: State, b: byte)
    requires BufferOk(st) && AnsiOk(st) && AvatarOk(st) && st.avatar.scan == AtCsiParam && !st.fault
    ensures AvatarKept(Avatar.Parameter(env, st, b))
  {
    hide Csi.AnsiColor, Avatar.Relay;
    var kept := st.Store(b);
    if kept.fault {
    } else if b == 'm' as int {
      var sgr := Csi.AnsiColor(env, kept.buf, kept.avatar.count, kept.avatar.attributes, kept.d.color);
      var after := kept.(avatar := kept.avatar.(attributes := sgr.pen));
      if sgr.ok {
        ClearKeeps(after.(d := after.d.(color := sgr.pen)));
      } else {
        RejectedKeeps(env, after);
      }
    } else if !IsDigit(b) && b != ';' as int {
      RejectedKeeps(env, kept);
    }
  }

  lemma OperandStatesKeep(env: Env, st: State, b: byte)
    requires BufferOk(st) && AnsiOk(st) && AvatarOk(st) && !st.fault
    requires st.avatar.scan in {AtH1, AtY1, AtVM1, AtVM2, AtVM3, AtJK1, AtJK2, AtJK3, AtJK4}
    ensures AvatarKept(Avatar.Step(env, st, b))
  {
    var v := st.avatar;
    match v.scan
    case AtH1 => OperandKeeps(st, b, v.(scan := AtH2));
    case AtY1 => OperandKeeps(st, b, v.(scan := AtY2, yChar := b));
    case AtVM1 => OperandKeeps(st, b, v.(scan := AtVM2));
    case AtVM2 => OperandKeeps(st, b, v.(scan := AtVM3));
    case AtVM3 => OperandKeeps(st, b, v.(scan := AtVM4));
    case AtJK1 => OperandKeeps(st, b, v.(lines := b, scan := AtJK2));
    case AtJK2 => OperandKeeps(st, b, v.(upper := b, scan := AtJK3));
    case AtJK3 => OperandKeeps(st, b, v.(left := b, scan := AtJK4));
    case AtJK4 => OperandKeeps(st, b, v.(lower := b, scan := AtJK5));
  }

  lemma LastOperandKeeps(env: Env, st: State, b: byte)
    requires BufferOk(st) && AnsiOk(st) && AvatarOk(st) && !st.fault
    requires st.avatar.scan in {AtA1, AtH2, AtJK5, AtVM4}
    ensures AvatarKept(Avatar.Step(env, st, b))
  {
  }

  lemma GroundKeeps(env: Env, st: State, b: byte)
    requires BufferOk(st) && AnsiOk(st) && AvatarOk(st) && st.avatar.scan == AtNone && !st.fault
    ensures AvatarKept(Avatar.Step(env, st, b))
  {
  }

  lemma PatternKeeps(env: Env, st: State, b: byte)
    requires BufferOk(st) && AnsiOk(st) && AvatarOk(st) && st.avatar.scan in {AtVY1, AtVY2, AtVY3} && !st.fault
    ensures AvatarKept(Avatar.Step(env, st, b))
  {
  }

  lemma DumpKeeps(env: Env, st: State)
    requires BufferOk(st) && AnsiOk(st) && AvatarOk(st) && st.avatar.scan == AtDump && !st.fault
    ensures AvatarKept(Avatar.Dump(env, st))
  {
  }

  lemma AvatarStepKeeps(env: Env, st: State, b: byte)
    requires BufferOk(st) && AnsiOk(st) && AvatarOk(st) && !st.fault
    ensures AvatarKept(Avatar.Step(env, st, b))
  {
    hide Avatar.EmitRun, Avatar.Rejected, Avatar.Relay, Ansi.Step;
    match st.avatar.scan
    case AtFallback => RelayKeeps(env, st.(avatar := st.avatar.(relay := [b])));
    case AtNone => GroundKeeps(env, st, b);
    case AtY2 => RunKeeps(env, st.(avatar := st.avatar.(yCount := b, scan := AtYEmit)));
    case AtYEmit => RunKeeps(env, st);
    case AtVY1 => PatternKeeps(env, st, b);
    case AtVY2 => PatternKeeps(env, st, b);
    case AtVY3 => PatternKeeps(env, st, b);
    case AtV => CommandKeeps(env, st, b);
    case AtEsc => EscapeKeeps(env, st, b);
    case AtCsi => EscapeKeeps(env, st, b);
    case AtCsiParam => ParameterKeeps(env, st, b);
    case AtDump => DumpKeeps(env, st);
    case AtA1 => LastOperandKeeps(env, st, b);
    case AtH2 => LastOperandKeeps(env, st, b);
    case AtJK5 => LastOperandKeeps(env, st, b);
    case AtVM4 => LastOperandKeeps(env, st, b);
    case _ => OperandStatesKeep(env, st, b);
  }

  // --------------------------------------------------------- when avatar() stops

  /** The two places where avatar() cannot go on: a printout with nothing to print, and a pattern longer than
      its own length (which only a length of 0 allows). */
  predicate Stuck(st: State) {
    (st.avatar.scan == AtDump && st.n == 0) || (st.avatar.scan == AtVY2 && |st.avatar.pattern| > st.avatar.patternSize)
  }

  lemma {:induction false} RelayGoesOn(env: Env, st: State)
    requires BufferOk(st) && AnsiOk(st) && AnsiIdleOk(st) && !st.fault
    requires st.avatar.relayed < |st.avatar.relay| && st.n + |st.avatar.relay| - st.avatar.relayed <= 127
    ensures !Avatar.Relay(env, st).st.fault
    decreases |st.avatar.relay| - st.avatar.relayed
  {
    hide Ansi.Step;
    AnsiStepKeeps(env, st, st.avatar.relay[st.avatar.relayed]);
    var r := Ansi.Step(env, st, st.avatar.relay[st.avatar.relayed]);
    if r.status == NoCharYet && st.avatar.relayed + 1 < |st.avatar.relay| {
      RelayGoesOn(env, r.st.(avatar := st.avatar.(scan := AtFallback, relayed := st.avatar.relayed + 1)));
    }
  }

  lemma RejectedGoesOn(env: Env, st: State)
    requires BufferOk(st) && st.ansi.scan == AnsiNone && st.i == 0 && 0 < st.n && !st.fault
    ensures !Avatar.Rejected(env, st).st.fault
  {
    hide Avatar.Relay;
    if env.avatarFallback {
      RelayGoesOn(env, st.(avatar := st.avatar.(scan := AtFallback, relay := st.buf[..st.n], relayed := 0), n := 0, i := 0));
    }
  }

  lemma EscapeGoesOn(env: Env, st: State, b: byte)
    requires BufferOk(st) && AnsiOk(st) && AvatarOk(st) && !st.fault && st.n < 127
    requires st.avatar.scan in {AtEsc, AtCsi, AtCsiParam, AtV}
    ensures !Avatar.Step(env, st, b).st.fault
  {
    hide Avatar.Rejected, Csi.AnsiColor;
    if st.avatar.scan == AtV {
      RejectedGoesOn(env, st);
    } else {
      var kept := st.Store(b);
      RejectedGoesOn(env, kept);
      if st.avatar.scan == AtCsiParam {
        var sgr := Csi.AnsiColor(env, kept.buf, kept.avatar.count, kept.avatar.attributes, kept.d.color);
        RejectedGoesOn(env, kept.(avatar := kept.avatar.(attributes := sgr.pen)));
      }
    }
  }

  /** Between bytes, with room in the buffer, avatar() stops exactly there. */
  lemma StopsExactlyWhenStuck(env: Env, st: State, b: byte)
    requires BufferOk(st) && AnsiOk(st) && AvatarOk(st) && !st.fault && st.n < 127
    ensures Avatar.Step(env, st, b).st.fault <==> Stuck(st)
  {
    hide Avatar.EmitRun, Avatar.Relay, Avatar.Rejected;
    match st.avatar.scan
    case AtFallback => RelayGoesOn(env, st.(avatar := st.avatar.(relay := [b])));
    case AtY2 => RunKeeps(env, st.(avatar := st.avatar.(yCount := b, scan := AtYEmit)));
    case AtYEmit => RunKeeps(env, st);
    case AtV => EscapeGoesOn(env, st, b);
    case AtEsc => EscapeGoesOn(env, st, b);
    case AtCsi => EscapeGoesOn(env, st, b);
    case AtCsiParam => EscapeGoesOn(env, st, b);
    case _ =>
  }
}
