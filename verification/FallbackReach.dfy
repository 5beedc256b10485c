/**
 Where ANSI fallback starts: with AVATAR's colour option off, every state that a byte stream reaches between two
 sequences is one from which the fallback refines ansi().  And no byte stream makes plain ANSI stop.
 */
module FallbackReach {
  import opened Display
  import opened Machine
  import opened Invariant
  import opened AnsiFallback
  import Ansi
  import Avatar
  import Console

  predicate FallbackOnly(env: Env) {
    env.emulation == EmulateAvatar && env.avatarFallback && !env.avatarColor
  }

  /** Zeros past the bytes held, but for the byte that was handed over after an ESC and is still to be stored. */
  predicate NearlyZero(st: State)
    requires |st.buf| == 128
  {
    forall k | st.n <= k < 128 && 0 < k && !(k == 1 && st.ansi.scan == AnsiEsc) :: st.buf[k] == 0
  }

  /** What a run keeps of the buffer. */
  predicate Tidy(st: State)
    requires |st.buf| == 128
  {
    && NearlyZero(st)
    && (st.avatar.scan == AtEsc ==> st.buf[0] == ESC)
    && st.avatar.scan !in {AtCsi, AtCsiParam}
  }

  predicate TidyAfter(st: State) {
    st.fault || (|st.buf| == 128 && Tidy(st))
  }

  lemma AnsiStepTidy(env: Env, st: State, b: byte)
    requires BufferOk(st) && AnsiOk(st) && AnsiIdleOk(st) && !st.fault && NearlyZero(st)
    ensures var r := Ansi.Step(env, st, b).st; r.fault || (|r.buf| == 128 && NearlyZero(r))
  {
    AnsiStepKeeps(env, st, b);
    if st.ansi.scan == AnsiEsc {
      assert Ansi.Step(env, st, b) == Ansi.Escape(env, st, b);
    } else {
      hide Ansi.Step;
      assert TailIsZero(st);
    }
  }

  lemma RelayOneTidy(env: Env, st: State)
    requires BufferOk(st) && AnsiOk(st) && AnsiIdleOk(st) && !st.fault && NearlyZero(st)
    requires st.avatar.scan == AtFallback && st.avatar.relayed + 1 == |st.avatar.relay|
    ensures TidyAfter(Avatar.Relay(env, st).st)
  {
    hide Ansi.Step;
    AnsiStepTidy(env, st, st.avatar.relay[st.avatar.relayed]);
    AnsiStepKeeps(env, st, st.avatar.relay[st.avatar.relayed]);
  }

  /** ^V and an unknown byte: only the ^V is handed over. */
  lemma CommandTidy(env: Env, st: State, b: byte)
    requires FallbackOnly(env) && BufferOk(st) && AnsiOk(st) && AvatarOk(st) && !st.fault && Tidy(st)
    requires st.avatar.scan == AtV
    ensures TidyAfter(Avatar.Command(env, st, b).st)
  {
    hide Avatar.Relay;
    var begun := st.(avatar := st.avatar.(scan := AtFallback, relay := st.buf[..1], relayed := 0), n := 0, i := 0);
    RelayOneTidy(env, begun);
  }

  /** ESC and the byte after it are handed over together. */
  lemma EscapeTidy(env: Env, st: State, b: byte)
    requires FallbackOnly(env) && BufferOk(st) && AnsiOk(st) && AvatarOk(st) && !st.fault && Tidy(st)
    requires st.avatar.scan == AtEsc
    ensures TidyAfter(Avatar.Escape(env, st, b).st)
  {
    var kept := st.Store(b);
    assert kept.buf[..2] == [ESC, b];
    var begun := kept.(avatar := kept.avatar.(scan := AtFallback, relay := [ESC, b], relayed := 0), n := 0, i := 0);
    assert Avatar.Escape(env, st, b) == Avatar.Relay(env, begun);
    var first := Ansi.Step(env, begun, ESC).st;
    var second := first.(avatar := begun.avatar.(scan := AtFallback, relayed := 1));
    assert first.buf == begun.buf[0 := ESC] == kept.buf;
    assert Avatar.Relay(env, begun) == Avatar.Relay(env, second);
    RelayOneTidy(env, second);
  }

  lemma {:induction false} RunTidy(env: Env, st: State)
    requires BufferOk(st) && !st.fault && Tidy(st) && st.avatar.scan == AtYEmit
    ensures TidyAfter(Avatar.EmitRun(env, st).st)
    decreases st.avatar.yCount
  {
    if st.avatar.yCount != 0 && IsControl(st.avatar.yChar) {
      var less := st.(avatar := st.avatar.(yCount := st.avatar.yCount - 1));
      RunTidy(env, less.(d := Control(env, st.d, st.avatar.yChar)));
    }
  }

  lemma StoredTidy(st: State, b: byte, v: AvatarVars)
    requires BufferOk(st) && !st.fault && Tidy(st) && st.ansi.scan == AnsiNone
    requires v.scan !in {AtEsc, AtCsi, AtCsiParam}
    ensures TidyAfter(st.Store(b).(avatar := v))
  {
  }

  lemma OperandTidy(env: Env, st: State, b: byte)
    requires BufferOk(st) && AvatarOk(st) && !st.fault && Tidy(st)
    requires st.avatar.scan in {AtH1, AtY1, AtVM1, AtVM2, AtVM3, AtJK1, AtJK2, AtJK3, AtJK4, AtVY1, AtVY2}
    ensures TidyAfter(Avatar.Step(env, st, b).st)
  {
    StoredTidy(st, b, Avatar.Step(env, st, b).st.avatar);
  }

  lemma LastOperandTidy(env: Env, st: State, b: byte)
    requires BufferOk(st) && AvatarOk(st) && !st.fault && Tidy(st)
    requires st.avatar.scan in {AtA1, AtH2, AtJK5, AtVM4, AtVY3, AtDump}
    ensures TidyAfter(Avatar.Step(env, st, b).st)
  {
    hide Avatar.FillLines;
  }

  lemma GroundTidy(env: Env, st: State, b: byte)
    requires BufferOk(st) && AvatarOk(st) && !st.fault && Tidy(st) && st.avatar.scan == AtNone
    ensures TidyAfter(Avatar.Ground(env, st, b).st)
  {
    StoredTidy(st, b, st.avatar);
  }

  lemma StepTidy(env: Env, st: State, b: byte)
    requires FallbackOnly(env) && BufferOk(st) && AnsiOk(st) && AvatarOk(st) && !st.fault && Tidy(st)
    ensures TidyAfter(Avatar.Step(env, st, b).st)
  {
    hide Avatar.EmitRun, Avatar.Command, Avatar.Escape, Avatar.Relay, Avatar.Ground, Ansi.Step;
    match st.avatar.scan
    case AtFallback => RelayOneTidy(env, st.(avatar := st.avatar.(relay := [b])));
    case AtV => CommandTidy(env, st, b);
    case AtEsc => EscapeTidy(env, st, b);
    case AtY2 => RunTidy(env, st.(avatar := st.avatar.(yCount := b, scan := AtYEmit)));
    case AtYEmit => RunTidy(env, st);
    case AtNone => GroundTidy(env, st, b);
    case AtA1 => LastOperandTidy(env, st, b);
    case AtH2 => LastOperandTidy(env, st, b);
    case AtJK5 => LastOperandTidy(env, st, b);
    case AtVM4 => LastOperandTidy(env, st, b);
    case AtVY3 => LastOperandTidy(env, st, b);
    case AtDump => LastOperandTidy(env, st, b);
    case _ => OperandTidy(env, st, b);
  }

  // ------------------------------------------------------------- over the console

  lemma {:induction false} ReplayTidy(env: Env, st: State, bytes: seq<byte>)
    requires FallbackOnly(env) && BufferOk(st) && AnsiOk(st) && AvatarOk(st) && TidyAfter(st)
    ensures TidyAfter(Console.Replay(env, st, bytes))
    decreases bytes
  {
    hide Avatar.Step, Tidy;
    if bytes != [] && !st.fault {
      AvatarStepKeeps(env, st, bytes[0]);
      StepTidy(env, st, bytes[0]);
      var r := Avatar.Step(env, st, bytes[0]);
      if r.st.fault {
        Console.FaultStays(env, r.st, bytes[1..]);
        Console.FaultStays(env, r.st.(d := r.st.d.Put(env.glyph(r.ch % 256))), bytes[1..]);
      } else {
        PutTidy(r.st, env.glyph(r.ch % 256));
        ReplayTidy(env, if r.status == OneChar then r.st.(d := r.st.d.Put(env.glyph(r.ch % 256))) else r.st, bytes[1..]);
      }
    }
  }

  lemma PutTidy(st: State, ch: int)
    requires TidyAfter(st)
    ensures TidyAfter(st.(d := st.d.Put(ch)))
  {
  }

  lemma NotedTidy(r: Result)
    requires TidyAfter(r.st)
    ensures TidyAfter(Console.Noted(r).st)
  {
  }

  lemma AnsweredTidy(env: Env, r: Result)
    requires FallbackOnly(env) && AvatarKept(r) && TidyAfter(r.st)
    ensures TidyAfter(Console.Answered(env, r).st)
  {
    hide AvatarOk, AnsiOk;
    if r.status == RepeatState {
      if r.st.fault {
        Console.FaultStays(env, r.st, r.st.repeat);
      } else {
        ReplayTidy(env, r.st, r.st.repeat);
      }
    } else {
      NotedTidy(r);
    }
  }

  lemma JunkTidy(st: State)
    requires |st.buf| == 128 && Tidy(st) && BufferOk(st) && AvatarOk(st)
    ensures |Console.Junk(st).buf| == 128 && Tidy(Console.Junk(st))
    ensures Tidy(Console.Junk(st).(received := Console.Junk(st).received + 1))
  {
  }

  /** One call of terminal_emulator(). */
  lemma CallTidy(env: Env, st: State, b: byte)
    requires FallbackOnly(env) && Console.Inv(env, st) && !st.fault && TidyAfter(st)
    ensures TidyAfter(Console.TerminalEmulator(env, st, b).st)
  {
    hide Avatar.Step, Console.Answered, Console.Noted, Tidy;
    Console.JunkKeeps(env, st);
    JunkTidy(st);
    var clean := Console.Junk(st);
    if clean.last == ManyChars {
      StepTidy(env, clean, b);
      NotedTidy(Avatar.Step(env, clean, b));
    } else {
      var counted := clean.(received := clean.received + 1);
      AvatarStepKeeps(env, counted, b);
      StepTidy(env, counted, b);
      AnsweredTidy(env, Avatar.Step(env, counted, b));
    }
  }

  lemma {:induction false} DrainTidy(env: Env, r: Result)
    requires FallbackOnly(env) && Console.CallKept(env, r) && TidyAfter(r.st)
    ensures TidyAfter(Console.Drain(env, r))
    decreases if r.status == ManyChars && !r.st.fault then 1 + Console.Pending(env, r.st) else 0
  {
    hide Console.Inv, Console.TerminalEmulator, Console.Pending, TidyAfter;
    if !r.st.fault && r.status in {OneChar, ManyChars} {
      PutTidy(r.st, r.ch);
      if r.status == ManyChars {
        Console.PutKeeps(env, r.st, r.ch);
        var printed := r.st.(d := r.st.d.Put(r.ch));
        Console.TerminalEmulatorKeeps(env, printed, 0xFF);
        CallTidy(env, printed, 0xFF);
        DrainTidy(env, Console.TerminalEmulator(env, printed, 0xFF));
      }
    }
  }

  lemma {:induction false} FeedTidy(env: Env, st: State, bytes: seq<byte>)
    requires FallbackOnly(env) && TidyAfter(st) && (st.fault || Console.Inv(env, st))
    ensures TidyAfter(Console.Feed(env, st, bytes))
    decreases bytes
  {
    hide Console.Inv, TidyAfter, Console.TerminalEmulator, Console.Drain;
    if bytes != [] && !st.fault {
      Console.TerminalEmulatorKeeps(env, st, bytes[0]);
      CallTidy(env, st, bytes[0]);
      DrainTidy(env, Console.TerminalEmulator(env, st, bytes[0]));
      FeedTidy(env, Console.ConsoleByte(env, st, bytes[0]), bytes[1..]);
    }
  }

  lemma InitialHolds(env: Env, d: Display)
    ensures Console.Inv(env, Initial(env, d)) && !Initial(env, d).fault
    ensures FallbackOnly(env) ==> TidyAfter(Initial(env, d))
  {
  }

  /** Whatever was received before, avatar() between two sequences is at rest. */
  lemma BetweenSequencesIsAtRest(env: Env, d: Display, bytes: seq<byte>)
    requires FallbackOnly(env)
    ensures var st := (InitialHolds(env, d); Console.Feed(env, Initial(env, d), bytes));
      !st.fault && st.avatar.scan == AtNone ==> AtRest(st)
  {
    hide Console.Feed;
    InitialHolds(env, d);
    FeedTidy(env, Initial(env, d), bytes);
  }

  /** So in every run, from every ESC met between two sequences, the fallback refines ansi(). */
  lemma FallbackRefinesAnsiInEveryRun(env: Env, d: Display, received: seq<byte>, bytes: seq<byte>)
    requires FallbackOnly(env) && 2 <= |bytes| && bytes[0] == ESC
    ensures var st := (InitialHolds(env, d); Console.Feed(env, Initial(env, d), received));
      !st.fault && st.avatar.scan == AtNone && QuietUntilLast(env, st, bytes)
      ==> Agree(AvatarRun(env, st, bytes), AnsiRun(env, st, bytes))
  {
    hide Console.Feed, AvatarRun, AnsiRun, QuietUntilLast, Agree;
    InitialHolds(env, d);
    var st := Console.Feed(env, Initial(env, d), received);
    BetweenSequencesIsAtRest(env, d, received);
    if !st.fault && st.avatar.scan == AtNone && QuietUntilLast(env, st, bytes) {
      FallbackRefinesAnsi(env, st, bytes);
    }
  }

  // ------------------------------------------------------------- plain ANSI never stops

  lemma {:induction false} AnsiDrainGoesOn(env: Env, r: Result)
    requires env.emulation == EmulateAnsi && Console.CallKept(env, r) && !r.st.fault
    ensures !Console.Drain(env, r).fault
    decreases if r.status == ManyChars then 1 + Console.Pending(env, r.st) else 0
  {
    hide Console.Inv, Console.TerminalEmulator, Console.Pending;
    if r.status == ManyChars {
      Console.PutKeeps(env, r.st, r.ch);
      var printed := r.st.(d := r.st.d.Put(r.ch));
      Console.TerminalEmulatorKeeps(env, printed, 0xFF);
      AnsiDrainGoesOn(env, Console.TerminalEmulator(env, printed, 0xFF));
    }
  }

  lemma {:induction false} AnsiFeedGoesOn(env: Env, st: State, bytes: seq<byte>)
    requires env.emulation == EmulateAnsi && Console.Inv(env, st) && !st.fault
    ensures !Console.Feed(env, st, bytes).fault
    decreases bytes
  {
    hide Console.Inv, Console.TerminalEmulator, Console.Drain;
    if bytes != [] {
      Console.TerminalEmulatorKeeps(env, st, bytes[0]);
      AnsiDrainGoesOn(env, Console.TerminalEmulator(env, st, bytes[0]));
      AnsiFeedGoesOn(env, Console.ConsoleByte(env, st, bytes[0]), bytes[1..]);
    }
  }

  /** Under ANSI no byte stream stops the console, and after each the buffer invariant holds. */
  lemma AnsiNeverStops(env: Env, d: Display, bytes: seq<byte>)
    requires env.emulation == EmulateAnsi
    ensures var st := (InitialHolds(env, d); Console.Feed(env, Initial(env, d), bytes));
      !st.fault && BufferOk(st) && AnsiOk(st) && TailIsZero(st)
  {
    hide Console.Feed;
    InitialHolds(env, d);
    AnsiFeedGoesOn(env, Initial(env, d), bytes);
  }
}
