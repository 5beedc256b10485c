/**
 terminal_emulator() of source/emulation.c, which dispatches a byte to an emulator, and the loop of
 console_process_incoming_data() in source/console.c, which keeps calling it until it has nothing to print.
 */
module Console {
  import opened Display
  import opened Machine
  import opened Invariant
  import Ansi
  import Avatar

  /** A full buffer is thrown away, and with it a printout in progress. */
  function Junk(st: State): State {
    if st.n >= 127 then st.Wipe().(last := NoCharYet) else st
  }

  function Emulate(env: Env, st: State, b: byte): Result {
    match env.emulation
    case EmulateAnsi => Ansi.Step(env, st, b)
    case EmulateAvatar => Avatar.Step(env, st, b)
  }

  /** terminal_emulator(). */
  function TerminalEmulator(env: Env, st: State, b: byte): Result {
    var clean := Junk(st);
    if clean.last == ManyChars then Continue(env, clean, b)
    else Fresh(env, clean.(received := clean.received + 1), b)
  }

  /** More of a printout.  AVATAR prints its own; for the others the dispatcher does. */
  function Continue(env: Env, st: State, b: byte): Result {
    match env.emulation
    case EmulateAvatar => Noted(Avatar.Step(env, st, b))
    case EmulateAnsi => PrintHeld(env, st)
  }

  /** A byte from the remote side.  Only AVATAR sees CR and LF itself. */
  function Fresh(env: Env, st: State, b: byte): Result {
    if env.emulation == EmulateAnsi && b == CR then Silent(st.Show(CarriageReturn))
    else if env.emulation == EmulateAnsi && b == LF then Silent(st.Show(LineFeed))
    else Answered(env, Emulate(env, st, b))
  }

  /** An emulator's answer to a fresh byte; a pattern to repeat is run here and now. */
  function Answered(env: Env, r: Result): Result {
    if r.status == RepeatState then
      Silent(Replay(env, r.st, r.st.repeat).(repeat := [], last := NoCharYet))
    else
      Noted(r)
  }

  /** last_state := the status returned. */
  function Noted(r: Result): Result {
    r.(st := r.st.(last := r.status))
  }

  /** Every emulator but AVATAR leaves printing the buffer to the dispatcher. */
  function PrintHeld(env: Env, st: State): Result {
    if st.n == 0 then Result(st.(last := NoCharYet), NoCharYet, 0)
    else
      var ch := env.glyph(st.Cell(st.i));
      Result(if st.i + 1 == st.n then st.Wipe() else st.(i := st.i + 1), ManyChars, ch)
  }

  /** Run a stored pattern through the emulator.  Here the dispatcher prints, and maps the glyph a second time. */
  function Replay(env: Env, st: State, bytes: seq<byte>): State
    decreases bytes
  {
    if bytes == [] || st.fault then st
    else
      var r := Emulate(env, st, bytes[0]);
      match r.status
      case OneChar => Replay(env, r.st.(d := r.st.d.Put(env.glyph(r.ch % 256))), bytes[1..])
      case RepeatState => r.st.(fault := true)  // a pattern inside a pattern
      case _ => Replay(env, r.st, bytes[1..])
  }

  /** The invariant of the variables between two calls of terminal_emulator(). */
  predicate Inv(env: Env, st: State) {
    && BufferOk(st) && AnsiOk(st)
    && match env.emulation
       case EmulateAvatar =>
         && AvatarOk(st)
         && (st.last == ManyChars ==> st.avatar.scan == AtYEmit || (st.avatar.scan == AtDump && 0 < st.n))
       case EmulateAnsi =>
         && TailIsZero(st) && st.last != RepeatState
         && if st.last == ManyChars then st.ansi.scan == AnsiNone && (st.n == 0 ==> st.i == 0) && (0 < st.n ==> Dumping(st))
            else AnsiIdleOk(st)
  }

  /** How many more calls a printout can take. */
  function Pending(env: Env, st: State): nat {
    if st.last != ManyChars then 0
    else if env.emulation == EmulateAvatar && st.avatar.scan == AtYEmit then 1 + st.avatar.yCount
    else if st.i < st.n then 1 + st.n - st.i
    else 1
  }

  lemma {:induction false} ReplayKeeps(env: Env, st: State, bytes: seq<byte>)
    requires env.emulation == EmulateAvatar
    requires BufferOk(st) && AnsiOk(st) && AvatarOk(st)
    ensures var r := Replay(env, st, bytes);
            r.fault || (BufferOk(r) && AnsiOk(r) && AvatarOk(r))
    decreases bytes
  {
    if bytes != [] && !st.fault {
      AvatarStepKeeps(env, st, bytes[0]);
      var r := Emulate(env, st, bytes[0]);
      if r.st.fault {
        FaultStays(env, r.st, bytes[1..]);
        FaultStays(env, r.st.(d := r.st.d.Put(env.glyph(r.ch % 256))), bytes[1..]);
      } else {
        ReplayKeeps(env, if r.status == OneChar then r.st.(d := r.st.d.Put(env.glyph(r.ch % 256))) else r.st, bytes[1..]);
      }
    }
  }

  lemma FaultStays(env: Env, st: State, bytes: seq<byte>)
    requires st.fault
    ensures Replay(env, st, bytes) == st
  {
  }

  lemma {:induction false} RunShrinks(env: Env, st: State)
    ensures var r := Avatar.EmitRun(env, st);
            && r.status in {NoCharYet, ManyChars}
            && (r.status == NoCharYet ==> r.st.avatar.scan == AtNone)
            && (r.status == ManyChars ==> r.st.avatar.scan == st.avatar.scan && r.st.avatar.yCount < st.avatar.yCount)
    decreases st.avatar.yCount
  {
    if st.avatar.yCount != 0 && IsControl(st.avatar.yChar) {
      RunShrinks(env, st.(avatar := st.avatar.(yCount := st.avatar.yCount - 1), d := Control(env, st.d, st.avatar.yChar)));
    }
  }

  /** What one call of terminal_emulator() promises of its result. */
  predicate CallKept(env: Env, r: Result) {
    && (r.st.fault || Inv(env, r.st))
    && r.status in {NoCharYet, OneChar, ManyChars}
    && (r.status == ManyChars <==> r.st.last == ManyChars)
  }

  /** The invariant of a state that is about to take a fresh byte. */
  predicate Ready(env: Env, st: State) {
    Inv(env, st) && !st.fault && st.n < 127 && st.last != ManyChars
  }

  lemma JunkKeeps(env: Env, st: State)
    requires Inv(env, st) && !st.fault
    ensures Junk(st).last != ManyChars ==> Ready(env, Junk(st).(received := Junk(st).received + 1))
    ensures Junk(st).last == ManyChars ==> Junk(st) == st && st.n < 127
  {
  }

  lemma AvatarContinueKeeps(env: Env, st: State, b: byte)
    requires env.emulation == EmulateAvatar && Inv(env, st) && !st.fault && st.last == ManyChars
    ensures var r := Continue(env, st, b);
            CallKept(env, r) && (!r.st.fault ==> Pending(env, r.st) < Pending(env, st))
  {
    AvatarStepKeeps(env, st, b);
    if st.avatar.scan == AtYEmit {
      RunShrinks(env, st);
    }
  }

  lemma AnsiContinueKeeps(env: Env, st: State, b: byte)
    requires env.emulation == EmulateAnsi && Inv(env, st) && !st.fault && st.last == ManyChars
    ensures var r := Continue(env, st, b);
            CallKept(env, r) && !r.st.fault && Pending(env, r.st) < Pending(env, st)
  {
    hide Avatar.Step;
  }

  lemma AvatarAnswerKeeps(env: Env, r: Result)
    requires env.emulation == EmulateAvatar && AvatarKept(r)
    ensures CallKept(env, Answered(env, r))
  {
    if r.status == RepeatState {
      if r.st.fault {
        FaultStays(env, r.st, r.st.repeat);
      } else {
        ReplayKeeps(env, r.st, r.st.repeat);
      }
    }
  }

  lemma AvatarFreshKeeps(env: Env, st: State, b: byte)
    requires env.emulation == EmulateAvatar && Ready(env, st)
    ensures CallKept(env, Fresh(env, st, b))
  {
    hide Ansi.Step, Avatar.Step, Answered, CallKept, AvatarKept;
    AvatarStepKeeps(env, st, b);
    AvatarAnswerKeeps(env, Avatar.Step(env, st, b));
  }

  lemma AnsiAnswerKeeps(env: Env, st: State, r: Result)
    requires env.emulation == EmulateAnsi && |st.buf| == 128 && st.n < 127 && TailIsZero(st) && AnsiKept(st, r)
    ensures CallKept(env, Answered(env, r)) && !Answered(env, r).st.fault
  {
  }

  lemma AnsiControlKeeps(env: Env, st: State, e: Event)
    requires env.emulation == EmulateAnsi && Ready(env, st)
    ensures CallKept(env, Silent(st.Show(e))) && !Silent(st.Show(e)).st.fault
  {
  }

  lemma AnsiFreshKeeps(env: Env, st: State, b: byte)
    requires env.emulation == EmulateAnsi && Ready(env, st)
    ensures CallKept(env, Fresh(env, st, b)) && !Fresh(env, st, b).st.fault
  {
    hide Ansi.Step, Avatar.Step, Answered, CallKept, AnsiKept;
    if b == CR || b == LF {
      AnsiControlKeeps(env, st, CarriageReturn);
      AnsiControlKeeps(env, st, LineFeed);
    } else {
      AnsiStepKeeps(env, st, b);
      AnsiAnswerKeeps(env, st, Ansi.Step(env, st, b));
    }
  }

  /** Whatever the byte, one call keeps the invariant and brings a printout nearer to its end. */
  lemma TerminalEmulatorKeeps(env: Env, st: State, b: byte)
    requires Inv(env, st) && !st.fault
    ensures var r := TerminalEmulator(env, st, b);
            && CallKept(env, r)
            && (st.last == ManyChars && !r.st.fault ==> Pending(env, r.st) < Pending(env, st))
            && (env.emulation == EmulateAnsi ==> !r.st.fault)
  {
    hide Fresh, Continue, Pending, Ready;
    JunkKeeps(env, st);
    if Junk(st).last == ManyChars {
      ContinueKeeps(env, st, b);
    } else {
      FreshKeeps(env, Junk(st).(received := Junk(st).received + 1), b);
      if st.last == ManyChars {
        JunkedDrains(env, st, b);
      }
    }
  }

  lemma ContinueKeeps(env: Env, st: State, b: byte)
    requires Inv(env, st) && !st.fault && st.last == ManyChars
    ensures var r := Continue(env, st, b);
            && CallKept(env, r)
            && (!r.st.fault ==> Pending(env, r.st) < Pending(env, st))
            && (env.emulation == EmulateAnsi ==> !r.st.fault)
  {
    hide Continue, Pending, CallKept;
    match env.emulation
    case EmulateAnsi => AnsiContinueKeeps(env, st, b);
    case EmulateAvatar => AvatarContinueKeeps(env, st, b);
  }

  lemma FreshKeeps(env: Env, st: State, b: byte)
    requires Ready(env, st)
    ensures CallKept(env, Fresh(env, st, b)) && (env.emulation == EmulateAnsi ==> !Fresh(env, st, b).st.fault)
  {
    hide Fresh, CallKept;
    match env.emulation
    case EmulateAnsi => AnsiFreshKeeps(env, st, b);
    case EmulateAvatar => AvatarFreshKeeps(env, st, b);
  }

  /** A printout that fills the buffer is cut off by the next call. */
  lemma JunkedDrains(env: Env, st: State, b: byte)
    requires Inv(env, st) && !st.fault && st.last == ManyChars && st.n == 127
    ensures var r := TerminalEmulator(env, st, b);
            r.st.fault || Pending(env, r.st) < Pending(env, st)
  {
  }

  // ------------------------------------------------------------- the console

  /** The loop around one received byte: print, and call again while more is ready.
      It ends for every byte and every state, which is what `decreases` proves. */
  function Drain(env: Env, r: Result): (st: State)
    requires CallKept(env, r)
    ensures st.fault || (Inv(env, st) && st.last != ManyChars)
    decreases if r.status == ManyChars && !r.st.fault then 1 + Pending(env, r.st) else 0
  {
    hide Inv, TerminalEmulator, Pending;
    if r.st.fault then r.st
    else if r.status == OneChar then
      PutKeeps(env, r.st, r.ch);
      r.st.(d := r.st.d.Put(r.ch))
    else if r.status == ManyChars then
      PutKeeps(env, r.st, r.ch);
      var printed := r.st.(d := r.st.d.Put(r.ch));
      TerminalEmulatorKeeps(env, printed, 0xFF);
      Drain(env, TerminalEmulator(env, printed, 0xFF))
    else r.st
  }

  lemma PutKeeps(env: Env, st: State, ch: int)
    requires Inv(env, st)
    ensures Inv(env, st.(d := st.d.Put(ch)))
    ensures Pending(env, st.(d := st.d.Put(ch))) == Pending(env, st)
  {
  }

  /** One received byte. */
  function ConsoleByte(env: Env, st: State, b: byte): (r: State)
    requires Inv(env, st) && !st.fault
    ensures r.fault || (Inv(env, r) && r.last != ManyChars)
  {
    hide Inv, TerminalEmulator;
    TerminalEmulatorKeeps(env, st, b);
    Drain(env, TerminalEmulator(env, st, b))
  }

  /** console_process_incoming_data(): every received byte in turn. */
  function Feed(env: Env, st: State, bytes: seq<byte>): (r: State)
    requires st.fault || Inv(env, st)
    ensures r.fault || Inv(env, r)
    decreases bytes
  {
    hide Inv, ConsoleByte;
    if bytes == [] || st.fault then st else Feed(env, ConsoleByte(env, st, bytes[0]), bytes[1..])
  }

  /** Feeding is feeding the first byte, then the rest. */
  lemma FeedIs(env: Env, st: State, s: seq<byte>, b: byte, rest: seq<byte>)
    requires Inv(env, st) && !st.fault && s == [b] + rest
    ensures Feed(env, st, s) == Feed(env, ConsoleByte(env, st, b), rest)
    ensures rest == [] ==> Feed(env, st, s) == ConsoleByte(env, st, b)
  {
    hide ConsoleByte, Inv;
    assert s[1..] == rest;
  }

  /** A stream may arrive in any pieces. */
  lemma {:induction false} FeedConcat(env: Env, st: State, s: seq<byte>, t: seq<byte>)
    requires st.fault || Inv(env, st)
    ensures Feed(env, st, s + t) == Feed(env, Feed(env, st, s), t)
    decreases s
  {
    hide ConsoleByte, Inv;
    if s == [] {
      assert s + t == t;
    } else if !st.fault {
      assert (s + t)[1..] == s[1..] + t;
      FeedConcat(env, ConsoleByte(env, st, s[0]), s[1..], t);
    }
  }
}
