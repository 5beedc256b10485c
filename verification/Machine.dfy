/**
 The variables that source/emulation.c, source/ansi.c and source/avatar.c share or keep
 between bytes, and the small steps that both emulators use on them.
 */
module Machine {
  import opened Display

  /** Q_EMULATION_STATUS. */
  datatype Status = NoCharYet | OneChar | ManyChars | RepeatState

  datatype AnsiScan = AnsiNone | AnsiEsc | AnsiStart | AnsiCount | AnsiCountTwo | AnsiCountMany | AnsiMusic

  datatype AnsiVars = AnsiVars(
    scan: AnsiScan,
    count: nat,                 // where the parameters start in the buffer
    attributes: Attr,
    savedX: int, savedY: int,
    rep: int,                   // the last character printed, for REP
    privateMode: bool, decPrivateMode: bool, discard: bool,
    music: seq<byte>,
    shown: Attr)                // colour of the last character printed

  datatype AvatarScan =
    | AtNone | AtV | AtA1 | AtH1 | AtH2 | AtY1 | AtY2 | AtYEmit
    | AtVY1 | AtVY2 | AtVY3 | AtVM1 | AtVM2 | AtVM3 | AtVM4
    | AtJK1 | AtJK2 | AtJK3 | AtJK4 | AtJK5
    | AtEsc | AtCsi | AtCsiParam | AtFallback | AtDump

  datatype AvatarVars = AvatarVars(
    scan: AvatarScan,
    yChar: byte, yCount: nat,
    pattern: seq<byte>,         // the captured part of the ^V^Y pattern
    patternSize: nat,
    scrollUp: bool, lines: int, upper: int, left: int, lower: int, right: int,
    relay: seq<byte>,           // bytes handed over to ansi()
    relayed: nat,               // how many of them ansi() has seen
    count: nat,
    attributes: Attr)

  datatype State = State(
    buf: seq<byte>,             // q_emul_buffer, all 128 cells
    n: nat, i: nat,
    last: Status,
    repeat: seq<byte>,          // q_emul_repeat_state_buffer
    received: nat,
    d: Display,
    ansi: AnsiVars,
    avatar: AvatarVars,
    fault: bool)                // an assert failed, or the model goes no further; see Store() and Console.Replay()
  {
    function Cell(k: nat): byte {
      if k < |buf| then buf[k] else 0
    }

    /** save_char() and the like.  The model keeps the last cell free, for it ends every parameter string: it stops where
        the source would fill that cell, one byte before it would write past the buffer.  Only a replay gets there. */
    function Store(b: byte): State {
      if n < 127 && n < |buf| then this.(buf := buf[n := b], n := n + 1) else this.(fault := true)
    }

    /** memset() of the shared buffer and both its indices. */
    function Wipe(): State {
      this.(buf := Zeros(), n := 0, i := 0)
    }

    /** clear_state() of source/ansi.c. */
    function AnsiClear(): State {
      Wipe().(ansi := ansi.(scan := AnsiNone, privateMode := false, decPrivateMode := false, discard := false))
    }

    /** clear_state() of source/avatar.c, which also leaves insert mode. */
    function AvatarClear(): State {
      Wipe().(d := d.(insert := false), avatar := avatar.(scan := AtNone, pattern := []))
    }

    /** The same, with the insert mode restored afterwards. */
    function AvatarClearKeepInsert(): State {
      AvatarClear().(d := d)
    }

    function AnsiTo(scan: AnsiScan): State {
      this.(ansi := ansi.(scan := scan))
    }

    function AvatarTo(scan: AvatarScan): State {
      this.(avatar := avatar.(scan := scan))
    }

    function Show(e: Event): State {
      this.(d := d.Emit(e))
    }
  }

  const BUFFER_SIZE: nat := 128

  function Zeros(): (z: seq<byte>)
    ensures |z| == 128 && forall k | 0 <= k < 128 :: z[k] == 0
  {
    seq(BUFFER_SIZE, k => 0)
  }

  /** What an emulator returns: `ch` is a character to print unless the status is NoCharYet. */
  datatype Result = Result(st: State, status: Status, ch: int)

  function Silent(st: State): Result {
    Result(st, NoCharYet, 1)
  }

  /** No emulation has begun: the state after reset_emulation(). */
  function Initial(env: Env, d: Display): State {
    var plain := Attr(Black, Black, false, false, false, false, false);
    var text := env.Text();
    State(Zeros(), 0, 0, NoCharYet, [], 0, d.(color := text),
          AnsiVars(AnsiNone, 0, plain, env.cursorX(d.trace), env.cursorY(d.trace), 0, false, false, false, [], text),
          AvatarVars(AtNone, 0, 0, [], 0, false, 0, 0, 0, 0, 0, [], 0, 0, plain),
          false)
  }
}
