/**
 The ANSI.SYS emulator, ansi() of source/ansi.c: what one byte does.
 */
module Ansi {
  import opened Display
  import opened Machine
  import Csi

  /** ansi(). */
  function Step(env: Env, st: State, b: byte): Result {
    match st.ansi.scan
    case AnsiNone => Ground(env, st, b)
    case AnsiEsc => Escape(env, st, b)
    case AnsiStart => Start(env, st, b)
    case AnsiCount => Count(env, st, b)
    case AnsiCountTwo => CountTwo(env, st, b)
    case AnsiCountMany => CountMany(env, st, b)
    case AnsiMusic => Music(env, st, b)
  }

  /** A finished sequence. */
  function Done(st: State): Result {
    Silent(st.AnsiClear())
  }

  /** A byte that no sequence allows here: the whole buffer is going to be printed. */
  function Unknown(st: State, b: byte): Result {
    var kept := st.Store(b);
    var ch := kept.Cell(kept.i);
    var ended := kept.AnsiTo(AnsiNone);
    if kept.n == 1 then Result(ended.(n := 0, i := 0), OneChar, ch)
    else Result(ended.(i := kept.i + 1), ManyChars, ch)
  }

  function Ground(env: Env, st: State, b: byte): Result {
    if b == ESC then
      var kept := st.Store(b).AnsiTo(AnsiEsc);
      Silent(kept.(ansi := kept.ansi.(attributes := st.d.color)))
    else if IsControl(b) then
      Silent(st.(d := Control(env, st.d, b)))
    else
      var ch := env.glyph(b);
      var noted := st.(ansi := st.ansi.(rep := ch));
      Result(if env.ansiAnimate && st.ansi.shown != st.d.color
             then noted.Show(Refresh).(ansi := noted.ansi.(shown := st.d.color)) else noted,
             OneChar, ch)
  }

  /** The three bytes that answer an identify request. */
  const IDENTITY: seq<byte> := [ESC, '[' as int, '?' as int]

  function Escape(env: Env, st: State, b: byte): Result {
    if b == '[' as int then Silent(st.Store(b).AnsiTo(AnsiStart))
    else if b == 'Z' as int then Done(st.Show(Send(IDENTITY)))
    else if b == ESC then Silent(st)
    else Unknown(st, b)
  }

  function Start(env: Env, st: State, b: byte): Result {
    if IsDigit(b) then
      var kept := st.Store(b).AnsiTo(AnsiCount);
      Silent(kept.(ansi := kept.ansi.(count := st.n)))
    else if b == ';' as int then
      var kept := st.Store(b).AnsiTo(AnsiCountTwo);
      Silent(kept.(ansi := kept.ansi.(count := st.n)))
    else if b == 'M' as int && env.ansiMusic then
      Silent(st.(ansi := st.ansi.(scan := AnsiMusic, music := [b])))
    else if b == '=' as int then Silent(st.(ansi := st.ansi.(privateMode := true)))
    else if b == '?' as int then Silent(st.(ansi := st.ansi.(decPrivateMode := true)))
    else if b == ' ' as int then Silent(st.(ansi := st.ansi.(discard := true)))
    else if b == 's' as int then
      Done(st.(ansi := st.ansi.(savedX := env.cursorX(st.d.trace), savedY := env.cursorY(st.d.trace))))
    else if IsStartFinal(b) then Done(st.(d := StartEffect(env, st.d, st.ansi, b)))
    else Unknown(st, b)
  }

  /** The final bytes that need no parameter. */
  predicate IsStartFinal(b: byte) {
    b as char in {'K', 'J', 'm', 'A', 'B', 'C', 'D', 'H', 'f', 'c', 'u', 'I', '@', 'd', 'G', 'L', 'P', 'b', 'M', '!'}
  }

  /** What they do when the parameter is left out. */
  function StartEffect(env: Env, d: Display, v: AnsiVars, b: byte): Display {
    var x, y := env.cursorX(d.trace), env.cursorY(d.trace);
    match b as char
    case 'K' => d.Emit(EraseLine(x, env.lineLength(d.trace)))
    case 'J' => d.Emit(EraseScreen(y, x, env.rows - 1, env.columns - 1))
    case 'm' => d.(color := env.Text())
    case 'A' => d.Emit(CursorUp(1))
    case 'B' => d.Emit(CursorDown(1))
    case 'C' => d.Emit(CursorRight(1))
    case 'D' => d.Emit(CursorLeft(1))
    case 'H' => d.Emit(CursorPosition(0, 0))
    case 'f' => d.Emit(CursorPosition(0, 0))
    case 'c' => d.Emit(Send(IDENTITY))
    case 'u' => d.Emit(CursorPosition(v.savedY, v.savedX))
    case 'I' => d.Blanks(79)
    case '@' => d.Emit(InsertBlanks(1))
    case 'd' => d.Emit(CursorPosition(0, x))
    case 'G' => d.Emit(CursorPosition(y, 0))
    case 'L' => d.Emit(ScrollDown(y, env.scrollBottom, 1))
    case 'P' => d.Emit(DeleteCharacter(1))
    case 'b' => d.Put(v.rep)
    case 'M' => d.Emit(ScrollUp(y, env.scrollBottom, 1))
    case _ => d
  }

  function Count(env: Env, st: State, b: byte): Result {
    if IsDigit(b) then Silent(st.Store(b))
    else if b == ';' as int then Silent(st.Store(b).AnsiTo(AnsiCountTwo))
    else if b == 'H' as int || b == 'f' as int then Locate(env, st, b)
    else if b == 'm' as int then Colour(env, st, b)
    else if b == ' ' as int then Silent(st.(ansi := st.ansi.(discard := true)))
    else if b == 'n' as int then
      Done(if st.n == 3 && st.Cell(2) == '6' as int
           then st.Show(ReportCursor(env.cursorY(st.d.trace) + 1, env.cursorX(st.d.trace) + 1)) else st)
    else if b == '!' as int then Done(st)
    else if b as char in {'K', 'J', 'A', 'B', 'C', 'D'} then
      var ps := Csi.Ps(st.buf, st.ansi.count).value;
      if ps == -1 then Unknown(st, b) else Done(st.(d := CountEffect(env, st.d, st.ansi, b, ps)))
    else if b as char in {'@', 'I', 'L', 'M', 'P', 'b', 'd', 'G', 'h', 'l'} then
      var ps := Csi.ParseOne(st.buf, st.ansi.count, if b as char in {'d', 'G', 'I'} then 1 else 0);
      if ps == -1 then Unknown(st, b) else Done(st.(d := CountEffect(env, st.d, st.ansi, b, ps)))
    else Unknown(st, b)
  }

  /** What a final byte does with its one parameter. */
  function CountEffect(env: Env, d: Display, v: AnsiVars, b: byte, ps: int): Display
    requires 0 <= ps
  {
    var x, y := env.cursorX(d.trace), env.cursorY(d.trace);
    match b as char
    case 'K' => EraseInLine(env, d, ps)
    case 'J' => EraseInScreen(env, d, ps)
    case 'A' => d.Emit(CursorUp(ps))
    case 'B' => d.Emit(CursorDown(ps))
    case 'C' => d.Emit(CursorRight(ps))
    case 'D' => d.Emit(CursorLeft(ps))
    case '@' => d.Emit(InsertBlanks(ps))
    case 'I' => d.BlanksTimes(79, ps)
    case 'L' => d.Emit(ScrollDown(y, env.scrollBottom, ps))
    case 'M' => d.Emit(ScrollUp(y, env.scrollBottom, ps))
    case 'P' => d.Emit(DeleteCharacter(ps))
    case 'b' => d.PutTimes(v.rep, ps)
    case 'd' => d.Emit(CursorPosition(ps, x))
    case 'G' => d.Emit(CursorPosition(y, ps))
    case 'h' => SetMode(d, v, ps, true)
    case 'l' => SetMode(d, v, ps, false)
    case _ => d
  }

  function EraseInLine(env: Env, d: Display, ps: int): Display {
    var x := env.cursorX(d.trace);
    match ps
    case 0 => d.Emit(EraseLine(x, env.lineLength(d.trace)))
    case 1 => d.Emit(EraseLine(0, x))
    case 2 => d.Emit(EraseLine(0, env.lineLength(d.trace)))
    case _ => d
  }

  function EraseInScreen(env: Env, d: Display, ps: int): Display {
    var x, y := env.cursorX(d.trace), env.cursorY(d.trace);
    match ps
    case 0 => d.Emit(EraseScreen(y, x, env.rows - 1, env.columns - 1))
    case 1 => d.Emit(EraseScreen(0, 0, y, x))
    case 2 => d.Emit(FormFeed)
    case _ => d
  }

  /** Mode 7, line wrap, is the only one, and only under either private marker. */
  function SetMode(d: Display, v: AnsiVars, ps: int, on: bool): Display {
    if ps == 7 && (v.privateMode || v.decPrivateMode) then d.(lineWrap := on) else d
  }

  /** CSI ... H and CSI ... f with parameters. */
  function Locate(env: Env, st: State, b: byte): Result {
    match Csi.ParsePosition(st.buf, st.ansi.count)
    case BadPosition => Unknown(st, b)
    case Position(row, column) => Done(st.Show(CursorPosition(row, column)))
  }

  /** CSI ... m with parameters. */
  function Colour(env: Env, st: State, b: byte): Result {
    var sgr := Csi.AnsiColor(env, st.buf, st.ansi.count, st.ansi.attributes, st.d.color);
    var after := st.(ansi := st.ansi.(attributes := sgr.pen));
    if sgr.ok then Done(after.(d := after.d.(color := sgr.pen))) else Unknown(after, b)
  }

  function CountTwo(env: Env, st: State, b: byte): Result {
    if IsDigit(b) then Silent(st.Store(b))
    else if b == ';' as int then Silent(st.Store(b).AnsiTo(AnsiCountMany))
    else if b == 'H' as int || b == 'f' as int then Locate(env, st, b)
    else if b == 'm' as int then Colour(env, st, b)
    else if b == ' ' as int then Silent(st.(ansi := st.ansi.(discard := true)))
    else if b == 'D' as int && st.ansi.discard then Done(st)
    else Unknown(st, b)
  }

  function CountMany(env: Env, st: State, b: byte): Result {
    if IsDigit(b) || b == ';' as int then Silent(st.Store(b))
    else if b == 'm' as int then Colour(env, st, b)
    else Unknown(st, b)
  }

  const MUSIC_SIZE: nat := 1024

  /** ANSI music runs to ^N or CR, or is thrown away when its buffer is full. */
  function Music(env: Env, st: State, b: byte): Result {
    if b == 0x0E || b == CR then
      Done(st.Show(Refresh).Show(PlayMusic(st.ansi.music)))
    else
      var kept := st.(ansi := st.ansi.(music := st.ansi.music + [b]));
      if |kept.ansi.music| >= MUSIC_SIZE then Done(kept) else Silent(kept)
  }
}
