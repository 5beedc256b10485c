/**
 What the emulators do to the screen, as a trace of events.

 The screen, the scrollback and the line to the remote side are not modelled: each call
 into them becomes one event.  What the emulators read back from them (the cursor, the
 length of the current line) is a function of the events so far, supplied by `Env`, so
 every theorem holds for every screen.
 */
module Display {

  type byte = x: int | 0 <= x < 256

  const ESC: byte := 0x1B
  const CR: byte := 0x0D
  const LF: byte := 0x0A

  /** iscntrl() in the "C" locale. */
  predicate IsControl(b: byte) { b < 0x20 || b == 0x7F }

  predicate IsDigit(b: byte) { 0x30 <= b <= 0x39 }

  datatype Color = Black | Red | Green | Yellow | Blue | Magenta | Cyan | White

  /** q_current_color, unpacked. */
  datatype Attr = Attr(fg: Color, bg: Color, bold: bool, dim: bool, underline: bool, blink: bool, reverse: bool)

  datatype Event =
    | Print(ch: int, color: Attr, insert: bool)
    | Tab(limit: int, color: Attr, insert: bool)  // blanks up to the next multiple of 8, or to the limit
    | Beep
    | LineFeed
    | FormFeed
    | CarriageReturn
    | CursorUp(n: int)
    | CursorDown(n: int)
    | CursorLeft(n: int)
    | CursorRight(n: int)
    | CursorPosition(y: int, x: int)
    | EraseLine(from: int, to: int)
    | EraseScreen(y0: int, x0: int, y1: int, x1: int)
    | InsertBlanks(n: int)
    | DeleteCharacter(n: int)
    | ScrollUp(top: int, bottom: int, n: int)
    | ScrollDown(top: int, bottom: int, n: int)
    | RectangleUp(top: int, left: int, bottom: int, right: int, n: int)
    | RectangleDown(top: int, left: int, bottom: int, right: int, n: int)
    | FillLine(from: int, to: int, fill: byte, color: Attr)
    | Answerback
    | Send(bytes: seq<byte>)
    | ReportCursor(row: int, column: int)
    | PlayMusic(notes: seq<byte>)
    | Refresh

  datatype Emulation = EmulateAnsi | EmulateAvatar

  /** The settings and the unseen functions that the emulators consult. */
  datatype Env = Env(
    emulation: Emulation,
    glyph: byte -> int,               // codepage_map_char
    cp437: byte -> int,               // cp437_chars
    cursorX: seq<Event> -> int,
    cursorY: seq<Event> -> int,
    lineLength: seq<Event> -> int,
    columns: int,                     // WIDTH
    rows: int,                        // HEIGHT - STATUS_HEIGHT
    scrollBottom: int,
    textFg: Color, textBg: Color, textBold: bool,
    ansiMusic: bool,
    ansiAnimate: bool,
    avatarColor: bool,
    avatarFallback: bool)
  {
    /** The colour that a reset selects. */
    function Text(): Attr {
      Attr(textFg, textBg, textBold, false, false, false, false)
    }
  }

  /** The part of the global state that is visible to the user or shapes what becomes visible. */
  datatype Display = Display(trace: seq<Event>, color: Attr, insert: bool, lineWrap: bool) {
    function Emit(e: Event): Display {
      this.(trace := trace + [e])
    }

    function Put(ch: int): Display {
      Emit(Event.Print(ch, color, insert))
    }

    function Blanks(limit: int): Display {
      Emit(Tab(limit, color, insert))
    }

    function PutTimes(ch: int, n: nat): Display
      decreases n
    {
      if n == 0 then this else PutTimes(ch, n - 1).Put(ch)
    }

    function BlanksTimes(limit: int, n: nat): Display
      decreases n
    {
      if n == 0 then this else BlanksTimes(limit, n - 1).Blanks(limit)
    }

    function PutAll(chs: seq<int>): Display
      decreases chs
    {
      if chs == [] then this else Put(chs[0]).PutAll(chs[1..])
    }
  }

  /** generic_handle_control_char(): the control characters common to ANSI and AVATAR. */
  function Control(env: Env, d: Display, c: byte): Display {
    match c
    case 0x05 => d.Emit(Answerback)
    case 0x07 => d.Emit(Beep)
    case 0x08 => d.Emit(CursorLeft(1))
    case 0x09 => d.Blanks(80)
    case 0x0A => d.Emit(LineFeed)
    case 0x0B => d.Emit(LineFeed)
    case 0x0C => d.Emit(FormFeed)
    case 0x0D => d.Emit(CarriageReturn)
    case _ => d.Put(env.cp437(c))
  }
}
