/**
 The sequences that ansi() understands, named as in ECMA-48: how each is written, and what it means for the screen.
 None of this speaks of how they are read.
 */
module AnsiMeaning {
  import opened Display
  import opened Machine
  import opened Controls
  import opened Decimal
  import Parameters
  import Sgr

  const BRACKET: byte := 0x5B
  const SEMICOLON: byte := 0x3B

  datatype Parameter = Omitted | Given(number: Number)

  datatype Marker = Unmarked | Dos | Dec

  /** The functions with one parameter. */
  datatype Function = CUU | CUD | CUF | CUB | CHA | VPA | CHT | EL | ED | ICH | DCH | IL | DL | REP

  /** A position as ansi_position() takes it. */
  datatype Place = Nowhere | Semicolon | Row(row: Number) | RowColumn(row: Number, column: Number)

  datatype Sequence =
    | Plain(b: byte)                                   // any byte but ESC
    | One(f: Function, p: Parameter)
    | CUP(place: Place, hvp: bool)                     // H, f
    | Graphics(xs: seq<Number>)                        // m
    | Mode(on: bool, marker: Marker, mode: Number)     // h, l
    | Save | Restore                                   // s, u
    | Identify(z: bool)                                // ESC Z, c
    | Report(number: Number)                           // n
    | Query(p: Parameter)                              // !
    | Font(slot: Number, font: Number)                     // blank D
    | Tune(notes: seq<byte>)                           // M, up to ^N
    | LostTune(notes: seq<byte>)                       // M, and more notes than there is room for

  /** What an omitted parameter counts as. */
  function Default(f: Function): nat {
    match f
    case EL => 0
    case ED => 0
    case CHT => 2
    case _ => 1
  }

  predicate IsParameter(p: Parameter) {
    p.Given? ==> IsNumber(p.number)
  }

  predicate IsPlace(p: Place) {
    match p
    case Nowhere => true
    case Semicolon => true
    case Row(r) => IsNumber(r)
    case RowColumn(r, c) => IsNumber(r) && IsNumber(c)
  }

  /** Under ANSI these end a tune, or interrupt it. */
  predicate IsNote(b: byte) {
    b != 0x0E && b != CR && b != LF
  }

  ghost predicate ValidSequence(env: Env, c: Sequence) {
    match c
    case Plain(b) => b != ESC
    case One(f, p) => IsParameter(p) && (f in {CHA, VPA, CHT} ==> 1 <= Or(p, 1)) && (f.DL? && p.Omitted? ==> !env.ansiMusic)
    case CUP(place, _) => IsPlace(place)
    case Graphics(xs) => AreNumbers(xs) && (xs != [] ==> |Parameters.Joined(AllWritten(xs))| <= 124)
    case Mode(_, _, mode) => IsNumber(mode)
    case Report(number) => IsNumber(number)
    case Query(p) => IsParameter(p)
    case Font(a, b) => IsNumber(a) && IsNumber(b)
    case Tune(notes) => env.ansiMusic && |notes| < 1023 && forall b | b in notes :: IsNote(b)
    case LostTune(notes) => env.ansiMusic && |notes| == 1023 && forall b | b in notes :: IsNote(b)
    case _ => true
  }

  // ------------------------------------------------------------- the bytes

  function FinalOf(f: Function): byte {
    match f
    case CUU => 'A' as int case CUD => 'B' as int case CUF => 'C' as int case CUB => 'D' as int
    case CHA => 'G' as int case VPA => 'd' as int case CHT => 'I' as int
    case EL => 'K' as int case ED => 'J' as int
    case ICH => '@' as int case DCH => 'P' as int case IL => 'L' as int case DL => 'M' as int
    case REP => 'b' as int
  }

  function Text(p: Parameter): seq<byte> {
    if p.Omitted? then [] else Written(p.number)
  }

  function PlaceText(p: Place): seq<byte> {
    match p
    case Nowhere => []
    case Semicolon => [SEMICOLON]
    case Row(r) => Written(r)
    case RowColumn(r, c) => Written(r) + [SEMICOLON] + Written(c)
  }

  function MarkerText(m: Marker): seq<byte> {
    match m
    case Unmarked => []
    case Dos => ['=' as int]
    case Dec => ['?' as int]
  }

  function Encode(c: Sequence): seq<byte> {
    match c
    case Plain(b) => [b]
    case One(f, p) => [ESC, BRACKET] + Text(p) + [FinalOf(f)]
    case CUP(place, hvp) => [ESC, BRACKET] + PlaceText(place) + [if hvp then 'f' as int else 'H' as int]
    case Graphics(xs) => [ESC, BRACKET] + (if xs == [] then [] else Parameters.Joined(AllWritten(xs))) + ['m' as int]
    case Mode(on, marker, mode) =>
      [ESC, BRACKET] + MarkerText(marker) + Written(mode) + [if on then 'h' as int else 'l' as int]
    case Save => [ESC, BRACKET, 's' as int]
    case Restore => [ESC, BRACKET, 'u' as int]
    case Identify(z) => if z then [ESC, 'Z' as int] else [ESC, BRACKET, 'c' as int]
    case Report(number) => [ESC, BRACKET] + Written(number) + ['n' as int]
    case Query(p) => [ESC, BRACKET] + Text(p) + ['!' as int]
    case Font(a, b) => [ESC, BRACKET] + (Written(a) + [SEMICOLON] + Written(b)) + [' ' as int, 'D' as int]
    case Tune(notes) => [ESC, BRACKET, 'M' as int] + notes + [0x0E]
    case LostTune(notes) => [ESC, BRACKET, 'M' as int] + notes
  }

  function EncodeAll(cs: seq<Sequence>): seq<byte> {
    if cs == [] then [] else Encode(cs[0]) + EncodeAll(cs[1..])
  }

  // ------------------------------------------------------------- the meaning

  /** What the user sees, and what ansi() remembers from one sequence to the next. */
  datatype Screen = Screen(
    d: Display,
    rep: int,                  // the character that REP repeats
    savedX: int, savedY: int,
    shown: Attr,               // the colour that ANSI animation last refreshed for
    marked: bool)              // a private marker was seen, and nothing has cleared it

  function Or(p: Parameter, default: nat): nat {
    if p.Omitted? then default else p.number.value
  }

  function Often(e: Event, n: int): seq<Event> {
    if n <= 0 then [] else seq(n, _ => e)
  }

  /** What a function with a parameter does. */
  function Events(env: Env, s: Screen, f: Function, n: nat): seq<Event> {
    var x, y, end := env.cursorX(s.d.trace), env.cursorY(s.d.trace), env.lineLength(s.d.trace);
    match f
    case CUU => [CursorUp(n)]
    case CUD => [CursorDown(n)]
    case CUF => [CursorRight(n)]
    case CUB => [CursorLeft(n)]
    case CHA => [CursorPosition(y, n - 1)]
    case VPA => [CursorPosition(n - 1, x)]
    case CHT => Often(Tab(79, s.d.color, s.d.insert), n - 1)
    case EL => if n > 2 then [] else [EraseLine(if n == 0 then x else 0, if n == 1 then x else end)]
    case ED => if n > 2 then [] else if n == 2 then [FormFeed]
               else if n == 1 then [EraseScreen(0, 0, y, x)] else [EraseScreen(y, x, env.rows - 1, env.columns - 1)]
    case ICH => [InsertBlanks(n)]
    case DCH => [DeleteCharacter(n)]
    case IL => [ScrollDown(y, env.scrollBottom, n)]
    case DL => [ScrollUp(y, env.scrollBottom, n)]
    case REP => Often(Event.Print(s.rep, s.d.color, s.d.insert), n)
  }

  /** The pen that a list of parameters leaves: each part is what the last parameter about it says. */
  function Pen(env: Env, pen: Attr, vs: seq<int>): Attr {
    var bold := Sgr.Last(env, Sgr.Bold, vs);
    var underline := Sgr.Last(env, Sgr.Underline, vs);
    Attr(Sgr.ColorOf(pen.fg, Sgr.Last(env, Sgr.Foreground, vs), 30, env.textFg),
         Sgr.ColorOf(pen.bg, Sgr.Last(env, Sgr.Background, vs), 40, env.textBg),
         Sgr.Flag(pen.bold, bold, if bold in {0, 38, 39} then env.textBold else bold == 1),
         Sgr.Flag(pen.dim, Sgr.Last(env, Sgr.Dim, vs), Sgr.Last(env, Sgr.Dim, vs) == 2),
         Sgr.Flag(pen.underline, underline, underline == 4 || underline == 38),
         Sgr.Flag(pen.blink, Sgr.Last(env, Sgr.Blink, vs), Sgr.Last(env, Sgr.Blink, vs) == 5),
         Sgr.Flag(pen.reverse, Sgr.Last(env, Sgr.Reverse, vs), Sgr.Last(env, Sgr.Reverse, vs) == 7))
  }

  function ZeroBased(v: nat): int {
    if v == 0 then 0 else v - 1
  }

  function Coordinates(p: Place): Event {
    match p
    case Row(r) => CursorPosition(ZeroBased(r.value), 0)
    case RowColumn(r, c) => CursorPosition(ZeroBased(r.value), ZeroBased(c.value))
    case _ => CursorPosition(0, 0)
  }

  /** A printable byte; with ANSI animation the screen is refreshed first if the colour has changed. */
  function Printed(env: Env, s: Screen, ch: int): Screen {
    var refresh := env.ansiAnimate && s.shown != s.d.color;
    var before := if refresh then s.d.trace + [Refresh] else s.d.trace;
    s.(d := s.d.(trace := before + [Event.Print(ch, s.d.color, s.d.insert)]), rep := ch,
       shown := if refresh then s.d.color else s.shown)
  }

  function Shown(s: Screen, es: seq<Event>): Screen {
    s.(d := s.d.(trace := s.d.trace + es), marked := false)
  }

  function Meaning(env: Env, s: Screen, c: Sequence): Screen {
    var x, y := env.cursorX(s.d.trace), env.cursorY(s.d.trace);
    match c
    case Plain(b) => if IsPrintable(b) then Printed(env, s, env.glyph(b)) else s.(d := ControlMeaning(env, s.d, b))
    case One(f, p) => Shown(s, Events(env, s, f, Or(p, Default(f))))
    case CUP(place, _) => Shown(s, [Coordinates(place)])
    case Graphics(xs) =>
      s.(d := s.d.(color := Pen(env, s.d.color, if xs == [] then [0] else ValuesOf(xs))), marked := false)
    case Mode(on, marker, mode) =>
      s.(d := if mode.value == 7 && (s.marked || !marker.Unmarked?) then s.d.(lineWrap := on) else s.d, marked := false)
    case Save => s.(savedX := x, savedY := y, marked := false)
    case Restore => Shown(s, [CursorPosition(s.savedY, s.savedX)])
    case Identify(_) => Shown(s, [Send([ESC, '[' as int, '?' as int])])
    case Report(number) => Shown(s, if number == Number(6, 1) then [ReportCursor(y + 1, x + 1)] else [])
    case Query(_) => Shown(s, [])
    case Font(_, _) => Shown(s, [])
    case Tune(notes) => Shown(s, [Refresh, PlayMusic(['M' as int] + notes)])
    case LostTune(_) => Shown(s, [])
  }

  function MeaningAll(env: Env, s: Screen, cs: seq<Sequence>): Screen
    decreases cs
  {
    if cs == [] then s else MeaningAll(env, Meaning(env, s, cs[0]), cs[1..])
  }

  function ScreenOf(st: State): Screen {
    Screen(st.d, st.ansi.rep, st.ansi.savedX, st.ansi.savedY, st.ansi.shown, st.ansi.privateMode || st.ansi.decPrivateMode)
  }
}
