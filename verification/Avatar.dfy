/**
 The AVATAR emulator, avatar() of source/avatar.c: what one byte does.
 */
module Avatar {
  import opened Display
  import opened Machine
  import Ansi
  import Csi

  /** avatar(). */
  function Step(env: Env, st: State, b: byte): Result {
    match st.avatar.scan
    case AtFallback => FallbackByte(env, st, b)
    case AtNone => Ground(env, st, b)
    case AtA1 => Silent(st.(d := st.d.(color := PcColor(b))).AvatarClear())
    case AtH1 => Silent(st.Store(b).AvatarTo(AtH2))
    case AtH2 => Silent(st.Show(CursorPosition(Less(st.Cell(2)), Less(b))).AvatarClear())
    case AtY1 => var kept := st.Store(b).AvatarTo(AtY2);
                 Silent(kept.(avatar := kept.avatar.(yChar := b)))
    case AtY2 => EmitRun(env, st.(avatar := st.avatar.(yCount := b, scan := AtYEmit)))
    case AtYEmit => EmitRun(env, st)
    case AtJK1 => Silent(st.Store(b).(avatar := st.avatar.(lines := b, scan := AtJK2)))
    case AtJK2 => Silent(st.Store(b).(avatar := st.avatar.(upper := b, scan := AtJK3)))
    case AtJK3 => Silent(st.Store(b).(avatar := st.avatar.(left := b, scan := AtJK4)))
    case AtJK4 => Silent(st.Store(b).(avatar := st.avatar.(lower := b, scan := AtJK5)))
    case AtJK5 => ScrollRectangle(env, st, b)
    case AtVY1 => Silent(st.Store(b).(avatar := st.avatar.(patternSize := b, pattern := [], scan := AtVY2)))
    case AtVY2 => CapturePattern(st, b)
    case AtVY3 => RepeatPattern(st, b)
    case AtVM1 => Silent(st.Store(b).AvatarTo(AtVM2))
    case AtVM2 => Silent(st.Store(b).AvatarTo(AtVM3))
    case AtVM3 => Silent(st.Store(b).AvatarTo(AtVM4))
    case AtVM4 => FillArea(env, st, b)
    case AtV => Command(env, st, b)
    case AtEsc => Escape(env, st, b)
    case AtCsi => Bracket(env, st, b)
    case AtCsiParam => Parameter(env, st, b)
    case AtDump => Dump(env, st)
  }

  /** A 1-based coordinate as a 0-based one. */
  function Less(b: byte): byte {
    if b == 0 then 0 else b - 1
  }

  function PcToCurses(c: int): Color {
    match c
    case 0 => Black
    case 1 => Blue
    case 2 => Green
    case 3 => Cyan
    case 4 => Red
    case 5 => Magenta
    case 6 => Yellow
    case _ => White
  }

  /** avatar_set_color(): a CGA attribute byte. */
  function PcColor(b: byte): Attr {
    Attr(PcToCurses(b % 8), PcToCurses(b / 16 % 8), b / 8 % 2 == 1, false, false, b / 128 == 1, false)
  }

  function Ground(env: Env, st: State, b: byte): Result {
    if b == ESC then Silent(st.Store(b).AvatarTo(AtEsc))
    else if b == 0x16 then Silent(st.Store(b).AvatarTo(AtV))
    else if b == 0x0C then
      Silent(st.(d := st.d.Emit(FormFeed).(color := env.Text())).AvatarClear())
    else if b == 0x19 then Silent(st.Store(b).AvatarTo(AtY1))
    else if IsControl(b) then Silent(st.(d := Control(env, st.d, b)))
    else Result(st, OneChar, env.glyph(b))
  }

  /** The rest of a run: control characters at once, printable ones a call at a time. */
  function EmitRun(env: Env, st: State): Result
    decreases st.avatar.yCount
  {
    var c := st.avatar.yChar;
    if st.avatar.yCount == 0 then
      Silent(st.AvatarClearKeepInsert())
    else
      var less := st.(avatar := st.avatar.(yCount := st.avatar.yCount - 1));
      if IsControl(c) then EmitRun(env, less.(d := Control(env, st.d, c)))
      else Result(less, ManyChars, env.glyph(c))
  }

  /** ^V^J and ^V^K, with the last of their five operands. */
  function ScrollRectangle(env: Env, st: State, b: byte): Result {
    var v := st.avatar;
    if v.lines == 0 || v.lines > env.rows then
      Silent(st.(avatar := v.(right := b)).Show(EraseScreen(0, 0, env.rows - 1, env.columns - 1)).AvatarClear())
    else
      var upper, left, lower, right := LessInt(v.upper), LessInt(v.left), LessInt(v.lower), LessInt(b);
      var moved := st.(avatar := v.(upper := upper, left := left, lower := lower, right := right));
      Silent(moved.Show(if v.scrollUp then RectangleUp(upper, left, lower, right, v.lines)
                        else RectangleDown(upper, left, lower, right, v.lines)).AvatarClear())
  }

  function LessInt(x: int): int {
    if x > 0 then x - 1 else x
  }

  /** One byte of the ^V^Y pattern.  The source has room for one byte more than the pattern. */
  function CapturePattern(st: State, b: byte): Result {
    var kept := st.Store(b);
    var v := kept.avatar;
    if |v.pattern| > v.patternSize then Silent(kept.(fault := true))
    else
      var more := v.(pattern := v.pattern + [b]);
      Silent(kept.(avatar := if |more.pattern| == v.patternSize then more.(scan := AtVY3) else more))
  }

  function Times(pattern: seq<byte>, count: nat): seq<byte>
    decreases count
  {
    if count == 0 then [] else Times(pattern, count - 1) + pattern
  }

  /** The count of a ^V^Y: everything is handed to the dispatcher to be run again. */
  function RepeatPattern(st: State, b: byte): Result {
    var ready := st.(repeat := Times(st.avatar.pattern, b),
                     avatar := st.avatar.(yCount := 0, pattern := [], scan := AtNone));
    Result(ready.AvatarClearKeepInsert(), RepeatState, 1)
  }

  /** ^V^L and ^V^M, with the last of their operands: a rectangle below and right of the cursor. */
  function FillArea(env: Env, st: State, b: byte): Result {
    if st.n < 5 then Silent(st.(fault := true)) else
    var x, y := env.cursorX(st.d.trace), env.cursorY(st.d.trace);
    var filled := FillLines(env, st.d, st.Cell(2), st.Cell(3), st.Cell(4), b);
    Silent(st.(d := filled.Emit(CursorPosition(y, x))).AvatarClear())
  }

  function FillLines(env: Env, d: Display, fill: byte, attr: byte, width: byte, lines: nat): Display
    decreases lines
  {
    if lines == 0 then d else FillLine(env, FillLines(env, d, fill, attr, width, lines - 1), fill, attr, width)
  }

  /** One line of it: the colour lasts for the line only, and the cursor stays off the line below the screen. */
  function FillLine(env: Env, d: Display, fill: byte, attr: byte, width: byte): Display {
    var x := env.cursorX(d.trace);
    var drawn := d.Emit(Event.FillLine(x, x + width, fill, PcColor(attr)));
    if env.cursorY(drawn.trace) <= env.rows - 1 then drawn.Emit(CursorDown(1)) else drawn
  }

  /** The byte after ^V. */
  function Command(env: Env, st: State, b: byte): Result {
    var d := st.d;
    match b
    case 0x01 => Silent(st.Store(b).AvatarTo(AtA1))
    case 0x02 => Silent(st.(d := d.(color := d.color.(blink := true))).AvatarClear())
    case 0x03 => Silent(st.Show(CursorUp(1)).AvatarClear())
    case 0x04 => Silent(st.Show(CursorDown(1)).AvatarClear())
    case 0x05 => Silent(st.Show(CursorLeft(1)).AvatarClear())
    case 0x06 => Silent(st.Show(CursorRight(1)).AvatarClear())
    case 0x07 => Silent(st.Show(EraseLine(env.cursorX(d.trace), env.columns - 1)).AvatarClear())
    case 0x08 => Silent(st.Store(b).AvatarTo(AtH1))
    case 0x09 => var clear := st.AvatarClear();
                 Silent(clear.(d := clear.d.(insert := true)))
    case 0x0A => Silent(ScrollBegins(st, b, true))
    case 0x0B => Silent(ScrollBegins(st, b, false))
    case 0x0C => Silent(st.Store(b).Store(0x20).AvatarTo(AtVM2))
    case 0x0D => Silent(st.Store(b).AvatarTo(AtVM1))
    case 0x0E => Silent(st.Show(DeleteCharacter(1)).AvatarClear())
    case 0x10 => Silent(st.AvatarClear())
    case 0x19 => Silent(st.Store(b).AvatarTo(AtVY1))
    case _ => Rejected(env, st)
  }

  function ScrollBegins(st: State, b: byte, up: bool): State {
    st.(avatar := st.avatar.(scrollUp := up)).Store(b).Store(0x20).AvatarTo(AtJK1)
  }

  function Escape(env: Env, st: State, b: byte): Result {
    var kept := st.Store(b);
    if b == '[' as int && env.avatarColor then Silent(kept.AvatarTo(AtCsi)) else Rejected(env, kept)
  }

  function Bracket(env: Env, st: State, b: byte): Result {
    var kept := st.Store(b);
    if IsDigit(b) then
      Silent(kept.(avatar := kept.avatar.(count := if kept.n == 0 then 0 else kept.n - 1, scan := AtCsiParam)))
    else if b == 'm' as int then
      Silent(kept.(d := kept.d.(color := env.Text())).AvatarClear())
    else
      Rejected(env, kept)
  }

  /** The parameters of an SGR, which AVATAR reads itself when its colour option is on. */
  function Parameter(env: Env, st: State, b: byte): Result {
    var kept := st.Store(b);
    if IsDigit(b) || b == ';' as int then Silent(kept)
    else if b == 'm' as int then
      var sgr := Csi.AnsiColor(env, kept.buf, kept.avatar.count, kept.avatar.attributes, kept.d.color);
      var after := kept.(avatar := kept.avatar.(attributes := sgr.pen));
      if sgr.ok then Silent(after.(d := after.d.(color := sgr.pen)).AvatarClear()) else Rejected(env, after)
    else
      Rejected(env, kept)
  }

  /** No AVATAR sequence begins like this: ansi() gets it, or it is printed. */
  function Rejected(env: Env, st: State): Result {
    if st.fault then Silent(st)
    else if env.avatarFallback then
      Relay(env, st.(avatar := st.avatar.(scan := AtFallback, relay := st.buf[..Min(st.n, |st.buf|)], relayed := 0),
                     n := 0, i := 0))
    else
      var dumping := st.AvatarTo(AtDump);
      var ch := env.glyph(st.Cell(st.i));
      if st.n == 1 then Result(dumping.(n := 0, i := 0), OneChar, ch)
      else Result(dumping.(i := st.i + 1), ManyChars, ch)
  }

  function Min(a: nat, b: nat): nat {
    if a < b then a else b
  }

  /** A byte that arrives while ansi() is in charge. */
  function FallbackByte(env: Env, st: State, b: byte): Result {
    Relay(env, if st.avatar.relay == [] then st.(avatar := st.avatar.(relay := [b])) else st)
  }

  /** Hand over bytes until ansi() answers or there are none left. */
  function Relay(env: Env, st: State): Result
    decreases |st.avatar.relay| - st.avatar.relayed
  {
    if st.avatar.relayed >= |st.avatar.relay| then
      Silent(st.(fault := true))
    else
      var r := Ansi.Step(env, st, st.avatar.relay[st.avatar.relayed]);
      var scan := match r.status
                  case NoCharYet => AtFallback
                  case ManyChars => AtDump
                  case _ => AtNone;
      var next := st.avatar.relayed + 1;
      if next == |st.avatar.relay| then
        r.(st := r.st.(avatar := st.avatar.(scan := scan, relay := [], relayed := 0)))
      else
        var on := r.st.(avatar := st.avatar.(scan := scan, relayed := next));
        if r.status == NoCharYet && !on.fault then Relay(env, on) else r.(st := on)
  }

  /** Printing what was not understood. */
  function Dump(env: Env, st: State): Result {
    if st.n == 0 then
      Silent(st.(fault := true))
    else
      var ch := env.glyph(st.Cell(st.i));
      if st.i + 1 == st.n then Result(st.Wipe().AvatarTo(AtNone), OneChar, ch)
      else Result(st.(i := st.i + 1), ManyChars, ch)
  }
}
