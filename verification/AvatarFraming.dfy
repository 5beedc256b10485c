/**
 AVATAR command by command: what each command means for the display, and the proof that the byte stream is
 always cut into commands at the right places.
 */
module AvatarFraming {
  import opened Display
  import opened Machine
  import opened Invariant
  import opened Console
  import opened Controls
  import Ansi
  import Avatar
  import Sgr

  datatype Command =
    | Plain(c: byte)                                    // any byte that begins no command
    | ClearScreen                                       // ^L
    | Repeat(c: byte, count: byte)                      // ^Y
    | SetColor(attr: byte)                              // ^V^A
    | Blink                                             // ^V^B
    | Up | Down | Left | Right                          // ^V^C to ^V^F
    | EraseToEnd                                        // ^V^G
    | MoveTo(row: byte, column: byte)                   // ^V^H
    | InsertOn                                          // ^V^I
    | Scroll(up: bool, lines: byte, top: byte, left: byte, bottom: byte, right: byte)  // ^V^J, ^V^K
    | ClearArea(attr: byte, width: byte, height: byte)  // ^V^L
    | FillArea(fill: byte, attr: byte, width: byte, height: byte)  // ^V^M
    | DeleteChar                                        // ^V^N
    | InsertOff                                         // ^V^P
    | Pattern(pattern: seq<byte>, count: byte)          // ^V^Y

  /** The bytes that begin no AVATAR command. */
  predicate IsPlain(b: byte) { b !in {ESC, 0x16, 0x0C, 0x19} }

  predicate ValidCommand(c: Command) {
    match c
    case Plain(b) => IsPlain(b)
    case Pattern(p, _) => 0 < |p| < 256 && forall b | b in p :: IsPlain(b)
    case _ => true
  }

  function Encode(c: Command): seq<byte>
    requires ValidCommand(c)
  {
    match c
    case Plain(b) => [b]
    case ClearScreen => [0x0C]
    case Repeat(b, count) => [0x19, b, count]
    case SetColor(attr) => [0x16, 0x01, attr]
    case Blink => [0x16, 0x02]
    case Up => [0x16, 0x03]
    case Down => [0x16, 0x04]
    case Left => [0x16, 0x05]
    case Right => [0x16, 0x06]
    case EraseToEnd => [0x16, 0x07]
    case MoveTo(row, column) => [0x16, 0x08, row, column]
    case InsertOn => [0x16, 0x09]
    case Scroll(up, lines, top, left, bottom, right) =>
      [0x16, if up then 0x0A else 0x0B, lines, top, left, bottom, right]
    case ClearArea(attr, width, height) => [0x16, 0x0C, attr, width, height]
    case FillArea(fill, attr, width, height) => [0x16, 0x0D, fill, attr, width, height]
    case DeleteChar => [0x16, 0x0E]
    case InsertOff => [0x16, 0x10]
    case Pattern(p, count) => [0x16, 0x19, |p|] + p + [count]
  }

  function EncodeAll(cs: seq<Command>): seq<byte>
    requires forall c | c in cs :: ValidCommand(c)
  {
    if cs == [] then [] else Encode(cs[0]) + EncodeAll(cs[1..])
  }

  /** A byte shown or obeyed on its own. */
  function PlainMeaning(env: Env, d: Display, c: byte): Display {
    if IsPrintable(c) then d.Put(env.glyph(c)) else ControlMeaning(env, d, c)
  }

  /** The same byte some number of times. */
  function RunMeaning(env: Env, d: Display, c: byte, count: nat): Display
    decreases count
  {
    if count == 0 then d else RunMeaning(env, PlainMeaning(env, d, c), c, count - 1)
  }

  /** A byte of a repeated pattern: its glyph is taken for a byte and mapped once more. */
  function ReplayedMeaning(env: Env, d: Display, c: byte): Display {
    if IsPrintable(c) then d.Put(env.glyph(env.glyph(c) % 256)) else ControlMeaning(env, d, c)
  }

  function AllReplayed(env: Env, d: Display, bytes: seq<byte>): Display
    decreases bytes
  {
    if bytes == [] then d else AllReplayed(env, ReplayedMeaning(env, d, bytes[0]), bytes[1..])
  }

  function PatternTimes(p: seq<byte>, count: nat): seq<byte>
    requires p != []
  {
    seq(|p| * count, k requires 0 <= k < |p| * count => p[k % |p|])
  }

  /** Every command but a run, a pattern and the mode itself leaves insert mode. */
  function Typed(d: Display): Display {
    d.(insert := false)
  }

  function Before(b: byte): int {
    if b == 0 then 0 else b as int - 1
  }

  /** A colour number of the CGA has blue in the place of red. */
  function Mirrored(k: int): int {
    k % 2 * 4 + k / 2 % 2 * 2 + k / 4 % 2
  }

  /** A CGA attribute: three bits of foreground, bold, three bits of background, blink. */
  function CgaColor(attr: byte): Attr {
    Attr(Sgr.Palette(Mirrored(attr % 8)), Sgr.Palette(Mirrored(attr / 16 % 8)),
         attr / 8 % 2 == 1, false, false, 0x80 <= attr, false)
  }

  lemma CgaIsMeant(attr: byte)
    ensures Avatar.PcColor(attr) == CgaColor(attr)
  {
    MirroredPalette(attr % 8);
    MirroredPalette(attr / 16 % 8);
  }

  lemma MirroredPalette(k: int)
    requires 0 <= k < 8
    ensures Avatar.PcToCurses(k) == Sgr.Palette(Mirrored(k))
  {
    assert Mirrored(0) == 0 && Mirrored(1) == 4 && Mirrored(2) == 2 && Mirrored(3) == 6;
    assert Mirrored(4) == 1 && Mirrored(5) == 5 && Mirrored(6) == 3 && Mirrored(7) == 7;
    hide Mirrored;
  }

  /** A line from the cursor on, in its own colour, and the step down to the next unless it is the last on the screen. */
  function LineFilled(env: Env, d: Display, fill: byte, attr: byte, width: byte): Display {
    var x := env.cursorX(d.trace);
    var line := d.trace + [Event.FillLine(x, x + width, fill, CgaColor(attr))];
    d.(trace := if env.cursorY(line) < env.rows then line + [CursorDown(1)] else line)
  }

  /** So many lines, from the top. */
  function Filled(env: Env, d: Display, fill: byte, attr: byte, width: byte, lines: nat): Display
    decreases lines
  {
    if lines == 0 then d else Filled(env, LineFilled(env, d, fill, attr, width), fill, attr, width, lines - 1)
  }

  lemma LineIsMeant(env: Env, d: Display, fill: byte, attr: byte, width: byte)
    ensures Avatar.FillLine(env, d, fill, attr, width) == LineFilled(env, d, fill, attr, width)
  {
    CgaIsMeant(attr);
    hide Avatar.PcColor, CgaColor;
  }

  lemma {:induction false} FilledLast(env: Env, d: Display, fill: byte, attr: byte, width: byte, lines: nat)
    requires 0 < lines
    ensures Filled(env, d, fill, attr, width, lines)
         == LineFilled(env, Filled(env, d, fill, attr, width, lines - 1), fill, attr, width)
    decreases lines
  {
    hide LineFilled;
    if lines > 1 {
      FilledLast(env, LineFilled(env, d, fill, attr, width), fill, attr, width, lines - 1);
    } else {
      assert Filled(env, LineFilled(env, d, fill, attr, width), fill, attr, width, 0) == LineFilled(env, d, fill, attr, width);
      assert Filled(env, d, fill, attr, width, 0) == d;
    }
  }

  /** The loop of ^V^L and ^V^M fills them. */
  lemma {:induction false} AreaIsMeant(env: Env, d: Display, fill: byte, attr: byte, width: byte, lines: nat)
    ensures Avatar.FillLines(env, d, fill, attr, width, lines) == Filled(env, d, fill, attr, width, lines)
    decreases lines
  {
    hide LineFilled, Avatar.FillLine;
    if lines > 0 {
      AreaIsMeant(env, d, fill, attr, width, lines - 1);
      LineIsMeant(env, Filled(env, d, fill, attr, width, lines - 1), fill, attr, width);
      FilledLast(env, d, fill, attr, width, lines);
    }
  }

  function Meaning(env: Env, d: Display, c: Command): Display
    requires ValidCommand(c)
  {
    var x, y := env.cursorX(d.trace), env.cursorY(d.trace);
    match c
    case Plain(b) => PlainMeaning(env, d, b)
    case ClearScreen => Typed(d.Emit(FormFeed)).(color := env.Text())
    case Repeat(b, count) => RunMeaning(env, d, b, count)
    case SetColor(attr) => Typed(d).(color := CgaColor(attr))
    case Blink => Typed(d).(color := d.color.(blink := true))
    case Up => Typed(d.Emit(CursorUp(1)))
    case Down => Typed(d.Emit(CursorDown(1)))
    case Left => Typed(d.Emit(CursorLeft(1)))
    case Right => Typed(d.Emit(CursorRight(1)))
    case EraseToEnd => Typed(d.Emit(EraseLine(x, env.columns - 1)))
    case MoveTo(row, column) => Typed(d.Emit(CursorPosition(Before(row), Before(column))))
    case InsertOn => d.(insert := true)
    case Scroll(up, lines, top, left, bottom, right) =>
      Typed(d.Emit(
        if lines == 0 || lines as int > env.rows then EraseScreen(0, 0, env.rows - 1, env.columns - 1)
        else if up then RectangleUp(Before(top), Before(left), Before(bottom), Before(right), lines)
        else RectangleDown(Before(top), Before(left), Before(bottom), Before(right), lines)))
    case ClearArea(attr, width, height) =>
      Typed(Filled(env, d, 0x20, attr, width, height).Emit(CursorPosition(y, x)))
    case FillArea(fill, attr, width, height) =>
      Typed(Filled(env, d, fill, attr, width, height).Emit(CursorPosition(y, x)))
    case DeleteChar => Typed(d.Emit(DeleteCharacter(1)))
    case InsertOff => Typed(d)
    case Pattern(p, count) => AllReplayed(env, d, PatternTimes(p, count))
  }

  function MeaningAll(env: Env, d: Display, cs: seq<Command>): Display
    requires forall c | c in cs :: ValidCommand(c)
    decreases cs
  {
    if cs == [] then d else MeaningAll(env, Meaning(env, d, cs[0]), cs[1..])
  }

  /** Between two commands. */
  predicate Idle(env: Env, st: State) {
    && env.emulation == EmulateAvatar && Inv(env, st) && !st.fault
    && st.last != ManyChars && st.avatar.scan == AtNone && st.repeat == []
  }

  /** Running one command leaves the display it means, and everything else as between commands. */
  predicate Ran(env: Env, st: State, r: State, d: Display, bytes: nat) {
    Idle(env, r) && r.d == d && r.received == st.received + bytes
  }

  // ------------------------------------------------------------- single bytes

  /** The state after a byte that prints nothing. */
  function After(env: Env, st: State, b: byte): State {
    Avatar.Step(env, st.(received := st.received + 1), b).st.(last := NoCharYet)
  }

  lemma SilentByte(env: Env, st: State, b: byte)
    requires env.emulation == EmulateAvatar && Inv(env, st) && !st.fault && st.last != ManyChars && st.n < 127
    requires var r := Avatar.Step(env, st.(received := st.received + 1), b);
             r.status == NoCharYet && !r.st.fault
    ensures ConsoleByte(env, st, b) == After(env, st, b)
  {
    hide Avatar.Step, Inv;
  }

  lemma PrintedByte(env: Env, st: State, b: byte)
    requires env.emulation == EmulateAvatar && Inv(env, st) && !st.fault && st.last != ManyChars && st.n < 127
    requires var r := Avatar.Step(env, st.(received := st.received + 1), b);
             r.status == OneChar && !r.st.fault
    ensures var r := Avatar.Step(env, st.(received := st.received + 1), b);
            ConsoleByte(env, st, b) == r.st.(last := OneChar, d := r.st.d.Put(r.ch))
  {
    hide Avatar.Step, Inv;
  }

  lemma PlainRuns(env: Env, st: State, c: byte)
    requires Idle(env, st) && IsPlain(c)
    ensures Ran(env, st, ConsoleByte(env, st, c), PlainMeaning(env, st.d, c), 1)
  {
    hide ConsoleByte, ControlMeaning, Control;
    ControlIsMeant(env, st.d, c);
    if IsControl(c) {
      SilentByte(env, st, c);
    } else {
      PrintedByte(env, st, c);
    }
  }

  lemma ClearScreenRuns(env: Env, st: State)
    requires Idle(env, st)
    ensures Ran(env, st, ConsoleByte(env, st, 0x0C), Meaning(env, st.d, ClearScreen), 1)
  {
    hide ConsoleByte;
    SilentByte(env, st, 0x0C);
  }

  /** Inside a command whose operands so far are in the buffer. */
  predicate Inside(env: Env, st: State, r: State, scan: AvatarScan, bytes: nat) {
    && env.emulation == EmulateAvatar && Inv(env, r) && !r.fault && r.last == NoCharYet && r.repeat == []
    && r.avatar.scan == scan && r.d == st.d && r.received == st.received + bytes && r.n == Held(scan)
  }

  lemma LeadRuns(env: Env, st: State) returns (r: State)
    requires Idle(env, st)
    ensures r == ConsoleByte(env, st, 0x16) && Inside(env, st, r, AtV, 1)
  {
    hide ConsoleByte;
    SilentByte(env, st, 0x16);
    r := ConsoleByte(env, st, 0x16);
  }

  /** ^V and one more byte. */
  predicate IsShort(c: Command) {
    c.Blink? || c.Up? || c.Down? || c.Left? || c.Right? || c.EraseToEnd? || c.InsertOn? || c.DeleteChar? || c.InsertOff?
  }

  lemma ShortRuns(env: Env, st: State, c: Command)
    requires Idle(env, st) && IsShort(c)
    ensures var r := ConsoleByte(env, st, 0x16);
            Inv(env, r) && !r.fault && Ran(env, st, ConsoleByte(env, r, Encode(c)[1]), Meaning(env, st.d, c), 2)
  {
    hide ConsoleByte;
    var r := LeadRuns(env, st);
    SilentByte(env, r, Encode(c)[1]);
  }

  /** The operands that are only stored, and where they are kept. */
  predicate IsStored(scan: AvatarScan, b: byte) {
    || (scan == AtV && b in {0x01, 0x08, 0x0A, 0x0B, 0x0C, 0x0D, 0x19})
    || scan in {AtH1, AtY1, AtVM1, AtVM2, AtVM3, AtJK1, AtJK2, AtJK3, AtJK4}
  }

  function StoredIn(v: AvatarVars, b: byte): AvatarVars
    requires IsStored(v.scan, b)
  {
    match v.scan
    case AtV => (match b
                 case 0x01 => v.(scan := AtA1)
                 case 0x08 => v.(scan := AtH1)
                 case 0x0A => v.(scan := AtJK1, scrollUp := true)
                 case 0x0B => v.(scan := AtJK1, scrollUp := false)
                 case 0x0C => v.(scan := AtVM2)
                 case 0x0D => v.(scan := AtVM1)
                 case _ => v.(scan := AtVY1))
    case AtH1 => v.(scan := AtH2)
    case AtY1 => v.(scan := AtY2, yChar := b)
    case AtVM1 => v.(scan := AtVM2)
    case AtVM2 => v.(scan := AtVM3)
    case AtVM3 => v.(scan := AtVM4)
    case AtJK1 => v.(scan := AtJK2, lines := b)
    case AtJK2 => v.(scan := AtJK3, upper := b)
    case AtJK3 => v.(scan := AtJK4, left := b)
    case _ => v.(scan := AtJK5, lower := b)
  }

  /** The buffer after it; ^V^J, ^V^K and ^V^L also leave a blank. */
  function StoredCells(at: State, b: byte): seq<byte>
    requires at.n + 1 < |at.buf|
  {
    var one := at.buf[at.n := b];
    if at.avatar.scan == AtV && b in {0x0A, 0x0B, 0x0C} then one[at.n + 1 := 0x20] else one
  }

  lemma StoredStep(env: Env, at: State, b: byte)
    requires Inv(env, at) && env.emulation == EmulateAvatar && !at.fault && at.n == Held(at.avatar.scan)
    requires IsStored(at.avatar.scan, b)
    ensures var r := Avatar.Step(env, at, b);
            && r.status == NoCharYet
            && r.st == at.(buf := StoredCells(at, b), n := Held(StoredIn(at.avatar, b).scan), avatar := StoredIn(at.avatar, b))
  {
    hide Avatar.Rejected, Avatar.EmitRun, Avatar.Relay, Ansi.Step, AvatarOk, AnsiOk;
    HeldIsShort(env, at);
    if at.avatar.scan == AtV {
      assert Avatar.Step(env, at, b) == Avatar.Command(env, at, b);
    }
  }

  lemma HeldIsShort(env: Env, at: State)
    ensures Held(at.avatar.scan) <= 7
  {
  }

  /** An operand that is only stored. */
  lemma OperandRuns(env: Env, st: State, at: State, b: byte, bytes: nat) returns (r: State)
    requires Inside(env, st, at, at.avatar.scan, bytes) && IsStored(at.avatar.scan, b)
    ensures r == ConsoleByte(env, at, b) && r.avatar == StoredIn(at.avatar, b) && Inside(env, st, r, r.avatar.scan, bytes + 1)
    ensures r.buf == StoredCells(at, b)
  {
    hide ConsoleByte, Avatar.Step;
    var counted := at.(received := at.received + 1);
    StoredStep(env, counted, b);
    SilentByte(env, at, b);
    r := ConsoleByte(env, at, b);
  }

  lemma SetColorRuns(env: Env, st: State, attr: byte)
    requires Idle(env, st)
    ensures Ran(env, st, Feed(env, st, [0x16, 0x01, attr]), Meaning(env, st.d, SetColor(attr)), 3)
  {
    hide ConsoleByte, Feed, Avatar.PcColor, CgaColor;
    CgaIsMeant(attr);
    var l := LeadRuns(env, st);
    var a := OperandRuns(env, st, l, 0x01, 1);
    SilentByte(env, a, attr);
    FeedIs(env, st, [0x16, 0x01, attr], 0x16, [0x01, attr]);
    FeedIs(env, l, [0x01, attr], 0x01, [attr]);
    FeedIs(env, a, [attr], attr, []);
  }

  lemma MoveEnds(env: Env, st: State, at: State, row: byte, column: byte)
    requires Inside(env, st, at, AtH2, 3) && at.Cell(2) == row
    ensures Ran(env, st, ConsoleByte(env, at, column), Meaning(env, st.d, MoveTo(row, column)), 4)
  {
    hide ConsoleByte;
    SilentByte(env, at, column);
  }

  lemma MoveToRuns(env: Env, st: State, row: byte, column: byte)
    requires Idle(env, st)
    ensures Ran(env, st, Feed(env, st, [0x16, 0x08, row, column]), Meaning(env, st.d, MoveTo(row, column)), 4)
  {
    hide ConsoleByte, Feed, Ran, Meaning;
    var l := LeadRuns(env, st);
    var h := OperandRuns(env, st, l, 0x08, 1);
    var r := OperandRuns(env, st, h, row, 2);
    MoveEnds(env, st, r, row, column);
    FeedIs(env, st, [0x16, 0x08, row, column], 0x16, [0x08, row, column]);
    FeedIs(env, l, [0x08, row, column], 0x08, [row, column]);
    FeedIs(env, h, [row, column], row, [column]);
    FeedIs(env, r, [column], column, []);
  }

  /** The last operand of a scroll. */
  lemma ScrollEnds(env: Env, st: State, at: State, c: Command)
    requires c.Scroll? && Inside(env, st, at, AtJK5, 6)
    requires at.avatar.scrollUp == c.up && at.avatar.lines == c.lines as int
    requires at.avatar.upper == c.top as int && at.avatar.left == c.left as int && at.avatar.lower == c.bottom as int
    ensures Ran(env, st, ConsoleByte(env, at, c.right), Meaning(env, st.d, c), 7)
  {
    hide ConsoleByte;
    SilentByte(env, at, c.right);
  }

  /** The four operands before it. */
  lemma ScrollOperands(env: Env, st: State, at: State, c: Command) returns (r: State)
    requires c.Scroll? && Inside(env, st, at, AtJK1, 2) && at.avatar.scrollUp == c.up
    ensures Inside(env, st, r, AtJK5, 6)
    ensures r.avatar.scrollUp == c.up && r.avatar.lines == c.lines as int
    ensures r.avatar.upper == c.top as int && r.avatar.left == c.left as int && r.avatar.lower == c.bottom as int
    ensures Feed(env, at, [c.lines, c.top, c.left, c.bottom, c.right]) == ConsoleByte(env, r, c.right)
  {
    hide ConsoleByte, Feed, Inv;
    var j2 := OperandRuns(env, st, at, c.lines, 2);
    var j3 := OperandRuns(env, st, j2, c.top, 3);
    var j4 := OperandRuns(env, st, j3, c.left, 4);
    r := OperandRuns(env, st, j4, c.bottom, 5);
    var s1, s2, s3 := [c.right], [c.bottom, c.right], [c.left, c.bottom, c.right];
    FeedIs(env, at, [c.lines, c.top, c.left, c.bottom, c.right], c.lines, [c.top] + s3);
    FeedIs(env, j2, [c.top] + s3, c.top, s3);
    FeedIs(env, j3, s3, c.left, s2);
    FeedIs(env, j4, s2, c.bottom, s1);
    FeedIs(env, r, s1, c.right, []);
  }

  lemma ScrollRuns(env: Env, st: State, c: Command)
    requires Idle(env, st) && c.Scroll?
    ensures Ran(env, st, Feed(env, st, Encode(c)), Meaning(env, st.d, c), 7)
  {
    hide ConsoleByte, Feed, Meaning, Ran, Inv;
    var lead: byte := if c.up then 0x0A else 0x0B;
    var l := LeadRuns(env, st);
    var j1 := OperandRuns(env, st, l, lead, 1);
    var j5 := ScrollOperands(env, st, j1, c);
    ScrollEnds(env, st, j5, c);
    var operands := [c.lines, c.top, c.left, c.bottom, c.right];
    FeedIs(env, st, Encode(c), 0x16, [lead] + operands);
    FeedIs(env, l, [lead] + operands, lead, operands);
  }

  /** The last operand of ^V^L and ^V^M. */
  lemma AreaEnds(env: Env, st: State, at: State, fill: byte, attr: byte, width: byte, height: byte, bytes: nat)
    requires Inside(env, st, at, AtVM4, bytes)
    requires at.Cell(2) == fill && at.Cell(3) == attr && at.Cell(4) == width
    ensures Ran(env, st, ConsoleByte(env, at, height), Meaning(env, st.d, FillArea(fill, attr, width, height)), bytes + 1)
  {
    hide ConsoleByte, Avatar.FillLines, Filled;
    AreaIsMeant(env, st.d, fill, attr, width, height);
    SilentByte(env, at, height);
  }

  /** The common end of ^V^L and ^V^M: attribute, width and height. */
  lemma AreaRuns(env: Env, st: State, at: State, fill: byte, attr: byte, width: byte, height: byte, bytes: nat)
    requires Inside(env, st, at, AtVM2, bytes) && at.Cell(2) == fill
    ensures var r := Feed(env, at, [attr, width, height]);
            Ran(env, st, r, Meaning(env, st.d, FillArea(fill, attr, width, height)), bytes + 3)
  {
    hide ConsoleByte, Feed, Meaning, Ran, Idle;
    var m3 := OperandRuns(env, st, at, attr, bytes);
    var m4 := OperandRuns(env, st, m3, width, bytes + 1);
    AreaEnds(env, st, m4, fill, attr, width, height, bytes + 2);
    FeedIs(env, at, [attr, width, height], attr, [width, height]);
    FeedIs(env, m3, [width, height], width, [height]);
    FeedIs(env, m4, [height], height, []);
  }

  lemma ClearAreaRuns(env: Env, st: State, c: Command)
    requires Idle(env, st) && c.ClearArea?
    ensures Ran(env, st, Feed(env, st, Encode(c)), Meaning(env, st.d, c), 5)
  {
    hide ConsoleByte, Feed;
    var l := LeadRuns(env, st);
    var m2 := OperandRuns(env, st, l, 0x0C, 1);
    AreaRuns(env, st, m2, 0x20, c.attr, c.width, c.height, 2);
    var operands := [c.attr, c.width, c.height];
    FeedIs(env, st, Encode(c), 0x16, [0x0C] + operands);
    FeedIs(env, l, [0x0C] + operands, 0x0C, operands);
  }

  lemma FillAreaRuns(env: Env, st: State, c: Command)
    requires Idle(env, st) && c.FillArea?
    ensures Ran(env, st, Feed(env, st, Encode(c)), Meaning(env, st.d, c), 6)
  {
    hide ConsoleByte, Feed;
    var l := LeadRuns(env, st);
    var m1 := OperandRuns(env, st, l, 0x0D, 1);
    var m2 := OperandRuns(env, st, m1, c.fill, 2);
    AreaRuns(env, st, m2, c.fill, c.attr, c.width, c.height, 3);
    var operands := [c.attr, c.width, c.height];
    FeedIs(env, st, Encode(c), 0x16, [0x0D, c.fill] + operands);
    FeedIs(env, l, [0x0D, c.fill] + operands, 0x0D, [c.fill] + operands);
    FeedIs(env, m1, [c.fill] + operands, c.fill, operands);
  }

  // ------------------------------------------------------------------- runs

  /** A run in progress. */
  predicate Running(env: Env, s: State) {
    && env.emulation == EmulateAvatar && BufferOk(s) && AnsiOk(s) && AvatarOk(s) && !s.fault
    && s.avatar.scan == AtYEmit && s.repeat == []
  }

  /** Control characters are all obeyed within one call. */
  lemma {:induction false} ControlRun(env: Env, s: State)
    requires IsControl(s.avatar.yChar)
    ensures Avatar.EmitRun(env, s) ==
            Silent(s.(d := RunMeaning(env, s.d, s.avatar.yChar, s.avatar.yCount), avatar := s.avatar.(yCount := 0)).AvatarClearKeepInsert())
    decreases s.avatar.yCount
  {
    ControlIsMeant(env, s.d, s.avatar.yChar);
    hide Control, ControlMeaning;
    if s.avatar.yCount != 0 {
      ControlRun(env, s.(d := Control(env, s.d, s.avatar.yChar), avatar := s.avatar.(yCount := s.avatar.yCount - 1)));
    }
  }

  lemma RunAnswer(env: Env, s: State)
    requires Running(env, s)
    ensures CallKept(env, Noted(Avatar.EmitRun(env, s)))
    ensures Answered(env, Avatar.EmitRun(env, s)) == Noted(Avatar.EmitRun(env, s))
  {
    RunKeeps(env, s);
    RunShrinks(env, s);
  }

  lemma PrintableRun(env: Env, s: State)
    requires !IsControl(s.avatar.yChar) && s.avatar.yCount != 0
    ensures Avatar.EmitRun(env, s) ==
            Result(s.(avatar := s.avatar.(yCount := s.avatar.yCount - 1)), ManyChars, env.glyph(s.avatar.yChar))
  {
  }

  lemma RunEnds(env: Env, s: State)
    requires Running(env, s)
    ensures var r := Noted(Silent(s.AvatarClearKeepInsert()));
            CallKept(env, r) && Idle(env, Drain(env, r)) && Drain(env, r).received == s.received && Drain(env, r).d == s.d
  {
    hide TerminalEmulator;
  }

  lemma DrainPrints(env: Env, r: Result)
    requires CallKept(env, r) && !r.st.fault && r.status == ManyChars
    requires var printed := r.st.(d := r.st.d.Put(r.ch));
             Inv(env, printed) && CallKept(env, TerminalEmulator(env, printed, 0xFF))
    ensures Drain(env, r) == Drain(env, TerminalEmulator(env, r.st.(d := r.st.d.Put(r.ch)), 0xFF))
  {
    hide TerminalEmulator, Inv;
  }

  /** A run shown to its end. */
  predicate RunShown(env: Env, s: State, r: State) {
    Idle(env, r) && r.received == s.received && r.d == RunMeaning(env, s.d, s.avatar.yChar, s.avatar.yCount)
  }

  lemma RunAtOnce(env: Env, s: State)
    requires Running(env, s) && CallKept(env, Noted(Avatar.EmitRun(env, s)))
    requires IsControl(s.avatar.yChar) || s.avatar.yCount == 0
    ensures RunShown(env, s, Drain(env, Noted(Avatar.EmitRun(env, s))))
  {
    hide TerminalEmulator, Drain, CallKept, Idle;
    if IsControl(s.avatar.yChar) {
      ControlRun(env, s);
      RunEnds(env, s.(d := RunMeaning(env, s.d, s.avatar.yChar, s.avatar.yCount), avatar := s.avatar.(yCount := 0)));
    } else {
      RunEnds(env, s);
    }
  }

  /** Calling until the run is over shows it exactly as many times as it says. */
  lemma {:induction false} RunDrains(env: Env, s: State)
    requires Running(env, s) && CallKept(env, Noted(Avatar.EmitRun(env, s)))
    ensures RunShown(env, s, Drain(env, Noted(Avatar.EmitRun(env, s))))
    decreases s.avatar.yCount
  {
    hide TerminalEmulator, Drain, CallKept, Idle, Control, ControlMeaning;
    var c := s.avatar.yChar;
    ControlIsMeant(env, s.d, c);
    if IsControl(c) || s.avatar.yCount == 0 {
      RunAtOnce(env, s);
    } else {
      PrintableRun(env, s);
      hide Avatar.EmitRun;
      var less := s.(avatar := s.avatar.(yCount := s.avatar.yCount - 1));
      var printed := less.(last := ManyChars, d := s.d.Put(env.glyph(c)));
      RunAnswer(env, printed);
      ContinuesRun(env, printed);
      DrainPrints(env, Result(less.(last := ManyChars), ManyChars, env.glyph(c)));
      RunDrains(env, printed);
    }
  }

  lemma ContinuesRun(env: Env, s: State)
    requires Running(env, s) && s.last == ManyChars
    ensures TerminalEmulator(env, s, 0xFF) == Noted(Avatar.EmitRun(env, s))
  {
    hide Avatar.EmitRun;
  }

  lemma RepeatRuns(env: Env, st: State, c: byte, count: byte)
    requires Idle(env, st)
    ensures Ran(env, st, Feed(env, st, [0x19, c, count]), RunMeaning(env, st.d, c, count), 3)
  {
    hide ConsoleByte, Feed, Drain;
    SilentByte(env, st, 0x19);
    var y1 := ConsoleByte(env, st, 0x19);
    var y2 := OperandRuns(env, st, y1, c, 1);
    RunBegins(env, y2, count);
    FeedIs(env, st, [0x19, c, count], 0x19, [c, count]);
    FeedIs(env, y1, [c, count], c, [count]);
    FeedIs(env, y2, [count], count, []);
  }

  lemma RunBegins(env: Env, at: State, count: byte)
    requires env.emulation == EmulateAvatar && Inv(env, at) && !at.fault && at.last == NoCharYet && at.repeat == []
    requires at.avatar.scan == AtY2
    ensures var r := ConsoleByte(env, at, count);
            Idle(env, r) && r.received == at.received + 1 && r.d == RunMeaning(env, at.d, at.avatar.yChar, count)
  {
    hide Drain, Avatar.EmitRun;
    var s := at.(received := at.received + 1, avatar := at.avatar.(yCount := count, scan := AtYEmit));
    RunAnswer(env, s);
    RunDrains(env, s);
  }

  // --------------------------------------------------------------- patterns

  /** In the middle of a ^V^Y: `taken` is what has been captured of a pattern of the given size. */
  predicate Capturing(env: Env, st: State, s: State, taken: seq<byte>, size: nat, bytes: nat) {
    && env.emulation == EmulateAvatar && Inv(env, s) && !s.fault && s.last == NoCharYet && s.repeat == []
    && s.d == st.d && s.received == st.received + bytes
    && s.avatar.scan == (if |taken| == size then AtVY3 else AtVY2)
    && s.avatar.pattern == taken && s.avatar.patternSize == size
  }

  /** The shared buffer may fill up and be thrown away: the capture does not depend on it. */
  lemma CaptureByte(env: Env, st: State, s: State, taken: seq<byte>, size: nat, bytes: nat, b: byte)
    requires Capturing(env, st, s, taken, size, bytes) && |taken| < size
    ensures Capturing(env, st, ConsoleByte(env, s, b), taken + [b], size, bytes + 1)
  {
    var clean := Junk(s).(received := s.received + 1);
    assert Avatar.Step(env, clean, b) == Avatar.CapturePattern(clean, b);
    hide Avatar.Step;
  }

  lemma {:induction false} CaptureRest(env: Env, st: State, s: State, taken: seq<byte>, rest: seq<byte>, bytes: nat, tail: seq<byte>)
    returns (r: State)
    requires Capturing(env, st, s, taken, |taken| + |rest|, bytes)
    ensures Capturing(env, st, r, taken + rest, |taken| + |rest|, bytes + |rest|)
    ensures Feed(env, s, rest + tail) == Feed(env, r, tail)
    decreases rest
  {
    hide ConsoleByte, Feed, Inv;
    if rest == [] {
      assert taken + rest == taken && rest + tail == tail;
      r := s;
    } else {
      CaptureByte(env, st, s, taken, |taken| + |rest|, bytes, rest[0]);
      FeedIs(env, s, rest + tail, rest[0], rest[1..] + tail);
      r := CaptureRest(env, st, ConsoleByte(env, s, rest[0]), taken + [rest[0]], rest[1..], bytes + 1, tail);
      assert taken + [rest[0]] + rest[1..] == taken + rest;
    }
  }

  lemma SizeRuns(env: Env, st: State, at: State, size: byte) returns (r: State)
    requires Inside(env, st, at, AtVY1, 2) && 0 < size
    ensures r == ConsoleByte(env, at, size) && Capturing(env, st, r, [], size, 3)
  {
    hide ConsoleByte;
    SilentByte(env, at, size);
    r := ConsoleByte(env, at, size);
  }

  /** Replaying bytes that begin no command changes the display and nothing else. */
  lemma {:induction false} PlainReplay(env: Env, s: State, bytes: seq<byte>)
    requires env.emulation == EmulateAvatar && !s.fault && s.avatar.scan == AtNone
    requires forall b | b in bytes :: IsPlain(b)
    ensures Replay(env, s, bytes) == s.(d := AllReplayed(env, s.d, bytes))
    decreases bytes
  {
    if bytes != [] {
      var b := bytes[0];
      assert Emulate(env, s, b) == Avatar.Ground(env, s, b);
      assert IsPlain(b);
      ControlIsMeant(env, s.d, b);
      hide Control, ControlMeaning, Avatar.Step, Ansi.Step, Emulate;
      PlainReplay(env, s.(d := ReplayedMeaning(env, s.d, b)), bytes[1..]);
    }
  }

  lemma {:induction false} TimesIsPlain(p: seq<byte>, count: nat)
    requires forall b | b in p :: IsPlain(b)
    ensures forall b | b in Avatar.Times(p, count) :: IsPlain(b)
    decreases count
  {
    if count != 0 {
      TimesIsPlain(p, count - 1);
    }
  }

  /** The buffer of copies, cell by cell. */
  lemma {:induction false} TimesIsPattern(p: seq<byte>, count: nat)
    requires p != []
    ensures Avatar.Times(p, count) == PatternTimes(p, count)
    decreases count
  {
    if count != 0 {
      TimesIsPattern(p, count - 1);
      var front := PatternTimes(p, count - 1);
      assert |p| * count == |p| * (count - 1) + |p|;
      forall k | 0 <= k < |p| * count ensures (front + p)[k] == p[k % |p|] {
        if k >= |front| {
          ModOfLastCopy(k, |p|, count - 1);
        }
      }
    }
  }

  lemma ModOfLastCopy(k: nat, m: nat, q: nat)
    requires 0 < m && m * q <= k < m * q + m
    ensures k % m == k - m * q
  {
    var x, y := k / m, k % m;
    assert k == m * x + y && 0 <= y < m;
    if x < q {
      MulMonotone(m, x + 1, q);
    } else if q < x {
      MulMonotone(m, q + 1, x);
    }
  }

  lemma MulMonotone(m: nat, a: nat, b: nat)
    requires a <= b
    ensures m * a <= m * b && m * (a + 1) == m * a + m
  {
  }

  lemma CountAnswer(env: Env, st: State, s: State, p: seq<byte>, count: byte, bytes: nat)
    requires Capturing(env, st, s, p, |p|, bytes) && p != []
    ensures var r := Avatar.Step(env, Junk(s).(received := s.received + 1), count);
            && r.status == RepeatState && !r.st.fault && r.st.repeat == Avatar.Times(p, count)
            && r.st.avatar.scan == AtNone && r.st.d == st.d && r.st.received == st.received + bytes + 1
            && Idle(env, r.st.(repeat := [], last := NoCharYet))
  {
    var clean := Junk(s).(received := s.received + 1);
    assert Avatar.Step(env, clean, count) == Avatar.RepeatPattern(clean, count);
    hide Avatar.Step, Avatar.Times;
  }

  lemma CountRuns(env: Env, st: State, s: State, p: seq<byte>, count: byte, bytes: nat)
    requires p != [] && Capturing(env, st, s, p, |p|, bytes) && forall b | b in p :: IsPlain(b)
    ensures Ran(env, st, ConsoleByte(env, s, count), AllReplayed(env, st.d, PatternTimes(p, count)), bytes + 1)
  {
    hide Avatar.Step, Replay, Inv, Avatar.Times, PatternTimes, AllReplayed;
    var r := Avatar.Step(env, Junk(s).(received := s.received + 1), count);
    CountAnswer(env, st, s, p, count, bytes);
    TimesIsPattern(p, count);
    TimesIsPlain(p, count);
    PlainReplay(env, r.st, r.st.repeat);
    assert CallIsAnswered(env, s, count, r);
    IdleShown(env, r.st.(repeat := [], last := NoCharYet), AllReplayed(env, st.d, PatternTimes(p, count)));
  }

  /** A fresh byte is answered by the emulator. */
  predicate CallIsAnswered(env: Env, s: State, b: byte, r: Result) {
    TerminalEmulator(env, s, b) == Answered(env, r)
  }

  lemma IdleShown(env: Env, s: State, d: Display)
    requires Idle(env, s)
    ensures Idle(env, s.(d := d))
  {
  }

  lemma PatternRuns(env: Env, st: State, c: Command)
    requires Idle(env, st) && c.Pattern? && ValidCommand(c)
    ensures Ran(env, st, Feed(env, st, Encode(c)), Meaning(env, st.d, c), |Encode(c)|)
  {
    hide ConsoleByte, Feed, Inv, Ran;
    var size: byte := |c.pattern|;
    var l := LeadRuns(env, st);
    var y1 := OperandRuns(env, st, l, 0x19, 1);
    BodyRuns(env, st, y1, c.pattern, c.count);
    var body := [size] + c.pattern + [c.count];
    FeedIs(env, st, Encode(c), 0x16, [0x19] + body);
    FeedIs(env, l, [0x19] + body, 0x19, body);
  }

  /** The length, the pattern and the count. */
  lemma BodyRuns(env: Env, st: State, at: State, p: seq<byte>, count: byte)
    requires Inside(env, st, at, AtVY1, 2) && 0 < |p| < 256 && forall b | b in p :: IsPlain(b)
    ensures Ran(env, st, Feed(env, at, [|p|] + p + [count]), AllReplayed(env, st.d, PatternTimes(p, count)), 4 + |p|)
  {
    hide ConsoleByte, Feed, Inv, Ran;
    var y2 := SizeRuns(env, st, at, |p|);
    var y3 := CaptureRest(env, st, y2, [], p, 3, [count]);
    assert [] + p == p;
    CountRuns(env, st, y3, p, count, 3 + |p|);
    FeedIs(env, at, [|p|] + p + [count], |p|, p + [count]);
    FeedIs(env, y3, [count], count, []);
  }

  // ---------------------------------------------------------- filled areas

  /** How many lines have been filled. */
  function Lines(trace: seq<Event>): nat {
    if trace == [] then 0 else Lines(trace[..|trace| - 1]) + if trace[|trace| - 1].FillLine? then 1 else 0
  }

  /** One line of a rectangle, or the step down to the next one. */
  predicate IsFill(e: Event, fill: byte, attr: byte, width: byte) {
    e == CursorDown(1) ||
    (e.FillLine? && e.to == e.from + width && e.fill == fill && e.color == CgaColor(attr))
  }

  lemma LinesOfMore(trace: seq<Event>, e: Event)
    ensures Lines(trace + [e]) == Lines(trace) + if e.FillLine? then 1 else 0
  {
    assert (trace + [e])[..|trace|] == trace;
  }

  /** So many lines more, and nothing but them; the colour in force and the modes are as they were. */
  predicate AreaShown(d: Display, r: Display, fill: byte, attr: byte, width: byte, lines: nat) {
    && r.color == d.color && r.insert == d.insert && r.lineWrap == d.lineWrap && d.trace <= r.trace
    && Lines(r.trace) == Lines(d.trace) + lines
    && forall k | |d.trace| <= k < |r.trace| :: IsFill(r.trace[k], fill, attr, width)
  }

  lemma FillAdded(d: Display, r: Display, e: Event, fill: byte, attr: byte, width: byte, lines: nat)
    requires AreaShown(d, r, fill, attr, width, lines) && IsFill(e, fill, attr, width)
    ensures AreaShown(d, r.Emit(e), fill, attr, width, lines + if e.FillLine? then 1 else 0)
  {
    hide IsFill, Lines;
    LinesOfMore(r.trace, e);
  }

  lemma LineAdded(env: Env, d: Display, r: Display, fill: byte, attr: byte, width: byte, lines: nat)
    requires AreaShown(d, r, fill, attr, width, lines)
    ensures AreaShown(d, LineFilled(env, r, fill, attr, width), fill, attr, width, lines + 1)
  {
    var x := env.cursorX(r.trace);
    var line := Event.FillLine(x, x + width, fill, CgaColor(attr));
    hide AreaShown;
    FillAdded(d, r, line, fill, attr, width, lines);
    FillAdded(d, r.Emit(line), CursorDown(1), fill, attr, width, lines + 1);
  }

  /** ^V^L and ^V^M fill as many lines as they say, each with its character, colour and width. */
  lemma {:induction false} AreaIsFilled(env: Env, d: Display, fill: byte, attr: byte, width: byte, lines: nat)
    ensures AreaShown(d, Avatar.FillLines(env, d, fill, attr, width, lines), fill, attr, width, lines)
    decreases lines
  {
    AreaIsMeant(env, d, fill, attr, width, lines);
    hide Avatar.FillLines, LineFilled;
    if lines > 0 {
      hide AreaShown, Filled;
      AreaIsFilled(env, d, fill, attr, width, lines - 1);
      AreaIsMeant(env, d, fill, attr, width, lines - 1);
      FilledLast(env, d, fill, attr, width, lines);
      LineAdded(env, d, Filled(env, d, fill, attr, width, lines - 1), fill, attr, width, lines - 1);
    } else {
      assert Filled(env, d, fill, attr, width, 0) == d;
    }
  }

  // -------------------------------------------------------------- the streams

  lemma FeedOne(env: Env, st: State, b: byte)
    requires Inv(env, st) && !st.fault
    ensures Feed(env, st, [b]) == ConsoleByte(env, st, b)
  {
    hide ConsoleByte, Feed;
    FeedIs(env, st, [b], b, []);
  }

  /** One command, whatever it is. */
  lemma CommandRuns(env: Env, st: State, c: Command)
    requires Idle(env, st) && ValidCommand(c)
    ensures Ran(env, st, Feed(env, st, Encode(c)), Meaning(env, st.d, c), |Encode(c)|)
  {
    hide ConsoleByte, Feed, Ran, RunMeaning, AllReplayed, Inv;
    IdleHasInv(env, st);
    match c
    case Plain(b) => PlainRuns(env, st, b); FeedOne(env, st, b);
    case ClearScreen => ClearScreenRuns(env, st); FeedOne(env, st, 0x0C);
    case Repeat(b, count) => RepeatRuns(env, st, b, count);
    case SetColor(attr) => SetColorRuns(env, st, attr);
    case MoveTo(row, column) => MoveToRuns(env, st, row, column);
    case Scroll(_, _, _, _, _, _) => ScrollRuns(env, st, c);
    case ClearArea(_, _, _) => ClearAreaRuns(env, st, c);
    case FillArea(_, _, _, _) => FillAreaRuns(env, st, c);
    case Pattern(_, _) => PatternRuns(env, st, c);
    case _ =>
      ShortRuns(env, st, c);
      FeedIs(env, st, Encode(c), 0x16, [Encode(c)[1]]);
      FeedOne(env, ConsoleByte(env, st, 0x16), Encode(c)[1]);
  }

  lemma IdleHasInv(env: Env, st: State)
    requires Idle(env, st)
    ensures Inv(env, st) && !st.fault
  {
  }

  /** Any list of commands: the console shows what each one means, in order, and nothing else;
      it ends between commands, and it has counted every byte. */
  lemma {:induction false} CommandsRun(env: Env, st: State, cs: seq<Command>)
    requires Idle(env, st) && forall c | c in cs :: ValidCommand(c)
    ensures Ran(env, st, Feed(env, st, EncodeAll(cs)), MeaningAll(env, st.d, cs), |EncodeAll(cs)|)
    decreases cs
  {
    if cs != [] {
      var first, rest := Encode(cs[0]), EncodeAll(cs[1..]);
      var r := Feed(env, st, first);
      CommandRuns(env, st, cs[0]);
      FeedConcat(env, st, first, rest);
      CommandsRun(env, r, cs[1..]);
      hide Meaning, Encode, Feed, Inv;
    }
  }

  function Copies(c: byte, n: nat): seq<Command>
    decreases n
  {
    if n == 0 then [] else [Plain(c)] + Copies(c, n - 1)
  }

  lemma {:induction false} CopiesMean(env: Env, d: Display, c: byte, n: nat)
    requires IsPlain(c)
    ensures forall e | e in Copies(c, n) :: ValidCommand(e)
    ensures MeaningAll(env, d, Copies(c, n)) == RunMeaning(env, d, c, n)
    ensures EncodeAll(Copies(c, n)) == seq(n, _ => c)
    decreases n
  {
    if n != 0 {
      CopiesMean(env, PlainMeaning(env, d, c), c, n - 1);
      assert Copies(c, n)[1..] == Copies(c, n - 1);
      assert seq(n, _ => c) == [c] + seq(n - 1, _ => c);
    }
  }

  /** A run shows exactly what its character shows when sent that many times, and leaves the same mode. */
  lemma RunIsRepetition(env: Env, st: State, c: byte, count: byte)
    requires Idle(env, st) && IsPlain(c)
    ensures Feed(env, st, [0x19, c, count]).d == Feed(env, st, seq(count, _ => c)).d
  {
    hide Feed, Inv;
    CopiesMean(env, st.d, c, count);
    CommandsRun(env, st, Copies(c, count));
    RepeatRuns(env, st, c, count);
  }

  /** The second look-up that the dispatcher does changes nothing for this byte. */
  predicate MapsTwiceAlike(env: Env, b: byte) {
    !IsPrintable(b) || env.glyph(env.glyph(b) % 256) == env.glyph(b)
  }

  function PlainCommands(bytes: seq<byte>): seq<Command> {
    if bytes == [] then [] else [Plain(bytes[0])] + PlainCommands(bytes[1..])
  }

  lemma {:induction false} PlainCommandsEncode(bytes: seq<byte>)
    requires forall b | b in bytes :: IsPlain(b)
    ensures forall e | e in PlainCommands(bytes) :: ValidCommand(e)
    ensures EncodeAll(PlainCommands(bytes)) == bytes
    decreases bytes
  {
    if bytes != [] {
      PlainCommandsEncode(bytes[1..]);
      assert PlainCommands(bytes)[1..] == PlainCommands(bytes[1..]);
    }
  }

  lemma {:induction false} PlainCommandsExtend(env: Env, d: Display, bytes: seq<byte>)
    requires forall e | e in PlainCommands(bytes) :: ValidCommand(e)
    ensures d.trace <= MeaningAll(env, d, PlainCommands(bytes)).trace
    decreases bytes
  {
    if bytes != [] {
      PlainExtends(env, d, bytes[0]);
      hide PlainMeaning;
      var next := PlainMeaning(env, d, bytes[0]);
      assert PlainCommands(bytes)[1..] == PlainCommands(bytes[1..]);
      PlainCommandsExtend(env, next, bytes[1..]);
      assert Meaning(env, d, Plain(bytes[0])) == next;
      assert MeaningAll(env, d, PlainCommands(bytes)) == MeaningAll(env, next, PlainCommands(bytes[1..]));
    }
  }

  lemma PlainExtends(env: Env, d: Display, b: byte)
    ensures d.trace <= PlainMeaning(env, d, b).trace
  {
  }

  lemma {:induction false} ReplayExtends(env: Env, d: Display, bytes: seq<byte>)
    ensures d.trace <= AllReplayed(env, d, bytes).trace
    decreases bytes
  {
    if bytes != [] {
      ReplayExtends(env, ReplayedMeaning(env, d, bytes[0]), bytes[1..]);
    }
  }

  lemma FirstEvent(env: Env, d: Display, b: byte)
    ensures |PlainMeaning(env, d, b).trace| == |ReplayedMeaning(env, d, b).trace| == |d.trace| + 1
    ensures PlainMeaning(env, d, b).trace[|d.trace|] == ReplayedMeaning(env, d, b).trace[|d.trace|] <==> MapsTwiceAlike(env, b)
    ensures MapsTwiceAlike(env, b) ==> PlainMeaning(env, d, b) == ReplayedMeaning(env, d, b)
  {
    if IsPrintable(b) {
      var twice, once := env.glyph(env.glyph(b) % 256), env.glyph(b);
      assert PutEvent(d, twice) == Print(twice, d.color, d.insert) && PutEvent(d, once) == Print(once, d.color, d.insert);
    }
  }

  function PutEvent(d: Display, ch: int): Event {
    d.Put(ch).trace[|d.trace|]
  }

  /** Replayed bytes show what they show when sent, exactly when the second look-up changes none of them. */
  lemma {:induction false} ReplayIsPlain(env: Env, d: Display, bytes: seq<byte>)
    requires forall b | b in bytes :: IsPlain(b)
    requires forall e | e in PlainCommands(bytes) :: ValidCommand(e)
    ensures MeaningAll(env, d, PlainCommands(bytes)) == AllReplayed(env, d, bytes) <==>
            forall b | b in bytes :: MapsTwiceAlike(env, b)
    decreases bytes
  {
    if bytes != [] {
      var b, rest := bytes[0], bytes[1..];
      assert PlainCommands(bytes)[1..] == PlainCommands(rest);
      PlainCommandsEncode(rest);
      PlainCommandsExtend(env, PlainMeaning(env, d, b), rest);
      ReplayExtends(env, ReplayedMeaning(env, d, b), rest);
      FirstEvent(env, d, b);
      ReplayIsPlain(env, PlainMeaning(env, d, b), rest);
      var plain, replayed := MeaningAll(env, d, PlainCommands(bytes)), AllReplayed(env, d, bytes);
      assert plain == MeaningAll(env, PlainMeaning(env, d, b), PlainCommands(rest));
      assert plain.trace[|d.trace|] == PlainMeaning(env, d, b).trace[|d.trace|];
      assert replayed.trace[|d.trace|] == ReplayedMeaning(env, d, b).trace[|d.trace|];
      assert bytes == [b] + rest;
      hide PlainMeaning, ReplayedMeaning, MapsTwiceAlike;
    }
  }

  /** A repeated pattern shows what its copies show exactly when no byte of it is changed by the second look-up. */
  lemma PatternIsRepetition(env: Env, st: State, p: seq<byte>, count: byte)
    requires Idle(env, st) && ValidCommand(Pattern(p, count)) && 0 < count
    ensures Feed(env, st, Encode(Pattern(p, count))).d == Feed(env, st, PatternTimes(p, count)).d <==>
            forall b | b in p :: MapsTwiceAlike(env, b)
  {
    hide Feed, Inv, MapsTwiceAlike;
    var copies := PatternTimes(p, count);
    PatternHasItsBytes(p, count);
    PlainCommandsEncode(copies);
    ReplayIsPlain(env, st.d, copies);
    CommandsRun(env, st, PlainCommands(copies));
    PatternRuns(env, st, Pattern(p, count));
  }

  lemma PatternHasItsBytes(p: seq<byte>, count: nat)
    requires p != [] && 0 < count
    ensures forall b :: b in PatternTimes(p, count) <==> b in p
  {
    var copies := PatternTimes(p, count);
    MulMonotone(|p|, 1, count);
    forall b | b in p ensures b in copies {
      var k :| 0 <= k < |p| && p[k] == b;
      SmallMod(k, |p|);
      assert copies[k] == p[k];
    }
    forall b | b in copies ensures b in p {
      var k :| 0 <= k < |copies| && copies[k] == b;
      assert b == p[k % |p|];
    }
  }

  lemma SmallMod(k: nat, m: nat)
    requires k < m
    ensures k % m == k
  {
  }
}
