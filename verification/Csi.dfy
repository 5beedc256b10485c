/**
 The parameter parsers of source/ansi.c, over the bytes of the shared buffer.
 A parser starts at a cell index and reads up to the first zero cell.
 */
module Csi {
  import opened Display

  function Cell(buf: seq<byte>, k: nat): byte {
    if k < |buf| then buf[k] else 0
  }

  /** atoi() on a string of digits. */
  function Value(digits: seq<byte>): (v: int)
    ensures (forall c | c in digits :: IsDigit(c)) ==> 0 <= v
  {
    if digits == [] then 0
    else
      var front, last := digits[..|digits| - 1], digits[|digits| - 1];
      assert last in digits && forall c | c in front :: c in digits;
      Value(front) * 10 + (last as int - 0x30)
  }

  /** How many digits start at `at`, counting no more than `limit`. */
  function DigitCount(buf: seq<byte>, at: nat, limit: nat): (k: nat)
    ensures k <= limit
    ensures forall j | at <= j < at + k :: j < |buf| && IsDigit(buf[j])
    ensures k < limit ==> !IsDigit(Cell(buf, at + k))
    decreases limit
  {
    if limit == 0 || !IsDigit(Cell(buf, at)) then 0 else 1 + DigitCount(buf, at + 1, limit - 1)
  }

  /** A number, or -1, and the cell after what was read. */
  datatype Number = Number(value: int, end: nat)

  /** ansi_ps(): one to six digits. */
  function Ps(buf: seq<byte>, at: nat): (r: Number)
    ensures at <= r.end <= at + 6 && -1 <= r.value
    ensures r.value != -1 ==> at < r.end && !IsDigit(Cell(buf, r.end))
    ensures r.end == at || r.end <= |buf|
  {
    var k := DigitCount(buf, at, 6);
    if k == 0 || IsDigit(Cell(buf, at + k)) then Number(-1, at + k) else Number(Value(buf[at..at + k]), at + k)
  }

  datatype Position = BadPosition | Position(row: int, column: int)

  /** ansi_position(): the row, which may be left out only if the column is left out too. */
  function ParsePosition(buf: seq<byte>, at: nat): Position {
    if Cell(buf, at) == ';' as int then
      ParseColumn(buf, at + 1, 0)
    else
      var ps := Ps(buf, at);
      if ps.value == -1 then BadPosition
      else ParseColumn(buf, ps.end, if ps.value < 1 then 0 else ps.value - 1)
  }

  /** The rest of it; one cell is skipped before looking for the end. */
  function ParseColumn(buf: seq<byte>, at: nat, row: int): Position {
    if Cell(buf, at) == 0 then
      (if Cell(buf, at + 1) == 0 then Position(row, 0) else BadPosition)
    else if Cell(buf, at) != ';' as int then
      BadPosition
    else
      var ps := Ps(buf, at + 1);
      if ps.value == -1 || Cell(buf, ps.end + 1) != 0 then BadPosition
      else Position(row, if ps.value < 1 then 0 else ps.value - 1)
  }

  /** The parsers that take exactly one number: the number less `bias`, or -1 if it is not there or too small. */
  function ParseOne(buf: seq<byte>, at: nat, bias: int): (r: int)
    requires 0 <= bias
    ensures -1 <= r
  {
    var ps := Ps(buf, at);
    if ps.value < bias then -1
    else if Cell(buf, ps.end) == 0 then ps.value - bias
    else if Cell(buf, ps.end) == ';' as int && Cell(buf, ps.end + 2) == 0 then ps.value - bias
    else -1
  }

  /** One SGR parameter, applied to the attributes and colours collected so far. */
  function SgrStep(env: Env, pen: Attr, ps: int): Attr {
    match ps
    case 0 => env.Text()
    case 1 => pen.(bold := true)
    case 2 => pen.(dim := true)
    case 4 => pen.(underline := true)
    case 5 => pen.(blink := true)
    case 7 => pen.(reverse := true)
    case 21 => pen.(dim := false, bold := false)
    case 22 => pen.(dim := false, bold := false)
    case 24 => pen.(underline := false)
    case 25 => pen.(blink := false)
    case 27 => pen.(reverse := false)
    case 30 => pen.(fg := Black)
    case 31 => pen.(fg := Red)
    case 32 => pen.(fg := Green)
    case 33 => pen.(fg := Yellow)
    case 34 => pen.(fg := Blue)
    case 35 => pen.(fg := Magenta)
    case 36 => pen.(fg := Cyan)
    case 37 => pen.(fg := White)
    case 38 => pen.(fg := env.textFg, bold := pen.bold || env.textBold, underline := true)
    case 39 => pen.(fg := env.textFg, bold := pen.bold || env.textBold, underline := false)
    case 40 => pen.(bg := Black)
    case 41 => pen.(bg := Red)
    case 42 => pen.(bg := Green)
    case 43 => pen.(bg := Yellow)
    case 44 => pen.(bg := Blue)
    case 45 => pen.(bg := Magenta)
    case 46 => pen.(bg := Cyan)
    case 47 => pen.(bg := White)
    case 49 => pen.(bg := env.textBg, underline := false)
    case _ => pen
  }

  /** What ansi_color() answers, and what it leaves in its output attribute. */
  datatype Sgr = Sgr(ok: bool, pen: Attr)

  /** ansi_color(), once the colour is split from the attributes. */
  function ParseSgr(env: Env, buf: seq<byte>, at: nat, pen: Attr): Sgr
    decreases |buf| - at
  {
    var ps := Ps(buf, at);
    if ps.value == -1 then Sgr(false, pen.(fg := Black, bg := Black))
    else
      var next := SgrStep(env, pen, ps.value);
      if Cell(buf, ps.end) != ';' as int then Sgr(true, next)
      else if ps.end + 1 >= |buf| then Sgr(false, next.(fg := Black, bg := Black))
      else ParseSgr(env, buf, ps.end + 1, next)
  }

  /** ansi_color(): attributes from `attributes`, colours from the colour in force. */
  function AnsiColor(env: Env, buf: seq<byte>, at: nat, attributes: Attr, current: Attr): Sgr {
    ParseSgr(env, buf, at, attributes.(fg := current.fg, bg := current.bg))
  }
}
