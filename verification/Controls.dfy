/** What a single byte means to the screen, be it printable or a control character, under either emulation. */
module Controls {
  import opened Display

  const ENQ: byte := 0x05
  const BEL: byte := 0x07
  const BS: byte := 0x08
  const HT: byte := 0x09
  const VT: byte := 0x0B
  const FF: byte := 0x0C

  /** The bytes that the code page gives a glyph. */
  predicate IsPrintable(b: byte) { 0x20 <= b <= 0x7E || 0x80 <= b }

  /** Eight control characters are obeyed; the others show their glyph in code page 437. */
  function ControlMeaning(env: Env, d: Display, c: byte): Display {
    if c == CR then d.Emit(CarriageReturn)
    else if c == LF || c == VT then d.Emit(LineFeed)
    else if c == FF then d.Emit(FormFeed)
    else if c == BS then d.Emit(CursorLeft(1))
    else if c == HT then d.Emit(Tab(80, d.color, d.insert))
    else if c == BEL then d.Emit(Beep)
    else if c == ENQ then d.Emit(Answerback)
    else d.Emit(Event.Print(env.cp437(c), d.color, d.insert))
  }

  /** generic_handle_control_char() does what they mean. */
  lemma ControlIsMeant(env: Env, d: Display, c: byte)
    ensures Control(env, d, c) == ControlMeaning(env, d, c)
    ensures IsControl(c) <==> !IsPrintable(c)
  {
  }
}
