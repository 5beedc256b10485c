/**
 ANSI sequences with one number, the answer to an identify request, and the end of ANSI music, from the bytes
 received to what they do.
 */
module OneNumber {
  import opened Display
  import opened Machine
  import opened Invariant
  import opened Console
  import opened Decimal
  import opened Parameters
  import opened Sgr
  import Ansi
  import Avatar
  import Csi
  import Rejection

  const VPA: byte := 0x64
  const CHA: byte := 0x47
  const CHT: byte := 0x49

  /** The finals that subtract one from their number before they look at its sign. */
  predicate CountsFromOne(b: byte) { b == VPA || b == CHA || b == CHT }

  /** To a row, to a column, or that many tabs less one. */
  function Moved(env: Env, d: Display, b: byte, v: nat): Display
    requires CountsFromOne(b) && 1 <= v
  {
    if b == VPA then d.Emit(CursorPosition(v - 1, env.cursorX(d.trace)))
    else if b == CHA then d.Emit(CursorPosition(env.cursorY(d.trace), v - 1))
    else d.BlanksTimes(79, v - 1)
  }

  function Sequence(p: seq<byte>, b: byte): seq<byte> {
    [ESC, BRACKET] + p + [b]
  }

  lemma NumberParsed(env: Env, st: State, s: State, p: seq<byte>)
    requires Collecting(env, st, s, p) && s.n < 127 && IsParameter(p)
    ensures s.ansi.scan == AnsiCount && s.ansi.count == 2
    ensures Csi.ParseOne(s.buf, 2, 1) == (if Csi.Value(p) < 1 then -1 else Csi.Value(p) - 1)
  {
    HeldIsHeld(env, st, s, p);
    forall c | c in p ensures c != SEMICOLON {
      assert IsDigit(c);
    }
    NoSemicolons(p);
    HoldsPart(s.buf, 2, p, |p|);
    assert p[..|p|] == p;
    ParameterRead(s.buf, 2, p);
  }

  /** What the last byte does to a state that holds one number. */
  lemma FinalAnswer(env: Env, s: State, b: byte, v: int)
    requires s.ansi.scan == AnsiCount && CountsFromOne(b)
    requires Csi.ParseOne(s.buf, s.ansi.count, 1) == (if v < 1 then -1 else v - 1)
    ensures Ansi.Step(env, s, b) == if v < 1 then Ansi.Unknown(s, b) else Ansi.Done(s.(d := Moved(env, s.d, b, v)))
  {
    hide Csi.ParseOne, Ansi.Unknown, Ansi.Done;
    assert Ansi.Step(env, s, b) == Ansi.Count(env, s, b);
    hide Ansi.Step;
  }

  lemma NumberObeyed(env: Env, st: State, s: State, p: seq<byte>, b: byte)
    requires Collecting(env, st, s, p) && s.n < 126 && IsParameter(p) && CountsFromOne(b) && 1 <= Csi.Value(p)
    ensures Idle(env, ConsoleByte(env, s, b)) && ConsoleByte(env, s, b).d == Moved(env, st.d, b, Csi.Value(p))
  {
    NumberParsed(env, st, s, p);
    hide Csi.ParseOne, Csi.Value, Ansi.Step, Moved;
    FinalAnswer(env, s.(received := s.received + 1), b, Csi.Value(p));
    SilentByte(env, s, b);
    hide ConsoleByte;
  }

  lemma NumberRejected(env: Env, st: State, s: State, p: seq<byte>, b: byte)
    requires Collecting(env, st, s, p) && s.n < 126 && IsParameter(p) && CountsFromOne(b) && Csi.Value(p) < 1
    ensures Rejection.PrintedBack(env, s, b, ConsoleByte(env, s, b).d)
  {
    NumberParsed(env, st, s, p);
    hide Csi.ParseOne, Csi.Value, Ansi.Step, TerminalEmulator, ConsoleByte, AnsiKept;
    FinalAnswer(env, s.(received := s.received + 1), b, Csi.Value(p));
    Rejection.AnsiCall(env, s, b);
    Rejection.AnsiRejectionConserves(env, s, b);
  }

  lemma ParameterExactly(env: Env, st: State, p: seq<byte>, b: byte)
    requires Idle(env, st) && IsParameter(p) && CountsFromOne(b)
    ensures var r := Feed(env, st, Sequence(p, b));
      if 1 <= Csi.Value(p) then Idle(env, r) && r.d == Moved(env, st.d, b, Csi.Value(p))
      else r.d == Rejection.Shown(env, st.d, Sequence(p, b))
  {
    hide ConsoleByte, Feed, Idle, Moved, TerminalEmulator, Inv;
    assert forall c | c in p :: IsListByte(c);
    var s := StringRuns(env, st, p, [b]);
    LastByte(env, st, s, p, b);
    if 1 <= Csi.Value(p) {
      NumberObeyed(env, st, s, p, b);
    } else {
      NumberRejected(env, st, s, p, b);
      HeldBytes(env, st, s, p, b);
    }
  }

  /** ESC [ n d, ESC [ n G and ESC [ n I are obeyed exactly when n is not 0; otherwise all of it is printed. */
  lemma NumberExactly(env: Env, st: State, x: Number, b: byte)
    requires Idle(env, st) && IsNumber(x) && CountsFromOne(b)
    ensures var r := Feed(env, st, Sequence(Written(x), b));
      if 1 <= x.value then Idle(env, r) && r.d == Moved(env, st.d, b, x.value)
      else r.d == Rejection.Shown(env, st.d, Sequence(Written(x), b))
  {
    WrittenIsParameter(x);
    hide Feed, Written, Moved, Idle, Inv;
    ParameterExactly(env, st, Written(x), b);
  }

  /** What is held are the bytes of the sequence. */
  lemma HeldBytes(env: Env, st: State, s: State, held: seq<byte>, b: byte)
    requires Collecting(env, st, s, held) && s.n < 127
    ensures s.buf[1..s.n] + [b] == ([ESC, BRACKET] + held + [b])[1..] && s.buf[0] == ESC
  {
    assert s.buf[1..s.n] == [s.buf[1]] + s.buf[2..s.n];
  }

  // ------------------------------------------------------------- the identify answer

  /** What the source names as the answer, and the length that it passes with it. */
  const FULL_ANSWER: seq<byte> := [ESC, '[' as int, '?' as int, '1' as int, ';' as int, '2' as int, 'c' as int]
  const ANSWER_LENGTH := 3

  /** ESC Z and ESC [ c send the first three bytes of the answer, and never the rest. */
  lemma AnswerIsCut(env: Env, st: State)
    requires Idle(env, st)
    ensures Feed(env, st, [ESC, 0x5A]).d == st.d.Emit(Send(FULL_ANSWER[..ANSWER_LENGTH]))
    ensures Feed(env, st, [ESC, BRACKET, 0x63]).d == st.d.Emit(Send(FULL_ANSWER[..ANSWER_LENGTH]))
  {
    hide ConsoleByte, Feed;
    assert FULL_ANSWER[..ANSWER_LENGTH] == Ansi.IDENTITY;
    var e := Opens(env, st, ESC);
    var o := Opens(env, e, BRACKET);
    SilentByte(env, e, 0x5A);
    SilentByte(env, o, 0x63);
    FeedIs(env, st, [ESC, 0x5A], ESC, [0x5A]);
    FeedIs(env, e, [0x5A], 0x5A, []);
    FeedIs(env, st, [ESC, BRACKET, 0x63], ESC, [BRACKET, 0x63]);
    FeedIs(env, e, [BRACKET, 0x63], BRACKET, [0x63]);
    FeedIs(env, o, [0x63], 0x63, []);
  }

  // ------------------------------------------------------------- the end of music

  /** A CR ends ANSI music exactly under AVATAR, where the dispatcher hands it on; under ANSI it moves the cursor
      and the music goes on. */
  lemma ReturnEndsMusicExactly(env: Env, st: State)
    requires Ready(env, st) && st.ansi.scan == AnsiMusic
    ensures var r := ConsoleByte(env, st, CR);
      && (r.ansi.scan != AnsiMusic <==> env.emulation == EmulateAvatar)
      && r.d == (match env.emulation
                 case EmulateAnsi => st.d.Emit(CarriageReturn)
                 case EmulateAvatar => st.d.Emit(Refresh).Emit(PlayMusic(st.ansi.music)))
      && r.ansi.music == st.ansi.music
  {
    var counted := st.(received := st.received + 1);
    match env.emulation
    case EmulateAnsi =>
      assert TerminalEmulator(env, st, CR) == Silent(counted.Show(CarriageReturn));
    case EmulateAvatar =>
      var one := counted.(avatar := counted.avatar.(relay := [CR]));
      assert Ansi.Step(env, one, CR) == Ansi.Music(env, one, CR);
      hide Ansi.Step;
      assert Avatar.Step(env, counted, CR) == Avatar.Relay(env, one);
      hide Avatar.Step;
  }
}
