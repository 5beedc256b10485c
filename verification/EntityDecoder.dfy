/** convert_unicode() of source/help.c: help text in ASCII, with &#ddd; and &#xhhh; for other characters. */
module EntityDecoder {

  type Byte = c: int | 0 <= c < 256

  const AMPERSAND: Byte := 0x26
  const HASH: Byte := 0x23
  const SEMICOLON: Byte := 0x3B

  datatype State = Normal | U1 | U2 | UDigits | UHex

  datatype Scan = Scan(state: State, x: int, output: seq<int>) | Aborted

  /** A plain char is signed, so a byte from 0x80 on widens to a negative wchar_t. */
  function Wide(c: Byte): int {
    if c < 0x80 then c else c - 0x100
  }

  /** It is the number in the range of a signed byte with the same eight bits. */
  lemma WideExtendsSign(c: Byte, w: int)
    ensures w == Wide(c) <==> -128 <= w < 128 && (w - c) % 256 == 0
  {
  }

  predicate IsDigit(c: Byte) {
    0x30 <= c <= 0x39
  }

  predicate IsX(c: Byte) {
    c == 0x78 || c == 0x58
  }

  predicate IsHex(c: Byte) {
    IsDigit(c) || 0x61 <= c <= 0x66 || 0x41 <= c <= 0x46
  }

  function HexValue(c: Byte): (r: int)
    requires IsHex(c)
    ensures 0 <= r < 16
  {
    if IsDigit(c) then c - 0x30 else if c >= 0x61 then c - 0x61 + 10 else c - 0x41 + 10
  }

  /** One turn of the loop. */
  function Step(s: Scan, ch: Byte): Scan {
    if s.Aborted? then s else
    match s.state
    case Normal =>
      if ch == AMPERSAND then s.(state := U1) else s.(output := s.output + [Wide(ch)])
    case U1 =>
      if ch == HASH then s.(state := U2, x := 0)
      else s.(state := Normal, output := s.output + [AMPERSAND, Wide(ch)])
    case U2 =>
      if IsX(ch) then s.(state := UHex)
      else if IsDigit(ch) then s.(state := UDigits, x := ch - 0x30)
      else s.(state := Normal, output := s.output + [AMPERSAND, HASH, Wide(ch)])
    case UDigits =>
      if IsDigit(ch) then s.(x := s.x * 10 + (ch - 0x30))
      else if ch == SEMICOLON then s.(state := Normal, output := s.output + [s.x])
      else Aborted
    case UHex =>
      if IsHex(ch) then s.(x := s.x * 16 + HexValue(ch))
      else if ch == SEMICOLON then s.(state := Normal, output := s.output + [s.x])
      else Aborted
  }

  function Run(s: Scan, input: seq<Byte>): Scan
    decreases |input|
  {
    if input == [] then s else Run(Step(s, input[0]), input[1..])
  }

  const START := Scan(Normal, 0, [])

  lemma {:induction false} RunConcat(s: Scan, a: seq<Byte>, b: seq<Byte>)
    ensures Run(s, a + b) == Run(Run(s, a), b)
    decreases |a|
  {
    if a == [] {
      assert a + b == b;
    } else {
      assert (a + b)[0] == a[0] && (a + b)[1..] == a[1..] + b;
      RunConcat(Step(s, a[0]), a[1..], b);
    }
  }

  lemma RunOne(s: Scan, c: Byte)
    ensures Run(s, [c]) == Step(s, c)
  {
    assert Run(s, [c]) == Run(Step(s, c), [c][1..]);
  }

  // ------------------------------------------------------------- what the text means

  /** What a help line is made of.  An ampersand that starts no escape stands for itself, and so does what follows it. */
  datatype Piece =
    | Plain(c: Byte)
    | Decimal(digits: seq<Byte>)
    | Hexadecimal(x: Byte, digits: seq<Byte>)
    | Lone(c: Byte)
    | LoneHash(c: Byte)

  predicate IsPiece(p: Piece) {
    match p
    case Plain(c) => c != AMPERSAND
    case Decimal(digits) => digits != [] && forall k | 0 <= k < |digits| :: IsDigit(digits[k])
    case Hexadecimal(x, digits) => IsX(x) && forall k | 0 <= k < |digits| :: IsHex(digits[k])
    case Lone(c) => c != HASH
    case LoneHash(c) => !IsX(c) && !IsDigit(c)
  }

  ghost predicate ArePieces(pieces: seq<Piece>) {
    forall k | 0 <= k < |pieces| :: IsPiece(pieces[k])
  }

  /** The number a string of digits stands for. */
  function Number(base: nat, digits: seq<Byte>): int
    requires forall k | 0 <= k < |digits| :: IsHex(digits[k])
    decreases |digits|
  {
    if digits == [] then 0
    else Number(base, digits[..|digits| - 1]) * base + HexValue(digits[|digits| - 1])
  }

  function Spelling(p: Piece): seq<Byte> {
    match p
    case Plain(c) => [c]
    case Decimal(digits) => [AMPERSAND, HASH] + digits + [SEMICOLON]
    case Hexadecimal(x, digits) => [AMPERSAND, HASH, x] + digits + [SEMICOLON]
    case Lone(c) => [AMPERSAND, c]
    case LoneHash(c) => [AMPERSAND, HASH, c]
  }

  function Meaning(p: Piece): seq<int>
    requires IsPiece(p)
  {
    match p
    case Plain(c) => [Wide(c)]
    case Decimal(digits) => [Number(10, digits)]
    case Hexadecimal(_, digits) => [Number(16, digits)]
    case Lone(c) => [AMPERSAND, Wide(c)]
    case LoneHash(c) => [AMPERSAND, HASH, Wide(c)]
  }

  function Text(pieces: seq<Piece>): seq<Byte>
    decreases |pieces|
  {
    if pieces == [] then [] else Text(pieces[..|pieces| - 1]) + Spelling(pieces[|pieces| - 1])
  }

  function Meanings(pieces: seq<Piece>): seq<int>
    requires ArePieces(pieces)
    decreases |pieces|
  {
    if pieces == [] then [] else Meanings(pieces[..|pieces| - 1]) + Meaning(pieces[|pieces| - 1])
  }

  /** The start of an escape that the line ends in. */
  predicate IsUnfinished(state: State, tail: seq<Byte>) {
    match state
    case Normal => tail == []
    case U1 => tail == [AMPERSAND]
    case U2 => tail == [AMPERSAND, HASH]
    case UDigits =>
      |tail| > 2 && tail[..2] == [AMPERSAND, HASH] && forall k | 2 <= k < |tail| :: IsDigit(tail[k])
    case UHex =>
      |tail| > 2 && tail[..2] == [AMPERSAND, HASH] && IsX(tail[2]) && forall k | 3 <= k < |tail| :: IsHex(tail[k])
  }

  /** The number read so far. */
  function Pending(state: State, tail: seq<Byte>, x: int): int
    requires IsUnfinished(state, tail)
  {
    match state
    case U2 => 0
    case UDigits => Number(10, tail[2..])
    case UHex => Number(16, tail[3..])
    case Normal => x
    case U1 => x
  }

  /** Where the loop stands after these pieces and this tail. */
  ghost predicate At(s: Scan, pieces: seq<Piece>, tail: seq<Byte>) {
    && s.Scan? && ArePieces(pieces) && IsUnfinished(s.state, tail)
    && s.x == Pending(s.state, tail, s.x)
    && s.output == Meanings(pieces)
  }

  lemma PushPiece(pieces: seq<Piece>, p: Piece)
    requires ArePieces(pieces) && IsPiece(p)
    ensures ArePieces(pieces + [p])
    ensures Text(pieces + [p]) == Text(pieces) + Spelling(p)
    ensures Meanings(pieces + [p]) == Meanings(pieces) + Meaning(p)
  {
    assert (pieces + [p])[..|pieces + [p]| - 1] == pieces;
  }

  lemma PushDigit(base: nat, digits: seq<Byte>, c: Byte)
    requires (forall k | 0 <= k < |digits| :: IsHex(digits[k])) && IsHex(c)
    ensures Number(base, digits + [c]) == Number(base, digits) * base + HexValue(c)
  {
    assert (digits + [c])[..|digits + [c]| - 1] == digits;
  }

  /** The piece that `ch` completes, if it does, or the longer tail. */
  lemma Advance(s: Scan, pieces: seq<Piece>, tail: seq<Byte>, ch: Byte) returns (pieces': seq<Piece>, tail': seq<Byte>)
    requires At(s, pieces, tail) && Step(s, ch).Scan?
    ensures At(Step(s, ch), pieces', tail')
    ensures Text(pieces) + tail + [ch] == Text(pieces') + tail'
  {
    pieces', tail' := pieces, tail + [ch];
    match s.state {
      case Normal =>
        if ch != AMPERSAND {
          pieces', tail' := Complete(s, pieces, tail, ch, Plain(ch));
        }
      case U1 =>
        if ch != HASH {
          pieces', tail' := Complete(s, pieces, tail, ch, Lone(ch));
        }
      case U2 =>
        if !IsX(ch) && !IsDigit(ch) {
          pieces', tail' := Complete(s, pieces, tail, ch, LoneHash(ch));
        } else if IsX(ch) {
          assert tail'[..2] == tail && tail'[3..] == [];
        } else {
          assert tail'[..2] == tail && tail'[2..] == [] + [ch];
          PushDigit(10, [], ch);
        }
      case UDigits =>
        pieces', tail' := AdvanceDecimal(s, pieces, tail, ch);
      case UHex =>
        pieces', tail' := AdvanceHex(s, pieces, tail, ch);
    }
  }

  lemma AdvanceDecimal(s: Scan, pieces: seq<Piece>, tail: seq<Byte>, ch: Byte)
    returns (pieces': seq<Piece>, tail': seq<Byte>)
    requires At(s, pieces, tail) && s.state == UDigits && Step(s, ch).Scan?
    ensures At(Step(s, ch), pieces', tail')
    ensures Text(pieces) + tail + [ch] == Text(pieces') + tail'
  {
    pieces', tail' := pieces, tail + [ch];
    if ch == SEMICOLON {
      assert tail + [ch] == [AMPERSAND, HASH] + tail[2..] + [SEMICOLON];
      pieces', tail' := Complete(s, pieces, tail, ch, Decimal(tail[2..]));
    } else {
      assert tail'[..2] == tail[..2] && tail'[2..] == tail[2..] + [ch];
      PushDigit(10, tail[2..], ch);
    }
  }

  lemma AdvanceHex(s: Scan, pieces: seq<Piece>, tail: seq<Byte>, ch: Byte)
    returns (pieces': seq<Piece>, tail': seq<Byte>)
    requires At(s, pieces, tail) && s.state == UHex && Step(s, ch).Scan?
    ensures At(Step(s, ch), pieces', tail')
    ensures Text(pieces) + tail + [ch] == Text(pieces') + tail'
  {
    pieces', tail' := pieces, tail + [ch];
    if ch == SEMICOLON {
      assert tail + [ch] == [AMPERSAND, HASH, tail[2]] + tail[3..] + [SEMICOLON];
      pieces', tail' := Complete(s, pieces, tail, ch, Hexadecimal(tail[2], tail[3..]));
    } else {
      assert tail'[..2] == tail[..2] && tail'[3..] == tail[3..] + [ch];
      PushDigit(16, tail[3..], ch);
    }
  }

  lemma Complete(s: Scan, pieces: seq<Piece>, tail: seq<Byte>, ch: Byte, p: Piece)
    returns (pieces': seq<Piece>, tail': seq<Byte>)
    requires s.Scan? && ArePieces(pieces) && IsPiece(p) && Spelling(p) == tail + [ch] && s.output == Meanings(pieces)
    requires Step(s, ch) == Scan(Normal, s.x, s.output + Meaning(p))
    ensures At(Step(s, ch), pieces', tail')
    ensures Text(pieces) + tail + [ch] == Text(pieces') + tail'
  {
    PushPiece(pieces, p);
    pieces', tail' := pieces + [p], [];
    assert Text(pieces) + tail + [ch] == Text(pieces) + Spelling(p);
  }

  /** Every input that is not aborted is a list of pieces and an unfinished tail, and the output is their meaning. */
  lemma {:induction false} Parsed(input: seq<Byte>) returns (pieces: seq<Piece>, tail: seq<Byte>)
    requires Run(START, input).Scan?
    ensures At(Run(START, input), pieces, tail) && input == Text(pieces) + tail
    decreases |input|
  {
    if input == [] {
      pieces, tail := [], [];
    } else {
      var before, ch := input[..|input| - 1], input[|input| - 1];
      assert input == before + [ch];
      RunConcat(START, before, [ch]);
      RunOne(Run(START, before), ch);
      var pieces0, tail0 := Parsed(before);
      pieces, tail := Advance(Run(START, before), pieces0, tail0, ch);
    }
  }

  // ------------------------------------------------------------- and conversely

  /** The state one byte earlier. */
  function Earlier(state: State, tail: seq<Byte>): State {
    match state
    case Normal => Normal
    case U1 => Normal
    case U2 => U1
    case UDigits => if |tail| == 3 then U2 else UDigits
    case UHex => if |tail| == 3 then U2 else UHex
  }

  lemma EarlierIsUnfinished(state: State, tail: seq<Byte>)
    requires IsUnfinished(state, tail) && tail != []
    ensures IsUnfinished(Earlier(state, tail), tail[..|tail| - 1])
  {
    var shorter := tail[..|tail| - 1];
    if |tail| > 2 {
      assert shorter[..2] == tail[..2];
      assert |tail| == 3 ==> shorter == tail[..2];
    }
  }

  lemma DigitRead(s: Scan, tail: seq<Byte>)
    requires IsUnfinished(UDigits, tail) && s.Scan? && s.state == Earlier(UDigits, tail)
    requires s.x == Number(10, tail[2..|tail| - 1])
    ensures Step(s, tail[|tail| - 1]) == Scan(UDigits, Number(10, tail[2..]), s.output)
  {
    var ch := tail[|tail| - 1];
    assert tail[2..] == tail[2..|tail| - 1] + [ch];
    PushDigit(10, tail[2..|tail| - 1], ch);
    hide Number;
  }

  lemma HexRead(s: Scan, tail: seq<Byte>)
    requires IsUnfinished(UHex, tail) && |tail| > 3 && s.Scan? && s.state == UHex
    requires s.x == Number(16, tail[3..|tail| - 1])
    ensures Step(s, tail[|tail| - 1]) == Scan(UHex, Number(16, tail[3..]), s.output)
  {
    var ch := tail[|tail| - 1];
    assert tail[3..] == tail[3..|tail| - 1] + [ch];
    PushDigit(16, tail[3..|tail| - 1], ch);
    hide Number;
  }

  /** The last byte of a tail brings the loop from the state before it to the state after it. */
  lemma TailByte(s: Scan, state: State, tail: seq<Byte>)
    requires IsUnfinished(state, tail) && tail != []
    requires s.Scan? && s.state == Earlier(state, tail)
    requires IsUnfinished(s.state, tail[..|tail| - 1]) && s.x == Pending(s.state, tail[..|tail| - 1], s.x)
    ensures Step(s, tail[|tail| - 1]) == Scan(state, Pending(state, tail, s.x), s.output)
  {
    var shorter := tail[..|tail| - 1];
    match state {
      case U1 =>
      case U2 =>
      case UDigits =>
        if |tail| > 3 {
          assert shorter[2..] == tail[2..|tail| - 1];
        } else {
          assert tail[2..|tail| - 1] == [];
        }
        DigitRead(s, tail);
      case UHex =>
        if |tail| > 3 {
          assert shorter[3..] == tail[3..|tail| - 1];
          HexRead(s, tail);
        } else {
          assert tail[3..] == [];
        }
    }
  }

  lemma {:induction false} TailRead(s: Scan, state: State, tail: seq<Byte>)
    requires s.Scan? && s.state == Normal && IsUnfinished(state, tail)
    ensures Run(s, tail) == Scan(state, if tail == [AMPERSAND] then s.x else Pending(state, tail, s.x), s.output)
    decreases |tail|
  {
    if tail != [] {
      var shorter, ch := tail[..|tail| - 1], tail[|tail| - 1];
      assert tail == shorter + [ch];
      EarlierIsUnfinished(state, tail);
      TailRead(s, Earlier(state, tail), shorter);
      RunConcat(s, shorter, [ch]);
      RunOne(Run(s, shorter), ch);
      TailByte(Run(s, shorter), state, tail);
    }
  }

  lemma PieceRead(s: Scan, p: Piece)
    requires s.Scan? && s.state == Normal && IsPiece(p)
    ensures var r := Run(s, Spelling(p)); r.Scan? && r.state == Normal && r.output == s.output + Meaning(p)
  {
    var text := Spelling(p);
    var tail, ch := text[..|text| - 1], text[|text| - 1];
    assert text == tail + [ch];
    match p {
      case Plain(_) => TailRead(s, Normal, tail);
      case Decimal(digits) =>
        assert tail[2..] == digits;
        TailRead(s, UDigits, tail);
      case Hexadecimal(_, digits) =>
        assert tail[3..] == digits;
        TailRead(s, UHex, tail);
      case Lone(_) => TailRead(s, U1, tail);
      case LoneHash(_) => TailRead(s, U2, tail);
    }
    RunConcat(s, tail, [ch]);
    RunOne(Run(s, tail), ch);
  }

  lemma {:induction false} PiecesRead(pieces: seq<Piece>)
    requires ArePieces(pieces)
    ensures var r := Run(START, Text(pieces)); r.Scan? && r.state == Normal && r.output == Meanings(pieces)
    decreases |pieces|
  {
    if pieces != [] {
      var before, p := pieces[..|pieces| - 1], pieces[|pieces| - 1];
      PiecesRead(before);
      RunConcat(START, Text(before), Spelling(p));
      PieceRead(Run(START, Text(before)), p);
    }
  }

  ghost predicate Reading(input: seq<Byte>, pieces: seq<Piece>, state: State, tail: seq<Byte>) {
    ArePieces(pieces) && IsUnfinished(state, tail) && input == Text(pieces) + tail
  }

  lemma ReadingRead(input: seq<Byte>, pieces: seq<Piece>, state: State, tail: seq<Byte>)
    requires Reading(input, pieces, state, tail)
    ensures var r := Run(START, input); r.Scan? && r.state == state && r.output == Meanings(pieces)
  {
    PiecesRead(pieces);
    RunConcat(START, Text(pieces), tail);
    TailRead(Run(START, Text(pieces)), state, tail);
  }

  /**
   The loop aborts exactly on the input that is no list of pieces with at most one unfinished escape after it;
   otherwise the output is what the pieces mean, and the unfinished escape is lost.
   */
  lemma DecodesExactly(input: seq<Byte>)
    ensures Run(START, input).Scan? <==> exists pieces, state, tail :: Reading(input, pieces, state, tail)
    ensures forall pieces, state, tail | Reading(input, pieces, state, tail) ::
      Run(START, input).Scan? && Run(START, input).output == Meanings(pieces)
  {
    if Run(START, input).Scan? {
      var pieces, tail := Parsed(input);
      assert Reading(input, pieces, Run(START, input).state, tail);
    }
    forall pieces, state, tail | Reading(input, pieces, state, tail)
      ensures Run(START, input).Scan? && Run(START, input).output == Meanings(pieces)
    {
      ReadingRead(input, pieces, state, tail);
    }
  }

  // ------------------------------------------------------------- the round trip

  /** A digit, in small or in capital letters. */
  function DigitByte(d: nat, capital: bool): (r: Byte)
    requires d < 16
    ensures IsHex(r) && HexValue(r) == d && (d < 10 ==> IsDigit(r))
  {
    if d < 10 then 0x30 + d else if capital then 0x41 + (d - 10) else 0x61 + (d - 10)
  }

  /** A number written out. */
  function Digits(base: nat, x: nat, capital: bool): (r: seq<Byte>)
    requires base == 10 || base == 16
    ensures r != [] && forall k | 0 <= k < |r| :: IsHex(r[k]) && (base == 10 ==> IsDigit(r[k]))
  {
    if x < base then [DigitByte(x, capital)] else Digits(base, x / base, capital) + [DigitByte(x % base, capital)]
  }

  lemma {:induction false} NumberOfDigits(base: nat, x: nat, capital: bool)
    requires base == 10 || base == 16
    ensures Number(base, Digits(base, x, capital)) == x
  {
    if x < base {
      assert Digits(base, x, capital) == [] + [DigitByte(x, capital)];
      PushDigit(base, [], DigitByte(x, capital));
    } else {
      NumberOfDigits(base, x / base, capital);
      PushDigit(base, Digits(base, x / base, capital), DigitByte(x % base, capital));
    }
  }

  /** Zeros before a number. */
  function Padded(zeros: nat, digits: seq<Byte>): (r: seq<Byte>)
    requires digits != [] && forall k | 0 <= k < |digits| :: IsHex(digits[k])
    ensures r != [] && forall k | 0 <= k < |r| :: IsHex(r[k])
    ensures (forall k | 0 <= k < |digits| :: IsDigit(digits[k])) ==> forall k | 0 <= k < |r| :: IsDigit(r[k])
  {
    if zeros == 0 then digits else [0x30] + Padded(zeros - 1, digits)
  }

  lemma {:induction false} ZeroFirst(base: nat, digits: seq<Byte>)
    requires forall k | 0 <= k < |digits| :: IsHex(digits[k])
    ensures Number(base, [0x30] + digits) == Number(base, digits)
    decreases |digits|
  {
    if digits == [] {
      assert [0x30] + digits == [] + [0x30];
      PushDigit(base, [], 0x30);
    } else {
      var front, last := digits[..|digits| - 1], digits[|digits| - 1];
      ZeroFirst(base, front);
      assert [0x30] + digits == ([0x30] + front) + [last];
      PushDigit(base, [0x30] + front, last);
    }
  }

  lemma {:induction false} NumberOfPadded(base: nat, zeros: nat, digits: seq<Byte>)
    requires digits != [] && forall k | 0 <= k < |digits| :: IsHex(digits[k])
    ensures Number(base, Padded(zeros, digits)) == Number(base, digits)
    decreases zeros
  {
    hide Number;
    if zeros > 0 {
      ZeroFirst(base, Padded(zeros - 1, digits));
      NumberOfPadded(base, zeros - 1, digits);
    }
  }

  /** The ways to write a code point: zeros may come first, and the x and the letters may be small or capital. */
  datatype Form = AsIs | AsDecimal(zeros: nat) | AsHexadecimal(zeros: nat, capitalX: bool, capital: bool)

  /** A code point can stand for itself if it is ASCII and no ampersand; any can be escaped. */
  predicate CanWrite(x: nat, f: Form) {
    f.AsIs? ==> x < 0x80 && x != AMPERSAND
  }

  function Written(x: nat, f: Form): (p: Piece)
    requires CanWrite(x, f)
    ensures IsPiece(p)
  {
    match f
    case AsIs => Plain(x)
    case AsDecimal(zeros) => Decimal(Padded(zeros, Digits(10, x, false)))
    case AsHexadecimal(zeros, capitalX, capital) =>
      Hexadecimal(if capitalX then 0x58 else 0x78, Padded(zeros, Digits(16, x, capital)))
  }

  function Encode(text: seq<nat>, forms: seq<Form>): (r: seq<Piece>)
    requires |text| == |forms| && forall k | 0 <= k < |text| :: CanWrite(text[k], forms[k])
    ensures ArePieces(r)
    decreases |text|
  {
    if text == [] then [] else
      var n := |text| - 1;
      Encode(text[..n], forms[..n]) + [Written(text[n], forms[n])]
  }

  lemma WrittenMeans(x: nat, f: Form)
    requires CanWrite(x, f)
    ensures Meaning(Written(x, f)) == [x]
  {
    match f
    case AsIs =>
    case AsDecimal(zeros) =>
      NumberOfPadded(10, zeros, Digits(10, x, false));
      NumberOfDigits(10, x, false);
    case AsHexadecimal(zeros, _, capital) =>
      NumberOfPadded(16, zeros, Digits(16, x, capital));
      NumberOfDigits(16, x, capital);
  }

  lemma {:induction false} EncodeMeans(text: seq<nat>, forms: seq<Form>)
    requires |text| == |forms| && forall k | 0 <= k < |text| :: CanWrite(text[k], forms[k])
    ensures Meanings(Encode(text, forms)) == text
    decreases |text|
  {
    hide Meaning, Written, CanWrite;
    if text != [] {
      var n := |text| - 1;
      EncodeMeans(text[..n], forms[..n]);
      PushPiece(Encode(text[..n], forms[..n]), Written(text[n], forms[n]));
      WrittenMeans(text[n], forms[n]);
      assert text == text[..n] + [text[n]];
    }
  }

  /** Decoding gives back every text, whichever way each of its characters was written. */
  lemma RoundTrip(text: seq<nat>, forms: seq<Form>)
    requires |text| == |forms| && forall k | 0 <= k < |text| :: CanWrite(text[k], forms[k])
    ensures var r := Run(START, Text(Encode(text, forms))); r.Scan? && r.state == Normal && r.output == text
  {
    PiecesRead(Encode(text, forms));
    EncodeMeans(text, forms);
  }

  // ------------------------------------------------------------- the loop

  /** Cells that the bytes of a started escape will not need. */
  function Debt(state: State): nat {
    match state
    case Normal => 0
    case U1 => 1
    case U2 => 2
    case UDigits => 3
    case UHex => 3
  }

  /** The output never gets ahead of the input. */
  lemma {:induction false} NeverAhead(input: seq<Byte>)
    ensures var r := Run(START, input); r.Scan? ==> |r.output| + Debt(r.state) <= |input|
    decreases |input|
  {
    if input != [] {
      var before, ch := input[..|input| - 1], input[|input| - 1];
      assert input == before + [ch];
      RunConcat(START, before, [ch]);
      RunOne(Run(START, before), ch);
      NeverAhead(before);
    }
  }

  lemma RunNext(input: seq<Byte>, k: nat)
    requires k < |input|
    ensures Run(START, input[..k + 1]) == Step(Run(START, input[..k]), input[k])
  {
    assert input[..k + 1] == input[..k] + [input[k]];
    RunConcat(START, input[..k], [input[k]]);
    RunOne(Run(START, input[..k]), input[k]);
  }

  lemma AbortStays(input: seq<Byte>, k: nat)
    requires k <= |input| && Run(START, input[..k]).Aborted?
    ensures Run(START, input).Aborted?
    decreases |input| - k
  {
    if k < |input| {
      RunNext(input, k);
      AbortStays(input, k + 1);
    } else {
      assert input[..k] == input;
    }
  }

  /** convert_unicode(): no cell at or past the input's length is needed, and none past the output is touched. */
  method ConvertUnicode(input: seq<Byte>, output: array<int>) returns (aborted: bool, written: nat)
    requires |input| <= output.Length
    modifies output
    ensures aborted == Run(START, input).Aborted?
    ensures !aborted ==> written <= |input|
    ensures !aborted ==> written == |Run(START, input).output| && output[..written] == Run(START, input).output
    ensures !aborted ==> forall k | written <= k < output.Length :: output[k] == old(output[k])
  {
    var state, inputI, outputI, x := Normal, 0, 0, 0;
    NeverAhead(input);
    while inputI < |input|
      invariant 0 <= inputI <= |input| && 0 <= outputI <= output.Length
      invariant Run(START, input[..inputI]) == Scan(state, x, output[..outputI])
      invariant forall k | outputI <= k < output.Length :: output[k] == old(output[k])
    {
      var ch := input[inputI];
      RunNext(input, inputI);
      NeverAhead(input[..inputI + 1]);
      inputI := inputI + 1;
      ghost var done := output[..outputI];
      match state {
        case Normal =>
          if ch == AMPERSAND {
            state := U1;
          } else {
            outputI := Put(output, outputI, [Wide(ch)]);
          }
        case U1 =>
          if ch == HASH {
            state, x := U2, 0;
          } else {
            outputI := Put(output, outputI, [AMPERSAND, Wide(ch)]);
            state := Normal;
          }
        case U2 =>
          if IsX(ch) {
            state := UHex;
          } else if IsDigit(ch) {
            state, x := UDigits, ch - 0x30;
          } else {
            outputI := Put(output, outputI, [AMPERSAND, HASH, Wide(ch)]);
            state := Normal;
          }
        case UDigits =>
          if IsDigit(ch) {
            x := x * 10;
            x := x + (ch - 0x30);
          } else if ch == SEMICOLON {
            outputI := Put(output, outputI, [x]);
            state := Normal;
          } else {
            AbortStays(input, inputI);
            return true, 0;
          }
        case UHex =>
          if IsDigit(ch) {
            x := x * 16;
            x := x + (ch - 0x30);
          } else if IsHex(ch) {
            x := x * 16;
            x := x + HexValue(ch);
          } else if ch == SEMICOLON {
            outputI := Put(output, outputI, [x]);
            state := Normal;
          } else {
            AbortStays(input, inputI);
            return true, 0;
          }
      }
    }
    assert input[..inputI] == input;
    return false, outputI;
  }

  /** output[output_i] = c; output_i++; for one, two or three cells. */
  method Put(output: array<int>, at: nat, cells: seq<int>) returns (next: nat)
    requires at + |cells| <= output.Length
    modifies output
    ensures next == at + |cells| && output[..next] == old(output[..at]) + cells
    ensures forall k | next <= k < output.Length :: output[k] == old(output[k])
  {
    forall k | 0 <= k < |cells| {
      output[at + k] := cells[k];
    }
    next := at + |cells|;
  }
}
