/**
 The UTF-8 codec of source/codepage.c: the arithmetic encoder, and the
 table-driven decoder with its one shared table of byte classes and transitions.

 The decoder is measured against the grammar of section 4 of RFC 3629 and
 against the bit layout of section 3 of RFC 3629, both written here without
 looking at the table.
 */
module Utf8 {

  const ACCEPT: nat := 0
  const REJECT: nat := 1

  // The table, row by row as the source lays it out: byte classes for 00..ff, then
  // the sixteen transitions of each state.
  const ROW_00: seq<nat> := [0, 0, 0, 0, 0, 0, 0, 0, 0, 0, 0, 0, 0, 0, 0, 0, 0, 0, 0, 0, 0, 0, 0, 0, 0, 0, 0, 0, 0, 0, 0, 0]
  const ROW_20: seq<nat> := [0, 0, 0, 0, 0, 0, 0, 0, 0, 0, 0, 0, 0, 0, 0, 0, 0, 0, 0, 0, 0, 0, 0, 0, 0, 0, 0, 0, 0, 0, 0, 0]
  const ROW_40: seq<nat> := [0, 0, 0, 0, 0, 0, 0, 0, 0, 0, 0, 0, 0, 0, 0, 0, 0, 0, 0, 0, 0, 0, 0, 0, 0, 0, 0, 0, 0, 0, 0, 0]
  const ROW_60: seq<nat> := [0, 0, 0, 0, 0, 0, 0, 0, 0, 0, 0, 0, 0, 0, 0, 0, 0, 0, 0, 0, 0, 0, 0, 0, 0, 0, 0, 0, 0, 0, 0, 0]
  const ROW_80: seq<nat> := [1, 1, 1, 1, 1, 1, 1, 1, 1, 1, 1, 1, 1, 1, 1, 1, 9, 9, 9, 9, 9, 9, 9, 9, 9, 9, 9, 9, 9, 9, 9, 9]
  const ROW_A0: seq<nat> := [7, 7, 7, 7, 7, 7, 7, 7, 7, 7, 7, 7, 7, 7, 7, 7, 7, 7, 7, 7, 7, 7, 7, 7, 7, 7, 7, 7, 7, 7, 7, 7]
  const ROW_C0: seq<nat> := [8, 8, 2, 2, 2, 2, 2, 2, 2, 2, 2, 2, 2, 2, 2, 2, 2, 2, 2, 2, 2, 2, 2, 2, 2, 2, 2, 2, 2, 2, 2, 2]
  const ROW_E0: seq<nat> := [0xa, 0x3, 0x3, 0x3, 0x3, 0x3, 0x3, 0x3, 0x3, 0x3, 0x3, 0x3, 0x3, 0x4, 0x3, 0x3, 0xb, 0x6, 0x6, 0x6, 0x5, 0x8, 0x8, 0x8, 0x8, 0x8, 0x8, 0x8, 0x8, 0x8, 0x8, 0x8]
  const ROW_S0: seq<nat> := [0x0, 0x1, 0x2, 0x3, 0x5, 0x8, 0x7, 0x1, 0x1, 0x1, 0x4, 0x6, 0x1, 0x1, 0x1, 0x1]
  const ROW_S1: seq<nat> := [1, 1, 1, 1, 1, 1, 1, 1, 1, 1, 1, 1, 1, 1, 1, 1]
  const ROW_S2: seq<nat> := [1, 0, 1, 1, 1, 1, 1, 0, 1, 0, 1, 1, 1, 1, 1, 1]
  const ROW_S3: seq<nat> := [1, 2, 1, 1, 1, 1, 1, 2, 1, 2, 1, 1, 1, 1, 1, 1]
  const ROW_S4: seq<nat> := [1, 1, 1, 1, 1, 1, 1, 2, 1, 1, 1, 1, 1, 1, 1, 1]
  const ROW_S5: seq<nat> := [1, 2, 1, 1, 1, 1, 1, 1, 1, 2, 1, 1, 1, 1, 1, 1]
  const ROW_S6: seq<nat> := [1, 1, 1, 1, 1, 1, 1, 3, 1, 3, 1, 1, 1, 1, 1, 1]
  const ROW_S7: seq<nat> := [1, 3, 1, 1, 1, 1, 1, 3, 1, 3, 1, 1, 1, 1, 1, 1]
  const ROW_S8: seq<nat> := [1, 3, 1, 1, 1, 1, 1, 1, 1, 1, 1, 1, 1, 1, 1, 1]

  const CLASSES: seq<nat> := (ROW_00 + ROW_20 + ROW_40 + ROW_60) + (ROW_80 + ROW_A0 + ROW_C0 + ROW_E0)
  const TRANSITIONS: seq<nat> :=
    (ROW_S0 + ROW_S1 + ROW_S2 + ROW_S3) + (ROW_S4 + ROW_S5 + ROW_S6 + ROW_S7) + ROW_S8
  const UTF8D: seq<nat> := CLASSES + TRANSITIONS

  function ByteClass(b: bv8): nat {
    if b < 0x80 then 0
    else if b < 0x90 then 1
    else if b < 0xA0 then 9
    else if b < 0xC0 then 7
    else if b < 0xC2 then 8
    else if b < 0xE0 then 2
    else if b == 0xE0 then 10
    else if b == 0xED then 4
    else if b < 0xF0 then 3
    else if b == 0xF0 then 11
    else if b < 0xF4 then 6
    else if b == 0xF4 then 5
    else 8
  }

  function NextState(state: nat, cls: nat): nat {
    match state
    case 0 =>
      (match cls
       case 0 => 0 case 2 => 2 case 3 => 3 case 4 => 5 case 5 => 8 case 6 => 7 case 10 => 4 case 11 => 6
       case _ => 1)
    case 2 => if cls == 1 || cls == 7 || cls == 9 then 0 else 1
    case 3 => if cls == 1 || cls == 7 || cls == 9 then 2 else 1
    case 4 => if cls == 7 then 2 else 1
    case 5 => if cls == 1 || cls == 9 then 2 else 1
    case 6 => if cls == 7 || cls == 9 then 3 else 1
    case 7 => if cls == 1 || cls == 7 || cls == 9 then 3 else 1
    case 8 => if cls == 1 then 3 else 1
    case _ => 1
  }

  lemma TableHoldsByteClass(b: bv8)
    ensures |CLASSES| == 256 && |UTF8D| == 400 && b as int < 256
    ensures UTF8D[b as int] == ByteClass(b)
  {
    var k := b as int;
    assert UTF8D[k] == CLASSES[k];
    if b < 0x80 {
      AsciiClasses(k);
    } else {
      assert CLASSES[k] == (ROW_80 + ROW_A0 + ROW_C0 + ROW_E0)[k - 128];
      if b < 0xC0 {
        TailClasses(k);
      } else {
        LeadClasses(k);
      }
    }
  }

  lemma AsciiClasses(k: nat)
    requires k < 128
    ensures CLASSES[k] == 0
  {
    var low := ROW_00 + ROW_20 + ROW_40 + ROW_60;
    assert |low| == 128 && CLASSES[k] == low[k];
    assert low[k] == if k < 32 then ROW_00[k] else if k < 64 then ROW_20[k - 32] else if k < 96 then ROW_40[k - 64] else ROW_60[k - 96];
  }

  lemma TailClasses(k: nat)
    requires 128 <= k < 192
    ensures (ROW_80 + ROW_A0 + ROW_C0 + ROW_E0)[k - 128] == if k < 144 then 1 else if k < 160 then 9 else 7
  {
    var high := ROW_80 + ROW_A0 + ROW_C0 + ROW_E0;
    assert high[k - 128] == if k < 160 then ROW_80[k - 128] else ROW_A0[k - 160];
  }

  lemma LeadClasses(k: nat)
    requires 192 <= k < 256
    ensures (ROW_80 + ROW_A0 + ROW_C0 + ROW_E0)[k - 128] ==
            if k < 224 then (if k < 194 then 8 else 2)
            else if k == 224 then 10 else if k == 237 then 4 else if k < 240 then 3
            else if k == 240 then 11 else if k < 244 then 6 else if k == 244 then 5 else 8
  {
    var high := ROW_80 + ROW_A0 + ROW_C0 + ROW_E0;
    assert high[k - 128] == if k < 224 then ROW_C0[k - 192] else ROW_E0[k - 224];
  }

  function StateRow(state: nat): seq<nat>
    requires state < 9
  {
    match state
    case 0 => ROW_S0 case 1 => ROW_S1 case 2 => ROW_S2 case 3 => ROW_S3 case 4 => ROW_S4
    case 5 => ROW_S5 case 6 => ROW_S6 case 7 => ROW_S7 case 8 => ROW_S8
  }

  lemma RowAt(front: seq<nat>, a: seq<nat>, b: seq<nat>, c: seq<nat>, d: seq<nat>, e: seq<nat>, f: seq<nat>, g: seq<nat>,
              h: seq<nat>, i: seq<nat>, k: nat, cls: nat)
    requires |front| == 256 && |a| == |b| == |c| == |d| == |e| == |f| == |g| == |h| == |i| == 16
    requires k < 9 && cls < 16
    ensures |front + ((a + b + c + d) + (e + f + g + h) + i)| == 400
    ensures (front + ((a + b + c + d) + (e + f + g + h) + i))[256 + k * 16 + cls] == [a, b, c, d, e, f, g, h, i][k][cls]
  {
    var rest := (a + b + c + d) + (e + f + g + h) + i;
    var low, high := a + b + c + d, e + f + g + h;
    assert (front + rest)[256 + (k * 16 + cls)] == rest[k * 16 + cls];
    if k < 4 {
      assert rest[k * 16 + cls] == low[k * 16 + cls];
    } else if k < 8 {
      assert rest[k * 16 + cls] == high[k * 16 + cls - 64];
    }
  }

  lemma RowSizes()
    ensures |CLASSES| == 256
    ensures |ROW_S0| == |ROW_S1| == |ROW_S2| == |ROW_S3| == |ROW_S4| == |ROW_S5| == |ROW_S6| == |ROW_S7| == |ROW_S8| == 16
  {
  }

  lemma TableHoldsRow(state: nat, cls: nat)
    requires state < 9 && cls < 16
    ensures |UTF8D| == 400 && |StateRow(state)| == 16
    ensures UTF8D[256 + state * 16 + cls] == StateRow(state)[cls]
  {
    RowSizes();
    RowAt(CLASSES, ROW_S0, ROW_S1, ROW_S2, ROW_S3, ROW_S4, ROW_S5, ROW_S6, ROW_S7, ROW_S8, state, cls);
  }

  lemma RowHoldsNextState(state: nat, cls: nat)
    requires state < 9 && cls < 16
    ensures |StateRow(state)| == 16 && StateRow(state)[cls] == NextState(state, cls)
  {
    if state == 0 { assert StateRow(state) == ROW_S0; }
    else if state < 3 { assert StateRow(state) == ROW_S1 || StateRow(state) == ROW_S2; }
    else if state < 6 { assert StateRow(state) == ROW_S3 || StateRow(state) == ROW_S4 || StateRow(state) == ROW_S5; }
    else { assert StateRow(state) == ROW_S6 || StateRow(state) == ROW_S7 || StateRow(state) == ROW_S8; }
  }

  lemma TableHoldsNextState(state: nat, cls: nat)
    requires state < 9 && cls < 16
    ensures |UTF8D| == 400 && UTF8D[256 + state * 16 + cls] == NextState(state, cls)
  {
    TableHoldsRow(state, cls);
    RowHoldsNextState(state, cls);
  }

  // ---------------------------------------------------------------- the decoder

  /** What one call of the decoder leaves behind: the state and the code point so far. */
  datatype Scan = Scan(state: nat, codep: bv32)

  function Step(scan: Scan, b: bv8): (r: Scan)
    ensures r.state < 9
  {
    var cls := ByteClass(b);
    Scan(NextState(scan.state, cls),
         if scan.state != ACCEPT then (b as bv32 & 0x3F) | (scan.codep << 6) else (0xFF >> cls) & b as bv32)
  }

  function Run(scan: Scan, s: seq<bv8>): Scan
    decreases s
  {
    if s == [] then scan else Run(Step(scan, s[0]), s[1..])
  }

  /** The code points a caller collects: `codep` after every byte that leaves the decoder in ACCEPT. */
  function Outputs(scan: Scan, s: seq<bv8>): seq<bv32>
    decreases s
  {
    if s == [] then [] else
      var next := Step(scan, s[0]);
      (if next.state == ACCEPT then [next.codep] else []) + Outputs(next, s[1..])
  }

  class Decoder {
    var state: nat
    var codep: bv32

    constructor ()
      ensures state == ACCEPT && codep == 0
    {
      state, codep := ACCEPT, 0;
    }

    method ClassOf(b: bv8) returns (cls: nat)
      ensures cls == ByteClass(b) < 12
    {
      TableHoldsByteClass(b);
      cls := UTF8D[b as int];
    }

    method Transition(cls: nat) returns (next: nat)
      requires state < 9 && cls < 16
      ensures next == NextState(state, cls)
    {
      hide *;
      TableHoldsNextState(state, cls);
      next := UTF8D[256 + state * 16 + cls];
    }

    method Decode(b: bv8) returns (result: nat)
      requires state < 9
      modifies this
      ensures Scan(state, codep) == Step(old(Scan(state, codep)), b)
      ensures result == state < 9
    {
      hide NextState, ByteClass;
      var cls := ClassOf(b);
      codep := if state != ACCEPT then (b as bv32 & 0x3F) | (codep << 6) else (0xFF >> cls) & b as bv32;
      state := Transition(cls);
      result := state;
    }
  }

  // ------------------------------------------ the language of section 4 of RFC 3629

  predicate IsTail(b: bv8) { 0x80 <= b <= 0xBF }

  predicate IsChar(s: seq<bv8>) {
    match |s|
    case 1 => s[0] <= 0x7F
    case 2 => 0xC2 <= s[0] <= 0xDF && IsTail(s[1])
    case 3 =>
      && ( || (s[0] == 0xE0 && 0xA0 <= s[1] <= 0xBF)
           || (0xE1 <= s[0] <= 0xEC && IsTail(s[1]))
           || (s[0] == 0xED && 0x80 <= s[1] <= 0x9F)
           || (0xEE <= s[0] <= 0xEF && IsTail(s[1])))
      && IsTail(s[2])
    case 4 =>
      && ( || (s[0] == 0xF0 && 0x90 <= s[1] <= 0xBF)
           || (0xF1 <= s[0] <= 0xF3 && IsTail(s[1]))
           || (s[0] == 0xF4 && 0x80 <= s[1] <= 0x8F))
      && IsTail(s[2]) && IsTail(s[3])
    case _ => false
  }

  /** The bits of section 3 of RFC 3629, high order first. */
  function ScalarOf(s: seq<bv8>): bv32
    requires IsChar(s)
  {
    match |s|
    case 1 => s[0] as bv32
    case 2 => ((s[0] & 0x1F) as bv32 << 6) | (s[1] & 0x3F) as bv32
    case 3 => ((s[0] & 0x0F) as bv32 << 12) | ((s[1] & 0x3F) as bv32 << 6) | (s[2] & 0x3F) as bv32
    case _ => ((s[0] & 0x07) as bv32 << 18) | ((s[1] & 0x3F) as bv32 << 12) | ((s[2] & 0x3F) as bv32 << 6) |
              (s[3] & 0x3F) as bv32
  }

  ghost predicate AllChars(parts: seq<seq<bv8>>) { forall p | p in parts :: IsChar(p) }

  function Flatten(parts: seq<seq<bv8>>): seq<bv8> {
    if parts == [] then [] else parts[0] + Flatten(parts[1..])
  }

  function Scalars(parts: seq<seq<bv8>>): (r: seq<bv32>)
    requires AllChars(parts)
    ensures |r| == |parts|
  {
    if parts == [] then [] else [ScalarOf(parts[0])] + Scalars(parts[1..])
  }

  lemma {:induction false} RunConcat(scan: Scan, s: seq<bv8>, t: seq<bv8>)
    ensures Run(scan, s + t) == Run(Run(scan, s), t)
    ensures Outputs(scan, s + t) == Outputs(scan, s) + Outputs(Run(scan, s), t)
    decreases s
  {
    if s == [] {
      assert s + t == t;
    } else {
      assert (s + t)[1..] == s[1..] + t;
      RunConcat(Step(scan, s[0]), s[1..], t);
    }
  }

  lemma {:induction false} RejectIsAbsorbing(scan: Scan, s: seq<bv8>)
    requires scan.state == REJECT
    ensures Run(scan, s).state == REJECT && Outputs(scan, s) == []
    decreases s
  {
    if s != [] {
      RejectIsAbsorbing(Step(scan, s[0]), s[1..]);
    }
  }

  lemma RunSnoc(scan: Scan, s: seq<bv8>, b: bv8)
    ensures Run(scan, s + [b]) == Step(Run(scan, s), b)
    ensures Outputs(scan, s + [b]) ==
            Outputs(scan, s) + if Step(Run(scan, s), b).state == ACCEPT then [Step(Run(scan, s), b).codep] else []
  {
    RunConcat(scan, s, [b]);
    assert Run(Run(scan, s), [b]) == Step(Run(scan, s), b);
  }

  lemma LeadBits(b: bv8)
    ensures 0xC2 <= b <= 0xDF ==> (0xFF as bv32 >> ByteClass(b)) & b as bv32 == (b & 0x1F) as bv32
    ensures 0xE0 <= b <= 0xEF ==> (0xFF as bv32 >> ByteClass(b)) & b as bv32 == (b & 0x0F) as bv32
    ensures 0xF0 <= b <= 0xF4 ==> (0xFF as bv32 >> ByteClass(b)) & b as bv32 == (b & 0x07) as bv32
  {
    var cls := ByteClass(b);
    var x: bv32 := 0xFF;
    assert x >> 2 == 0x3F && x >> 3 == 0x1F && x >> 4 == 0x0F && x >> 5 == 0x07 && x >> 6 == 0x03 && x >> 10 == 0 && x >> 11 == 0;
  }

  /** Folding six bits at a time lays the groups side by side. */
  lemma ThreeGroups(x: bv32, y: bv32, z: bv32)
    ensures z | ((y | (x << 6)) << 6) == (x << 12) | (y << 6) | z
  {
  }

  lemma FourGroups(w: bv32, x: bv32, y: bv32, z: bv32)
    ensures z | ((y | ((x | (w << 6)) << 6)) << 6) == (w << 18) | (x << 12) | (y << 6) | z
  {
  }

  lemma TailBits(b: bv8)
    ensures b as bv32 & 0x3F == (b & 0x3F) as bv32
  {
  }

  /** The value left by the last byte of a character of each length. */
  lemma OneByte(scan: Scan, s: seq<bv8>)
    requires scan.state == ACCEPT && IsChar(s) && |s| == 1
    ensures Step(scan, s[0]).codep == ScalarOf(s)
  {
    var x: bv32 := 0xFF;
    assert x >> 0 == x;
  }

  lemma TwoBytes(scan: Scan, s: seq<bv8>)
    requires scan.state == ACCEPT && IsChar(s) && |s| == 2
    ensures Step(Step(scan, s[0]), s[1]).codep == ScalarOf(s)
  {
    LeadBits(s[0]);
    TailBits(s[1]);
  }

  lemma ThreeBytes(scan: Scan, s: seq<bv8>)
    requires scan.state == ACCEPT && IsChar(s) && |s| == 3
    ensures Step(Step(Step(scan, s[0]), s[1]), s[2]).codep == ScalarOf(s)
  {
    LeadBits(s[0]);
    TailBits(s[1]);
    TailBits(s[2]);
    ThreeGroups((s[0] & 0x0F) as bv32, (s[1] & 0x3F) as bv32, (s[2] & 0x3F) as bv32);
  }

  /** The states along `s` never rest and end in ACCEPT. */
  predicate ReturnsAtEnd(scan: Scan, s: seq<bv8>)
    requires 1 <= |s| <= 4
  {
    var a := Step(scan, s[0]);
    if |s| == 1 then a.state == ACCEPT else
    var b := Step(a, s[1]);
    REJECT < a.state &&
    if |s| == 2 then b.state == ACCEPT else
    var c := Step(b, s[2]);
    REJECT < b.state &&
    if |s| == 3 then c.state == ACCEPT else
    REJECT < c.state && Step(c, s[3]).state == ACCEPT
  }

  lemma CharStates(scan: Scan, s: seq<bv8>)
    requires scan.state == ACCEPT && 1 <= |s| <= 4
    ensures ReturnsAtEnd(scan, s) <==> IsChar(s)
  {
  }

  lemma LeadStep(scan: Scan, b: bv8)
    requires scan.state == ACCEPT && 0xF0 <= b <= 0xF4
    ensures Step(scan, b).codep == (b & 0x07) as bv32
  {
    LeadBits(b);
  }

  lemma TailStep(scan: Scan, b: bv8)
    requires scan.state != ACCEPT
    ensures Step(scan, b).codep == (b & 0x3F) as bv32 | (scan.codep << 6)
  {
    TailBits(b);
  }

  lemma FourBytes(scan: Scan, s: seq<bv8>)
    requires scan.state == ACCEPT && IsChar(s) && |s| == 4
    ensures Step(Step(Step(Step(scan, s[0]), s[1]), s[2]), s[3]).codep == ScalarOf(s)
  {
    CharStates(scan, s);
    LeadStep(scan, s[0]);
    TailStep(Step(scan, s[0]), s[1]);
    TailStep(Step(Step(scan, s[0]), s[1]), s[2]);
    TailStep(Step(Step(Step(scan, s[0]), s[1]), s[2]), s[3]);
    FourGroups((s[0] & 0x07) as bv32, (s[1] & 0x3F) as bv32, (s[2] & 0x3F) as bv32, (s[3] & 0x3F) as bv32);
  }

  lemma {:induction false} OnlyAtEnd(scan: Scan, s: seq<bv8>)
    requires s != [] && forall k | 0 < k < |s| :: Run(scan, s[..k]).state != ACCEPT
    ensures Outputs(scan, s) == if Run(scan, s).state == ACCEPT then [Run(scan, s).codep] else []
    decreases s
  {
    var front := s[..|s| - 1];
    assert s == front + [s[|s| - 1]];
    RunSnoc(scan, front, s[|s| - 1]);
    if front != [] {
      forall k | 0 < k < |front| ensures Run(scan, front[..k]).state != ACCEPT {
        assert front[..k] == s[..k];
      }
      OnlyAtEnd(scan, front);
    }
  }

  lemma RunOfPrefixes(scan: Scan, s: seq<bv8>)
    requires 1 <= |s| <= 4
    ensures Run(scan, s[..1]) == Step(scan, s[0])
    ensures 2 <= |s| ==> Run(scan, s[..2]) == Step(Step(scan, s[0]), s[1])
    ensures 3 <= |s| ==> Run(scan, s[..3]) == Step(Step(Step(scan, s[0]), s[1]), s[2])
    ensures 4 <= |s| ==> Run(scan, s[..4]) == Step(Step(Step(Step(scan, s[0]), s[1]), s[2]), s[3])
  {
    assert s[..1] == [] + [s[0]];
    RunSnoc(scan, [], s[0]);
    if 2 <= |s| {
      assert s[..2] == s[..1] + [s[1]];
      RunSnoc(scan, s[..1], s[1]);
    }
    if 3 <= |s| {
      assert s[..3] == s[..2] + [s[2]];
      RunSnoc(scan, s[..2], s[2]);
    }
    if 4 <= |s| {
      assert s[..4] == s[..3] + [s[3]];
      RunSnoc(scan, s[..3], s[3]);
    }
  }

  lemma LastStepIsScalar(scan: Scan, s: seq<bv8>)
    requires scan.state == ACCEPT && IsChar(s)
    ensures Run(scan, s) == Scan(ACCEPT, ScalarOf(s))
  {
    CharStates(scan, s);
    RunOfPrefixes(scan, s);
    assert s[..|s|] == s;
    match |s| {
      case 1 => OneByte(scan, s);
      case 2 => TwoBytes(scan, s);
      case 3 => ThreeBytes(scan, s);
      case _ => FourBytes(scan, s);
    }
  }

  /** One character: no proper prefix ends in ACCEPT or REJECT, and the last byte yields the scalar value. */
  lemma CharIsDecoded(scan: Scan, s: seq<bv8>)
    requires scan.state == ACCEPT && IsChar(s)
    ensures Run(scan, s) == Scan(ACCEPT, ScalarOf(s))
    ensures Outputs(scan, s) == [ScalarOf(s)]
    ensures forall k | 0 < k < |s| :: Run(scan, s[..k]).state > REJECT
  {
    LastStepIsScalar(scan, s);
    CharStates(scan, s);
    RunOfPrefixes(scan, s);
    OnlyAtEnd(scan, s);
  }

  // -------------------------------------------------------------- whole streams

  /** A sequence of bytes that section 4 of RFC 3629 derives: some characters, one after another. */
  ghost predicate WellFormed(s: seq<bv8>) {
    exists parts :: AllChars(parts) && Flatten(parts) == s
  }

  /** Some characters of `parts` end exactly at byte `k`. */
  predicate IsBoundary(parts: seq<seq<bv8>>, k: nat)
    decreases parts
  {
    k == 0 || (parts != [] && |parts[0]| <= k && IsBoundary(parts[1..], k - |parts[0]|))
  }

  /** The scalar value of the character that ends at byte `k`. */
  function EndingAt(parts: seq<seq<bv8>>, k: nat): bv32
    requires AllChars(parts) && 0 < k && IsBoundary(parts, k)
    decreases parts
  {
    if k == |parts[0]| then ScalarOf(parts[0]) else EndingAt(parts[1..], k - |parts[0]|)
  }

  /** Every character comes out, in order, with its scalar value. */
  lemma {:induction false} StreamIsDecoded(scan: Scan, parts: seq<seq<bv8>>)
    requires scan.state == ACCEPT && AllChars(parts)
    ensures Run(scan, Flatten(parts)).state == ACCEPT
    ensures Outputs(scan, Flatten(parts)) == Scalars(parts)
    decreases parts
  {
    if parts != [] {
      CharIsDecoded(scan, parts[0]);
      RunConcat(scan, parts[0], Flatten(parts[1..]));
      StreamIsDecoded(Run(scan, parts[0]), parts[1..]);
    }
  }

  /** A run that is between characters cannot end there, and the byte it takes next is not rejected. */
  lemma GoesOn(at: Scan, s: seq<bv8>, k: nat)
    requires k <= |s| && at.state != ACCEPT && Run(at, s[k..]).state == ACCEPT
    ensures k < |s| && at.state != REJECT && Step(at, s[k]).state != REJECT
    ensures Run(Step(at, s[k]), s[k + 1..]).state == ACCEPT
  {
    if at.state == REJECT {
      RejectIsAbsorbing(at, s[k..]);
    }
    assert s[k..][1..] == s[k + 1..];
    if Step(at, s[k]).state == REJECT {
      RejectIsAbsorbing(Step(at, s[k]), s[k + 1..]);
    }
  }

  /** From ACCEPT back to ACCEPT, the first return is after one character of the grammar. */
  lemma LeadingChar(scan: Scan, s: seq<bv8>) returns (k: nat)
    requires scan.state == ACCEPT && s != [] && Run(scan, s).state == ACCEPT
    ensures 0 < k <= |s| && IsChar(s[..k])
  {
    var a := Step(scan, s[0]);
    k := 1;
    if a.state != ACCEPT {
      GoesOn(a, s, 1);
      var b := Step(a, s[1]);
      k := 2;
      if b.state != ACCEPT {
        GoesOn(b, s, 2);
        var c := Step(b, s[2]);
        k := 3;
        if c.state != ACCEPT {
          GoesOn(c, s, 3);
          ThreeLeftAtMost(scan, s);
          k := 4;
        }
      }
    }
    assert ReturnsAtEnd(scan, s[..k]);
    CharStates(scan, s[..k]);
  }

  lemma ThreeLeftAtMost(scan: Scan, s: seq<bv8>)
    requires scan.state == ACCEPT && 4 <= |s|
    requires var a := Step(scan, s[0]); var b := Step(a, s[1]); var c := Step(b, s[2]);
             REJECT < a.state && REJECT < b.state && REJECT < c.state
    ensures Step(Step(Step(Step(scan, s[0]), s[1]), s[2]), s[3]).state <= REJECT
  {
  }

  lemma {:induction false} AcceptedIsWellFormed(scan: Scan, s: seq<bv8>) returns (parts: seq<seq<bv8>>)
    requires scan.state == ACCEPT && Run(scan, s).state == ACCEPT
    ensures AllChars(parts) && Flatten(parts) == s
    decreases s
  {
    if s == [] {
      return [];
    }
    var k := LeadingChar(scan, s);
    assert s == s[..k] + s[k..];
    RunConcat(scan, s[..k], s[k..]);
    CharIsDecoded(scan, s[..k]);
    var rest := AcceptedIsWellFormed(Run(scan, s[..k]), s[k..]);
    parts := [s[..k]] + rest;
  }

  /** The decoder accepts exactly the language of section 4 of RFC 3629. */
  lemma AcceptsExactlyWellFormed(scan: Scan, s: seq<bv8>)
    requires scan.state == ACCEPT
    ensures Run(scan, s).state == ACCEPT <==> WellFormed(s)
  {
    if Run(scan, s).state == ACCEPT {
      var parts := AcceptedIsWellFormed(scan, s);
    }
    if WellFormed(s) {
      var parts :| AllChars(parts) && Flatten(parts) == s;
      StreamIsDecoded(scan, parts);
    }
  }

  /** Inside a well-formed stream the state is ACCEPT exactly between characters, with the value of
      the character that just ended, and never REJECT. */
  lemma {:induction false} AcceptsExactlyAtBoundaries(scan: Scan, parts: seq<seq<bv8>>, k: nat)
    requires scan.state == ACCEPT && AllChars(parts) && k <= |Flatten(parts)|
    ensures var at := Run(scan, Flatten(parts)[..k]);
            && at.state != REJECT
            && (at.state == ACCEPT <==> IsBoundary(parts, k))
            && (0 < k && at.state == ACCEPT ==> at.codep == EndingAt(parts, k))
    decreases parts
  {
    if 0 < k {
      var rest := Flatten(parts[1..]);
      CharIsDecoded(scan, parts[0]);
      if k < |parts[0]| {
        assert Flatten(parts)[..k] == parts[0][..k];
      } else {
        assert Flatten(parts)[..k] == parts[0] + rest[..k - |parts[0]|];
        RunConcat(scan, parts[0], rest[..k - |parts[0]|]);
        AcceptsExactlyAtBoundaries(Run(scan, parts[0]), parts[1..], k - |parts[0]|);
      }
    }
  }

  // ---------------------------------------------------------------- the encoder

  function Two(x: bv32, y: bv32): seq<bv8>
    requires x <= 0x1F && y <= 0x3F
  {
    [(0xC0 | x) as bv8, (0x80 | y) as bv8]
  }

  function Three(x: bv32, y: bv32, z: bv32): seq<bv8>
    requires x <= 0x0F && y <= 0x3F && z <= 0x3F
  {
    [(0xE0 | x) as bv8, (0x80 | y) as bv8, (0x80 | z) as bv8]
  }

  function Four(w: bv32, x: bv32, y: bv32, z: bv32): seq<bv8>
    requires w <= 0x07 && x <= 0x3F && y <= 0x3F && z <= 0x3F
  {
    [(0xF0 | w) as bv8, (0x80 | x) as bv8, (0x80 | y) as bv8, (0x80 | z) as bv8]
  }

  function Encode(ch: bv32): seq<bv8> {
    if ch <= 0x7F then [ch as bv8]
    else if ch <= 0x7FF then Two((ch >> 6) & 0x1F, ch & 0x3F)
    else if ch <= 0xFFFF then Three((ch >> 12) & 0x0F, (ch >> 6) & 0x3F, ch & 0x3F)
    else if ch <= 0x10FFFF then Four((ch >> 18) & 0x07, (ch >> 12) & 0x3F, (ch >> 6) & 0x3F, ch & 0x3F)
    else []
  }

  method EncodeInto(ch: bv32, buffer: array<bv8>) returns (n: nat)
    requires 4 <= buffer.Length
    modifies buffer
    ensures n <= 4 && buffer[..n] == Encode(ch) && buffer[n..] == old(buffer[..])[n..]
  {
    if ch <= 0x7F {
      buffer[0] := ch as bv8;
      return 1;
    }
    if ch <= 0x7FF {
      buffer[0] := (0xC0 | ((ch >> 6) & 0x1F)) as bv8;
      buffer[1] := (0x80 | (ch & 0x3F)) as bv8;
      return 2;
    }
    if ch <= 0xFFFF {
      buffer[0] := (0xE0 | ((ch >> 12) & 0x0F)) as bv8;
      buffer[1] := (0x80 | ((ch >> 6) & 0x3F)) as bv8;
      buffer[2] := (0x80 | (ch & 0x3F)) as bv8;
      return 3;
    }
    if ch <= 0x10FFFF {
      buffer[0] := (0xF0 | ((ch >> 18) & 0x07)) as bv8;
      buffer[1] := (0x80 | ((ch >> 12) & 0x3F)) as bv8;
      buffer[2] := (0x80 | ((ch >> 6) & 0x3F)) as bv8;
      buffer[3] := (0x80 | (ch & 0x3F)) as bv8;
      return 4;
    }
    return 0;
  }

  /** Section 3 of RFC 3629: 0 to 10FFFF without the surrogates. */
  predicate IsScalar(ch: bv32) { ch <= 0x10FFFF && !(0xD800 <= ch <= 0xDFFF) }

  // What the marker bits do to a group of payload bits.
  lemma TailMark(x: bv32)
    requires x <= 0x3F
    ensures IsTail((0x80 | x) as bv8)
    ensures ((0x80 | x) as bv8 & 0x3F) as bv32 == x
  {
  }

  lemma TwoMark(x: bv32)
    requires 0x02 <= x <= 0x1F
    ensures 0xC2 <= (0xC0 | x) as bv8 <= 0xDF
    ensures ((0xC0 | x) as bv8 & 0x1F) as bv32 == x
  {
  }

  /** A three-byte lead, and the second-byte limits that E0 and ED impose. */
  lemma ThreeMark(x: bv32, y: bv32)
    requires x <= 0x0F && y <= 0x3F
    ensures 0xE0 <= (0xE0 | x) as bv8 <= 0xEF
    ensures ((0xE0 | x) as bv8 & 0x0F) as bv32 == x
    ensures x == 0 && 0x20 <= y ==> (0xE0 | x) as bv8 == 0xE0 && 0xA0 <= (0x80 | y) as bv8
    ensures x == 0x0D && y < 0x20 ==> (0xE0 | x) as bv8 == 0xED && (0x80 | y) as bv8 <= 0x9F
    ensures x != 0 ==> (0xE0 | x) as bv8 != 0xE0
    ensures x != 0x0D ==> (0xE0 | x) as bv8 != 0xED
  {
  }

  /** A four-byte lead, and the second-byte limits that F0 and F4 impose. */
  lemma FourMark(x: bv32, y: bv32)
    requires x <= 0x04 && y <= 0x3F
    ensures 0xF0 <= (0xF0 | x) as bv8 <= 0xF4
    ensures ((0xF0 | x) as bv8 & 0x07) as bv32 == x
    ensures x == 0 && 0x10 <= y ==> (0xF0 | x) as bv8 == 0xF0 && 0x90 <= (0x80 | y) as bv8
    ensures x == 0x04 && y < 0x10 ==> (0xF0 | x) as bv8 == 0xF4 && (0x80 | y) as bv8 <= 0x8F
    ensures x != 0 ==> (0xF0 | x) as bv8 != 0xF0
    ensures x != 0x04 ==> (0xF0 | x) as bv8 != 0xF4
  {
  }

  // How a code point is put together from groups of payload bits.
  function JoinTwo(x: bv32, y: bv32): bv32 { (x << 6) | y }

  function JoinThree(x: bv32, y: bv32, z: bv32): bv32 { (x << 12) | (y << 6) | z }

  function JoinFour(w: bv32, x: bv32, y: bv32, z: bv32): bv32 { (w << 18) | (x << 12) | (y << 6) | z }

  // How a code point splits into such groups.
  lemma TwoBits(ch: bv32)
    requires 0x80 <= ch <= 0x7FF
    ensures var x, y := (ch >> 6) & 0x1F, ch & 0x3F;
            0x02 <= x <= 0x1F && y <= 0x3F && (x << 6) | y == ch
  {
  }

  lemma ThreeBits(ch: bv32)
    requires 0x800 <= ch <= 0xFFFF && IsScalar(ch)
    ensures var x, y, z := (ch >> 12) & 0x0F, (ch >> 6) & 0x3F, ch & 0x3F;
            x <= 0x0F && y <= 0x3F && z <= 0x3F && (x << 12) | (y << 6) | z == ch &&
            (x == 0 ==> 0x20 <= y) && (x == 0x0D ==> y < 0x20)
  {
  }

  lemma FourBits(ch: bv32)
    requires 0x10000 <= ch <= 0x10FFFF
    ensures var w, x, y, z := (ch >> 18) & 0x07, (ch >> 12) & 0x3F, (ch >> 6) & 0x3F, ch & 0x3F;
            w <= 0x04 && x <= 0x3F && y <= 0x3F && z <= 0x3F && (w << 18) | (x << 12) | (y << 6) | z == ch &&
            (w == 0 ==> 0x10 <= x) && (w == 0x04 ==> x < 0x10)
  {
  }

  // The same with the join kept folded, which spares the solver the bits from here on.
  lemma TwoJoined(ch: bv32)
    requires 0x80 <= ch <= 0x7FF
    ensures var x, y := (ch >> 6) & 0x1F, ch & 0x3F;
            0x02 <= x <= 0x1F && y <= 0x3F && JoinTwo(x, y) == ch
  {
    TwoBits(ch);
  }

  lemma ThreeJoined(ch: bv32)
    requires 0x800 <= ch <= 0xFFFF && IsScalar(ch)
    ensures var x, y, z := (ch >> 12) & 0x0F, (ch >> 6) & 0x3F, ch & 0x3F;
            x <= 0x0F && y <= 0x3F && z <= 0x3F && JoinThree(x, y, z) == ch &&
            (x == 0 ==> 0x20 <= y) && (x == 0x0D ==> y < 0x20)
  {
    ThreeBits(ch);
  }

  lemma FourJoined(ch: bv32)
    requires 0x10000 <= ch <= 0x10FFFF
    ensures var w, x, y, z := (ch >> 18) & 0x07, (ch >> 12) & 0x3F, (ch >> 6) & 0x3F, ch & 0x3F;
            w <= 0x04 && x <= 0x3F && y <= 0x3F && z <= 0x3F && JoinFour(w, x, y, z) == ch &&
            (w == 0 ==> 0x10 <= x) && (w == 0x04 ==> x < 0x10)
  {
    FourBits(ch);
  }

  // And what the encoder makes of them.
  lemma EncodeIsTwo(ch: bv32)
    requires 0x80 <= ch <= 0x7FF
    ensures Encode(ch) == Two((ch >> 6) & 0x1F, ch & 0x3F)
  {
    hide Two;
  }

  lemma EncodeIsThree(ch: bv32)
    requires 0x800 <= ch <= 0xFFFF
    ensures Encode(ch) == Three((ch >> 12) & 0x0F, (ch >> 6) & 0x3F, ch & 0x3F)
  {
    hide Three;
  }

  lemma EncodeIsFour(ch: bv32)
    requires 0x10000 <= ch <= 0x10FFFF
    ensures Encode(ch) == Four((ch >> 18) & 0x07, (ch >> 12) & 0x3F, (ch >> 6) & 0x3F, ch & 0x3F)
  {
    hide Four;
  }

  lemma TwoIsChar(x: bv32, y: bv32)
    requires 0x02 <= x <= 0x1F && y <= 0x3F
    ensures IsChar(Two(x, y)) && ScalarOf(Two(x, y)) == JoinTwo(x, y)
  {
    TwoMark(x);
    TailMark(y);
  }

  /** The bits of three and of four bytes, put together. */
  lemma ScalarOfThree(s: seq<bv8>, x: bv32, y: bv32, z: bv32)
    requires |s| == 3 && IsChar(s)
    requires (s[0] & 0x0F) as bv32 == x && (s[1] & 0x3F) as bv32 == y && (s[2] & 0x3F) as bv32 == z
    ensures ScalarOf(s) == JoinThree(x, y, z)
  {
    hide IsChar;
  }

  lemma ScalarOfFour(s: seq<bv8>, w: bv32, x: bv32, y: bv32, z: bv32)
    requires |s| == 4 && IsChar(s)
    requires (s[0] & 0x07) as bv32 == w && (s[1] & 0x3F) as bv32 == x
    requires (s[2] & 0x3F) as bv32 == y && (s[3] & 0x3F) as bv32 == z
    ensures ScalarOf(s) == JoinFour(w, x, y, z)
  {
    hide IsChar;
  }

  lemma ThreeShape(x: bv32, y: bv32, z: bv32)
    requires x <= 0x0F && y <= 0x3F && z <= 0x3F
    requires (x == 0 ==> 0x20 <= y) && (x == 0x0D ==> y < 0x20)
    ensures IsChar(Three(x, y, z))
  {
    ThreeMark(x, y);
    TailMark(y);
    TailMark(z);
  }

  lemma FourShape(w: bv32, x: bv32, y: bv32, z: bv32)
    requires w <= 0x04 && x <= 0x3F && y <= 0x3F && z <= 0x3F
    requires (w == 0 ==> 0x10 <= x) && (w == 0x04 ==> x < 0x10)
    ensures IsChar(Four(w, x, y, z))
  {
    FourMark(w, x);
    TailMark(x);
    TailMark(y);
    TailMark(z);
  }

  lemma ThreeIsChar(x: bv32, y: bv32, z: bv32)
    requires x <= 0x0F && y <= 0x3F && z <= 0x3F
    requires (x == 0 ==> 0x20 <= y) && (x == 0x0D ==> y < 0x20)
    ensures IsChar(Three(x, y, z)) && ScalarOf(Three(x, y, z)) == JoinThree(x, y, z)
  {
    hide IsChar, ScalarOf, JoinThree;
    ThreeShape(x, y, z);
    ThreeMark(x, y);
    TailMark(y);
    TailMark(z);
    ScalarOfThree(Three(x, y, z), x, y, z);
  }

  lemma FourIsChar(w: bv32, x: bv32, y: bv32, z: bv32)
    requires w <= 0x04 && x <= 0x3F && y <= 0x3F && z <= 0x3F
    requires (w == 0 ==> 0x10 <= x) && (w == 0x04 ==> x < 0x10)
    ensures IsChar(Four(w, x, y, z)) && ScalarOf(Four(w, x, y, z)) == JoinFour(w, x, y, z)
  {
    hide IsChar, ScalarOf, JoinFour;
    FourShape(w, x, y, z);
    FourMark(w, x);
    TailMark(x);
    TailMark(y);
    TailMark(z);
    ScalarOfFour(Four(w, x, y, z), w, x, y, z);
  }

  lemma EncodeTwo(ch: bv32)
    requires 0x80 <= ch <= 0x7FF
    ensures IsChar(Encode(ch)) && ScalarOf(Encode(ch)) == ch
  {
    hide IsChar, ScalarOf, Encode, Two, JoinTwo;
    var x, y := (ch >> 6) & 0x1F, ch & 0x3F;
    TwoJoined(ch);
    EncodeIsTwo(ch);
    TwoIsChar(x, y);
  }

  lemma EncodeThree(ch: bv32)
    requires 0x800 <= ch <= 0xFFFF && IsScalar(ch)
    ensures IsChar(Encode(ch)) && ScalarOf(Encode(ch)) == ch
  {
    hide IsChar, ScalarOf, Encode, Three, JoinThree;
    var x, y, z := (ch >> 12) & 0x0F, (ch >> 6) & 0x3F, ch & 0x3F;
    ThreeJoined(ch);
    EncodeIsThree(ch);
    ThreeIsChar(x, y, z);
  }

  lemma EncodeFour(ch: bv32)
    requires 0x10000 <= ch <= 0x10FFFF
    ensures IsChar(Encode(ch)) && ScalarOf(Encode(ch)) == ch
  {
    hide IsChar, ScalarOf, Encode, Four, JoinFour;
    var w, x, y, z := (ch >> 18) & 0x07, (ch >> 12) & 0x3F, (ch >> 6) & 0x3F, ch & 0x3F;
    FourJoined(ch);
    EncodeIsFour(ch);
    FourIsChar(w, x, y, z);
  }

  /** What the encoder writes for a scalar value is the one character of the grammar with that value. */
  lemma EncodeIsChar(ch: bv32)
    requires IsScalar(ch)
    ensures IsChar(Encode(ch)) && ScalarOf(Encode(ch)) == ch
  {
    if 0x10000 <= ch { EncodeFour(ch); }
    else if 0x800 <= ch { EncodeThree(ch); }
    else if 0x80 <= ch { EncodeTwo(ch); }
  }

  /** A surrogate is written as three bytes that no character of the grammar starts with. */
  lemma SurrogateIsRejected(scan: Scan, ch: bv32)
    requires scan.state == ACCEPT && 0xD800 <= ch <= 0xDFFF
    ensures Run(scan, Encode(ch)).state == REJECT && Outputs(scan, Encode(ch)) == []
  {
    var x, y, z := (ch >> 12) & 0x0F, (ch >> 6) & 0x3F, ch & 0x3F;
    assert x == 0x0D && 0x20 <= y;
    SurrogateBytes(y);
    var s := Encode(ch);
    assert s[0] == 0xED && 0xA0 <= s[1] <= 0xBF;
    var a := Step(scan, s[0]);
    assert a.state == 5;
    var b := Step(a, s[1]);
    assert b.state == REJECT;
    assert s[1..][1..] == s[2..];
    assert Run(a, s[1..]) == Run(b, s[2..]);
    RejectIsAbsorbing(b, s[2..]);
  }

  lemma SurrogateBytes(y: bv32)
    requires 0x20 <= y <= 0x3F
    ensures (0xE0 | 0x0D as bv32) as bv8 == 0xED && 0xA0 <= (0x80 | y) as bv8 <= 0xBF
  {
  }

  function EncodeAll(vs: seq<bv32>): seq<bv8> {
    if vs == [] then [] else Encode(vs[0]) + EncodeAll(vs[1..])
  }

  function Encodings(vs: seq<bv32>): (parts: seq<seq<bv8>>)
    ensures |parts| == |vs|
  {
    if vs == [] then [] else [Encode(vs[0])] + Encodings(vs[1..])
  }

  lemma {:induction false} EncodingsAreChars(vs: seq<bv32>)
    requires forall v | v in vs :: IsScalar(v)
    ensures AllChars(Encodings(vs)) && Flatten(Encodings(vs)) == EncodeAll(vs)
    ensures Scalars(Encodings(vs)) == vs
  {
    if vs != [] {
      EncodeIsChar(vs[0]);
      EncodingsAreChars(vs[1..]);
      assert Encodings(vs)[1..] == Encodings(vs[1..]);
    }
  }

  /** Every list of scalar values comes back from its own encoding, and no prefix of it is rejected. */
  lemma StreamRoundTrip(scan: Scan, vs: seq<bv32>)
    requires scan.state == ACCEPT && forall v | v in vs :: IsScalar(v)
    ensures Outputs(scan, EncodeAll(vs)) == vs && Run(scan, EncodeAll(vs)).state == ACCEPT
    ensures forall k | 0 <= k <= |EncodeAll(vs)| :: Run(scan, EncodeAll(vs)[..k]).state != REJECT
  {
    EncodingsAreChars(vs);
    StreamIsDecoded(scan, Encodings(vs));
    forall k | 0 <= k <= |EncodeAll(vs)| ensures Run(scan, EncodeAll(vs)[..k]).state != REJECT {
      AcceptsExactlyAtBoundaries(scan, Encodings(vs), k);
    }
  }

  lemma {:induction false} AtMostOneOutputEach(scan: Scan, vs: seq<bv32>)
    requires scan.state == ACCEPT || scan.state == REJECT
    ensures |Outputs(scan, EncodeAll(vs))| <= |vs|
    ensures (exists v | v in vs :: !IsScalar(v)) ==> |Outputs(scan, EncodeAll(vs))| < |vs|
    decreases vs
  {
    if scan.state == REJECT {
      RejectIsAbsorbing(scan, EncodeAll(vs));
    } else if vs != [] {
      var head := Encode(vs[0]);
      RunConcat(scan, head, EncodeAll(vs[1..]));
      if IsScalar(vs[0]) {
        EncodeIsChar(vs[0]);
        CharIsDecoded(scan, head);
      } else if vs[0] <= 0x10FFFF {
        SurrogateIsRejected(scan, vs[0]);
      } else {
        assert head == [];
      }
      AtMostOneOutputEach(Run(scan, head), vs[1..]);
    }
  }

  /** Exactly the lists without surrogates and without values above 10FFFF survive the round trip. */
  lemma RoundTripExactly(scan: Scan, vs: seq<bv32>)
    requires scan.state == ACCEPT
    ensures Outputs(scan, EncodeAll(vs)) == vs <==> forall v | v in vs :: IsScalar(v)
  {
    AtMostOneOutputEach(scan, vs);
    if forall v | v in vs :: IsScalar(v) {
      StreamRoundTrip(scan, vs);
    }
  }

  // How the payload bits of a character determine its bytes.
  lemma BytesOfTwo(a: bv8, b: bv8)
    requires 0xC2 <= a <= 0xDF && IsTail(b)
    ensures var v := ((a & 0x1F) as bv32 << 6) | (b & 0x3F) as bv32;
            && 0x80 <= v <= 0x7FF
            && (0xC0 | ((v >> 6) & 0x1F)) as bv8 == a && (0x80 | (v & 0x3F)) as bv8 == b
  {
  }

  lemma BytesOfThree(a: bv8, b: bv8, c: bv8)
    requires IsChar([a, b, c])
    ensures var v := ((a & 0x0F) as bv32 << 12) | ((b & 0x3F) as bv32 << 6) | (c & 0x3F) as bv32;
            && 0x800 <= v <= 0xFFFF && IsScalar(v)
            && (0xE0 | ((v >> 12) & 0x0F)) as bv8 == a && (0x80 | ((v >> 6) & 0x3F)) as bv8 == b
            && (0x80 | (v & 0x3F)) as bv8 == c
  {
  }

  lemma UngroupFour(w: bv32, x: bv32, y: bv32, z: bv32)
    requires w <= 0x07 && x <= 0x3F && y <= 0x3F && z <= 0x3F
    ensures var v := (w << 18) | (x << 12) | (y << 6) | z;
            && (v >> 18) & 0x07 == w && (v >> 12) & 0x3F == x && (v >> 6) & 0x3F == y && v & 0x3F == z
            && ((w == 0 ==> 0x10 <= x) && (w == 0x04 ==> x < 0x10) && w <= 0x04 ==> 0x10000 <= v <= 0x10FFFF)
  {
  }

  lemma TailUnmark(b: bv8)
    requires IsTail(b)
    ensures (b & 0x3F) as bv32 <= 0x3F && (0x80 | (b & 0x3F) as bv32) as bv8 == b
    ensures 0x90 <= b ==> 0x10 <= (b & 0x3F) as bv32
    ensures b <= 0x8F ==> (b & 0x3F) as bv32 < 0x10
  {
  }

  lemma FourLeadUnmark(a: bv8)
    requires 0xF0 <= a <= 0xF4
    ensures (a & 0x07) as bv32 <= 0x04 && (0xF0 | (a & 0x07) as bv32) as bv8 == a
    ensures (a & 0x07) as bv32 == 0 ==> a == 0xF0
    ensures (a & 0x07) as bv32 == 0x04 ==> a == 0xF4
  {
  }

  lemma FourUnmark(s: seq<bv8>)
    requires |s| == 4 && 0xF0 <= s[0] <= 0xF4 && IsTail(s[1]) && IsTail(s[2]) && IsTail(s[3])
    ensures var w, x, y, z := (s[0] & 0x07) as bv32, (s[1] & 0x3F) as bv32, (s[2] & 0x3F) as bv32, (s[3] & 0x3F) as bv32;
            && w <= 0x04 && x <= 0x3F && y <= 0x3F && z <= 0x3F
            && (0xF0 | w) as bv8 == s[0] && (0x80 | x) as bv8 == s[1] && (0x80 | y) as bv8 == s[2] && (0x80 | z) as bv8 == s[3]
  {
    FourLeadUnmark(s[0]);
    TailUnmark(s[1]);
    TailUnmark(s[2]);
    TailUnmark(s[3]);
  }

  lemma FourLimits(s: seq<bv8>)
    requires |s| == 4 && 0xF0 <= s[0] <= 0xF4 && IsTail(s[1])
    requires (s[0] == 0xF0 ==> 0x90 <= s[1]) && (s[0] == 0xF4 ==> s[1] <= 0x8F)
    ensures var w, x := (s[0] & 0x07) as bv32, (s[1] & 0x3F) as bv32;
            (w == 0 ==> 0x10 <= x) && (w == 0x04 ==> x < 0x10)
  {
    FourLeadUnmark(s[0]);
    TailUnmark(s[1]);
  }

  lemma FourOfGroups(s: seq<bv8>, w: bv32, x: bv32, y: bv32, z: bv32)
    requires |s| == 4 && w <= 0x07 && x <= 0x3F && y <= 0x3F && z <= 0x3F
    requires (0xF0 | w) as bv8 == s[0] && (0x80 | x) as bv8 == s[1] && (0x80 | y) as bv8 == s[2] && (0x80 | z) as bv8 == s[3]
    ensures Four(w, x, y, z) == s
  {
  }

  lemma EncodeOfFourGroups(w: bv32, x: bv32, y: bv32, z: bv32, v: bv32)
    requires w <= 0x04 && x <= 0x3F && y <= 0x3F && z <= 0x3F
    requires (w == 0 ==> 0x10 <= x) && (w == 0x04 ==> x < 0x10)
    requires v == (w << 18) | (x << 12) | (y << 6) | z
    ensures IsScalar(v) && Encode(v) == Four(w, x, y, z)
  {
    UngroupFour(w, x, y, z);
  }

  lemma BytesOfFour(s: seq<bv8>, w: bv32, x: bv32, y: bv32, z: bv32, v: bv32)
    requires |s| == 4 && 0xF0 <= s[0] <= 0xF4 && IsTail(s[1]) && IsTail(s[2]) && IsTail(s[3])
    requires (s[0] == 0xF0 ==> 0x90 <= s[1]) && (s[0] == 0xF4 ==> s[1] <= 0x8F)
    requires w == (s[0] & 0x07) as bv32 && x == (s[1] & 0x3F) as bv32 && y == (s[2] & 0x3F) as bv32 && z == (s[3] & 0x3F) as bv32
    requires v == (w << 18) | (x << 12) | (y << 6) | z
    ensures IsScalar(v) && Encode(v) == s
  {
    FourUnmark(s);
    FourLimits(s);
    FourOfGroups(s, w, x, y, z);
    EncodeOfFourGroups(w, x, y, z, v);
  }

  lemma CharOfThreeIsEncoded(s: seq<bv8>)
    requires IsChar(s) && |s| == 3
    ensures IsScalar(ScalarOf(s)) && Encode(ScalarOf(s)) == s
  {
    assert s == [s[0], s[1], s[2]];
    BytesOfThree(s[0], s[1], s[2]);
  }

  lemma FourGroupsOfChar(s: seq<bv8>) returns (w: bv32, x: bv32, y: bv32, z: bv32, v: bv32)
    requires IsChar(s) && |s| == 4
    ensures v == ScalarOf(s)
    ensures 0xF0 <= s[0] <= 0xF4 && IsTail(s[1]) && IsTail(s[2]) && IsTail(s[3])
    ensures (s[0] == 0xF0 ==> 0x90 <= s[1]) && (s[0] == 0xF4 ==> s[1] <= 0x8F)
    ensures w == (s[0] & 0x07) as bv32 && x == (s[1] & 0x3F) as bv32 && y == (s[2] & 0x3F) as bv32 && z == (s[3] & 0x3F) as bv32
    ensures v == (w << 18) | (x << 12) | (y << 6) | z
  {
    w, x, y, z := (s[0] & 0x07) as bv32, (s[1] & 0x3F) as bv32, (s[2] & 0x3F) as bv32, (s[3] & 0x3F) as bv32;
    v := ScalarOf(s);
  }

  lemma CharOfFourIsEncoded(s: seq<bv8>)
    requires IsChar(s) && |s| == 4
    ensures IsScalar(ScalarOf(s)) && Encode(ScalarOf(s)) == s
  {
    var w, x, y, z, v := FourGroupsOfChar(s);
    BytesOfFour(s, w, x, y, z, v);
  }

  /** The encoder undoes the decoder: every character of the grammar is the encoding of its scalar value. */
  lemma CharIsEncoded(s: seq<bv8>)
    requires IsChar(s)
    ensures IsScalar(ScalarOf(s)) && Encode(ScalarOf(s)) == s
  {
    match |s| {
      case 1 =>
      case 2 => BytesOfTwo(s[0], s[1]);
      case 3 => CharOfThreeIsEncoded(s);
      case _ => CharOfFourIsEncoded(s);
    }
  }
}
