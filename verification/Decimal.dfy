/**
 Numbers in decimal, apart from any parser: what the parameter strings of source/ansi.c stand for.
 */
module Decimal {
  import opened Display
  import opened Parameters
  import Csi

  /** A number, and with how many digits it is written: zeros come before it if there are more than it needs. */
  datatype Number = Number(value: nat, width: nat)

  function Power(k: nat): (r: nat)
    ensures 1 <= r
  {
    if k == 0 then 1 else 10 * Power(k - 1)
  }

  /** What one to six digits can say. */
  predicate IsNumber(x: Number) {
    1 <= x.width <= 6 && x.value < Power(x.width)
  }

  /** The last `width` decimal digits. */
  function Digits(value: nat, width: nat): (r: seq<byte>)
    ensures |r| == width && forall c | c in r :: 0x30 <= c <= 0x39
    decreases width
  {
    if width == 0 then [] else Digits(value / 10, width - 1) + [0x30 + value % 10]
  }

  function Written(x: Number): seq<byte> {
    Digits(x.value, x.width)
  }

  lemma {:induction false} DigitsValue(value: nat, width: nat)
    requires value < Power(width)
    ensures Csi.Value(Digits(value, width)) == value
    decreases width
  {
    if width > 0 {
      var s := Digits(value, width);
      assert s[..|s| - 1] == Digits(value / 10, width - 1) && s[|s| - 1] == 0x30 + value % 10;
      DigitsValue(value / 10, width - 1);
    }
  }

  lemma WrittenIsParameter(x: Number)
    requires IsNumber(x)
    ensures IsParameter(Written(x)) && Csi.Value(Written(x)) == x.value
  {
    DigitsValue(x.value, x.width);
  }

  /** Six digits are enough for every number below a million. */
  lemma MillionFits(n: nat)
    ensures n < 1000000 <==> IsNumber(Number(n, 6))
  {
    assert Power(6) == 1000000;
  }

  /** Every such number, with or without zeros before it, is read as itself. */
  lemma NumberIsRead(buf: seq<byte>, at: nat, x: Number)
    requires IsNumber(x)
    requires at + x.width <= |buf| && buf[at..at + x.width] == Written(x) && !IsDigit(Csi.Cell(buf, at + x.width))
    ensures Csi.Ps(buf, at) == Csi.Number(x.value, at + x.width)
  {
    WrittenIsParameter(x);
    hide Csi.Ps, Csi.Value, Digits, IsDigit;
    ParameterRead(buf, at, Written(x));
  }

  /** And every parameter is such a number, written so. */
  lemma {:induction false} DigitsOfValue(p: seq<byte>)
    requires forall c | c in p :: IsDigit(c)
    ensures 0 <= Csi.Value(p) < Power(|p|) && Digits(Csi.Value(p), |p|) == p
    decreases |p|
  {
    if p != [] {
      var front, last := p[..|p| - 1], p[|p| - 1];
      assert last in p && forall c | c in front :: c in p;
      DigitsOfValue(front);
      var v := Csi.Value(front);
      assert Csi.Value(p) == v * 10 + (last as int - 0x30);
      assert Csi.Value(p) / 10 == v && Csi.Value(p) % 10 == last - 0x30;
      assert p == front + [last];
    }
  }

  lemma ParameterIsWritten(p: seq<byte>)
    requires IsParameter(p)
    ensures 0 <= Csi.Value(p) && IsNumber(Number(Csi.Value(p), |p|)) && Written(Number(Csi.Value(p), |p|)) == p
  {
    DigitsOfValue(p);
  }

  // ------------------------------------------------------- lists of numbers

  ghost predicate AreNumbers(xs: seq<Number>) {
    forall x | x in xs :: IsNumber(x)
  }

  function AllWritten(xs: seq<Number>): (r: seq<seq<byte>>)
    ensures |r| == |xs|
  {
    if xs == [] then [] else [Written(xs[0])] + AllWritten(xs[1..])
  }

  function ValuesOf(xs: seq<Number>): (r: seq<int>)
    ensures |r| == |xs|
  {
    if xs == [] then [] else [xs[0].value] + ValuesOf(xs[1..])
  }

  lemma {:induction false} AllWrittenAreParameters(xs: seq<Number>)
    requires AreNumbers(xs)
    ensures AllParameters(AllWritten(xs)) && Values(AllWritten(xs)) == ValuesOf(xs)
    decreases |xs|
  {
    hide Csi.Value, Digits, IsNumber, IsParameter;
    if xs != [] {
      assert xs[0] in xs && forall x | x in xs[1..] :: x in xs;
      WrittenIsParameter(xs[0]);
      AllWrittenAreParameters(xs[1..]);
      assert AllWritten(xs)[1..] == AllWritten(xs[1..]);
      assert forall p | p in AllWritten(xs) :: p == Written(xs[0]) || p in AllWritten(xs[1..]);
    }
  }
}
