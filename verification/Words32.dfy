/**
 32-bit words and the numbers they are: sums, shifts, masks and exclusive or in integer arithmetic.
 The facts are stated of a function `n` that gives the number of a word, so that proofs about words
 do not get to see the bits.
 */
module Words32 {
  const TWO_32: nat := 0x1_0000_0000

  datatype TwoNumbers = TwoNumbers(v0: nat, v1: nat)

  /** Exclusive or of two numbers: digit by digit in base 2, the sum without carries. */
  function XorOf(x: nat, y: nat): nat
    decreases x + y
  {
    if x == 0 && y == 0 then 0 else (x + y) % 2 + 2 * XorOf(x / 2, y / 2)
  }

  predicate IsNumber(n: bv32 -> nat, x: bv32) {
    n(x) == x as nat
  }

  predicate InRange(n: bv32 -> nat, x: bv32) {
    n(x) < TWO_32 && (n(x) == 0 ==> x == 0)
  }

  predicate Sums(n: bv32 -> nat, x: bv32, y: bv32) {
    n(x + y) == (n(x) + n(y)) % TWO_32
  }

  /** The lowest digit and the rest. */
  predicate Halves(n: bv32 -> nat, x: bv32) {
    n(x) == n(x & 1) + 2 * n(x >> 1)
  }

  predicate Digits(n: bv32 -> nat) {
    n(0) == 0 && n(1) == 1
  }

  ghost predicate Numbers(n: bv32 -> nat) {
    && Digits(n)
    && (forall x {:trigger IsNumber(n, x)} :: IsNumber(n, x))
    && (forall x {:trigger InRange(n, x)} :: InRange(n, x))
    && (forall x, y {:trigger Sums(n, x, y)} :: Sums(n, x, y))
    && (forall x {:trigger Halves(n, x)} :: Halves(n, x))
    && (forall a, b, c, d {:trigger Joins(n, a, b, c, d)} :: Joins(n, a, b, c, d))
  }

  // The number of a word of 33 bits, of which the laws follow.

  predicate WideSum(n: bv32 -> nat, w: bv33 -> nat, x: bv32, y: bv32) {
    w((x as bv33) + (y as bv33)) == n(x) + n(y)
  }

  predicate WideCut(n: bv32 -> nat, w: bv33 -> nat, low: bv32, high: bv1) {
    w((low as bv33) | ((high as bv33) << 32)) == n(low) + if high == 1 then TWO_32 else 0
  }

  predicate Doubled(n: bv32 -> nat, low: bv1, high: bv31) {
    n((low as bv32) | ((high as bv32) << 1)) == n(low as bv32) + 2 * n(high as bv32)
  }

  lemma WideSumIs(x: bv32, y: bv32)
    ensures ((x as bv33) + (y as bv33)) as nat == x as nat + y as nat
  {
  }

  lemma WideCutIs(low: bv32, high: bv1)
    ensures ((low as bv33) | ((high as bv33) << 32)) as nat == low as nat + TWO_32 * high as nat
    ensures high as nat == if high == 1 then 1 else 0
  {
  }

  lemma DoubledIs(low: bv1, high: bv31)
    ensures ((low as bv32) | ((high as bv32) << 1)) as nat == low as nat + 2 * high as nat
    ensures (low as bv32) as nat == low as nat && (high as bv32) as nat == high as nat
  {
  }

  lemma RangeIs(x: bv32)
    ensures x as nat < TWO_32
    ensures x as nat == 0 ==> x == 0
  {
  }

  lemma Widths() returns (n: bv32 -> nat, w: bv33 -> nat)
    ensures Digits(n)
    ensures forall x {:trigger IsNumber(n, x)} :: IsNumber(n, x)
    ensures forall x {:trigger InRange(n, x)} :: InRange(n, x)
    ensures forall x, y {:trigger WideSum(n, w, x, y)} :: WideSum(n, w, x, y)
    ensures forall low, high {:trigger WideCut(n, w, low, high)} :: WideCut(n, w, low, high)
    ensures forall low, high {:trigger Doubled(n, low, high)} :: Doubled(n, low, high)
    ensures forall a, b, c, d {:trigger Joins(n, a, b, c, d)} :: Joins(n, a, b, c, d)
  {
    n, w := (x: bv32) => x as nat, (x: bv33) => x as nat;
    forall x
      ensures InRange(n, x)
    {
      RangeIs(x);
    }
    forall x, y
      ensures WideSum(n, w, x, y)
    {
      WideSumIs(x, y);
    }
    forall low, high
      ensures WideCut(n, w, low, high)
    {
      WideCutIs(low, high);
    }
    forall low, high
      ensures Doubled(n, low, high)
    {
      DoubledIs(low, high);
    }
    forall a, b, c, d
      ensures Joins(n, a, b, c, d)
    {
      JoinsIs(a, b, c, d);
    }
  }

  /** The carry of a sum. */
  lemma Carry(x: bv32, y: bv32) returns (high: bv1)
    ensures (x as bv33) + (y as bv33) == ((x + y) as bv33) | ((high as bv33) << 32)
  {
    high := ((((x as bv33) + (y as bv33)) >> 32) & 1) as bv1;
  }

  lemma SumByCarry(n: bv32 -> nat, w: bv33 -> nat, x: bv32, y: bv32)
    requires WideSum(n, w, x, y) && InRange(n, x) && InRange(n, y) && InRange(n, x + y)
    requires forall low, high {:trigger WideCut(n, w, low, high)} :: WideCut(n, w, low, high)
    ensures Sums(n, x, y)
  {
    var high := Carry(x, y);
    assert WideCut(n, w, x + y, high);
  }

  lemma Halve(x: bv32) returns (low: bv1, high: bv31)
    ensures x == (low as bv32) | ((high as bv32) << 1) && x & 1 == low as bv32 && x >> 1 == high as bv32
  {
    low, high := (x & 1) as bv1, (x >> 1) as bv31;
  }

  lemma HalvesByDigit(n: bv32 -> nat, x: bv32)
    requires forall low, high {:trigger Doubled(n, low, high)} :: Doubled(n, low, high)
    ensures Halves(n, x)
  {
    var low, high := Halve(x);
    assert Doubled(n, low, high);
  }

  /** The numbers of words obey these laws. */
  lemma NumbersOfWords() returns (n: bv32 -> nat)
    ensures Numbers(n)
  {
    var w;
    n, w := Widths();
    forall x, y
      ensures Sums(n, x, y)
    {
      assert WideSum(n, w, x, y) && InRange(n, x) && InRange(n, y) && InRange(n, x + y);
      SumByCarry(n, w, x, y);
    }
    forall x
      ensures Halves(n, x)
    {
      HalvesByDigit(n, x);
    }
  }

  // What follows from the laws.

  lemma OneDigit(n: bv32 -> nat, x: bv32)
    requires Digits(n)
    ensures n(x & 1) == if x & 1 == 1 then 1 else 0
  {
    assert x & 1 == 0 || x & 1 == 1;
  }

  lemma HalfIs(n: bv32 -> nat, x: bv32)
    requires Numbers(n)
    ensures n(x >> 1) == n(x) / 2 && n(x & 1) == n(x) % 2
  {
    assert Halves(n, x);
    OneDigit(n, x);
  }

  lemma Shifts(x: bv32)
    ensures x >> 2 == (x >> 1) >> 1 && x >> 4 == (x >> 2) >> 2 && x >> 5 == (x >> 4) >> 1
    ensures x >> 8 == (x >> 4) >> 4 && x >> 16 == (x >> 8) >> 8
    ensures x >> 24 == (x >> 16) >> 8
  {
  }

  lemma ShiftIs2(n: bv32 -> nat, x: bv32)
    requires Numbers(n)
    ensures n(x >> 2) == n(x) / 4
  {
    Shifts(x);
    HalfIs(n, x);
    HalfIs(n, x >> 1);
  }

  lemma ShiftIs4(n: bv32 -> nat, x: bv32)
    requires Numbers(n)
    ensures n(x >> 4) == n(x) / 16
  {
    Shifts(x);
    ShiftIs2(n, x);
    ShiftIs2(n, x >> 2);
  }

  lemma ShiftIs5(n: bv32 -> nat, x: bv32)
    requires Numbers(n)
    ensures n(x >> 5) == n(x) / 32
  {
    Shifts(x);
    ShiftIs4(n, x);
    HalfIs(n, x >> 4);
  }

  lemma ShiftIs8(n: bv32 -> nat, x: bv32)
    requires Numbers(n)
    ensures n(x >> 8) == n(x) / 0x100
  {
    Shifts(x);
    ShiftIs4(n, x);
    ShiftIs4(n, x >> 4);
  }

  lemma ShiftIs10(n: bv32 -> nat, x: bv32)
    requires Numbers(n)
    ensures n(x >> 10) == n(x) / 1024
  {
    assert x >> 10 == (x >> 8) >> 2;
    ShiftIs8(n, x);
    ShiftIs2(n, x >> 8);
  }

  lemma ShiftIs11(n: bv32 -> nat, x: bv32)
    requires Numbers(n)
    ensures n(x >> 11) == n(x) / 2048
  {
    assert x >> 11 == (x >> 10) >> 1;
    ShiftIs10(n, x);
    HalfIs(n, x >> 10);
  }

  lemma ShiftIs16(n: bv32 -> nat, x: bv32)
    requires Numbers(n)
    ensures n(x >> 16) == n(x) / 0x1_0000
  {
    Shifts(x);
    ShiftIs8(n, x);
    ShiftIs8(n, x >> 8);
  }

  lemma ShiftIs24(n: bv32 -> nat, x: bv32)
    requires Numbers(n)
    ensures n(x >> 24) == n(x) / 0x100_0000
  {
    Shifts(x);
    ShiftIs16(n, x);
    ShiftIs8(n, x >> 16);
  }

  lemma DoubleIs(n: bv32 -> nat, x: bv32)
    requires Numbers(n)
    ensures n(x << 1) == 2 * n(x) % TWO_32
  {
    assert x << 1 == x + x;
    assert Sums(n, x, x);
  }

  lemma ShiftLeftIs2(n: bv32 -> nat, x: bv32)
    requires Numbers(n)
    ensures n(x << 2) == 4 * n(x) % TWO_32
  {
    assert x << 2 == (x << 1) << 1;
    DoubleIs(n, x);
    DoubleIs(n, x << 1);
    Twice(2 * n(x));
  }

  lemma FourTimes(a: nat)
    ensures 4 * (a % TWO_32) % TWO_32 == 4 * a % TWO_32
  {
    Twice(a);
    Twice(2 * a);
    Twice(2 * (a % TWO_32));
  }

  lemma ShiftLeftIs4(n: bv32 -> nat, x: bv32)
    requires Numbers(n)
    ensures n(x << 4) == 16 * n(x) % TWO_32
  {
    assert x << 4 == (x << 2) << 2;
    ShiftLeftIs2(n, x);
    ShiftLeftIs2(n, x << 2);
    FourTimes(4 * n(x));
  }

  lemma Twice(a: nat)
    ensures 2 * (a % TWO_32) % TWO_32 == 2 * a % TWO_32
  {
  }

  lemma LowTwo(x: bv32)
    ensures (x & 3) & 1 == x & 1 && (x & 3) >> 1 == (x >> 1) & 1
  {
  }

  lemma MaskIs3(n: bv32 -> nat, x: bv32)
    requires Numbers(n)
    ensures n(x & 3) == n(x) % 4
  {
    LowTwo(x);
    assert Halves(n, x & 3) && Halves(n, x);
    HalfIs(n, x);
    HalfIs(n, x >> 1);
  }

  lemma XorDigits(x: bv32, y: bv32)
    ensures (x ^ y) >> 1 == (x >> 1) ^ (y >> 1)
    ensures (x ^ y) & 1 == (x & 1) ^ (y & 1)
    ensures (x & 1) ^ (y & 1) == if x & 1 == y & 1 then 0 else 1
  {
  }

  lemma XorStep(a: nat, b: nat)
    ensures XorOf(a, b) == (if a % 2 == b % 2 then 0 else 1) + 2 * XorOf(a / 2, b / 2)
  {
    Parity(a, b);
  }

  lemma Parity(a: nat, b: nat)
    ensures (a + b) % 2 == if a % 2 == b % 2 then 0 else 1
  {
  }

  lemma XorHalves(n: bv32 -> nat, x: bv32, y: bv32)
    requires Numbers(n)
    ensures n(x ^ y) == (if n(x) % 2 == n(y) % 2 then 0 else 1) + 2 * n((x >> 1) ^ (y >> 1))
  {
    XorDigits(x, y);
    HalfIs(n, x);
    HalfIs(n, y);
    OneDigit(n, x);
    OneDigit(n, y);
    OneDigit(n, x ^ y);
    assert Halves(n, x ^ y);
  }

  /** Exclusive or of words is that of their numbers. */
  lemma {:induction false} XorIs(n: bv32 -> nat, x: bv32, y: bv32)
    requires Numbers(n)
    ensures n(x ^ y) == XorOf(n(x), n(y))
    decreases n(x) + n(y)
  {
    if n(x) == 0 && n(y) == 0 {
      assert InRange(n, x) && InRange(n, y);
    } else {
      XorHalves(n, x, y);
      HalfIs(n, x);
      HalfIs(n, y);
      XorIs(n, x >> 1, y >> 1);
      XorStep(n(x), n(y));
    }
  }

  /** Subtracting is what adding takes back. */
  lemma DifferenceIs(n: bv32 -> nat, x: bv32, y: bv32)
    requires Numbers(n)
    ensures n(x - y) == (n(x) - n(y)) % TWO_32
  {
    assert (x - y) + y == x;
    assert Sums(n, x - y, y) && InRange(n, x) && InRange(n, y) && InRange(n, x - y);
  }

  lemma LowDigits(x: bv32)
    ensures (x & 15) & 3 == x & 3 && (x & 15) >> 2 == (x >> 2) & 3
    ensures (x & 255) & 15 == x & 15 && (x & 255) >> 4 == (x >> 4) & 15
  {
  }

  lemma DigitsOf4(y: nat, x: nat)
    requires y % 4 == x % 4 && y / 4 == x / 4 % 4
    ensures y == x % 16
  {
  }

  lemma DigitsOf16(y: nat, x: nat)
    requires y % 16 == x % 16 && y / 16 == x / 16 % 16
    ensures y == x % 0x100
  {
  }

  lemma MaskIs15(n: bv32 -> nat, x: bv32)
    requires Numbers(n)
    ensures n(x & 15) == n(x) % 16
  {
    LowDigits(x);
    MaskIs3(n, x & 15);
    MaskIs3(n, x);
    ShiftIs2(n, x & 15);
    ShiftIs2(n, x);
    MaskIs3(n, x >> 2);
    DigitsOf4(n(x & 15), n(x));
  }

  lemma MaskIs255(n: bv32 -> nat, x: bv32)
    requires Numbers(n)
    ensures n(x & 255) == n(x) % 0x100
  {
    LowDigits(x);
    MaskIs15(n, x & 255);
    MaskIs15(n, x);
    ShiftIs4(n, x & 255);
    ShiftIs4(n, x);
    MaskIs15(n, x >> 4);
    DigitsOf16(n(x & 255), n(x));
  }

  predicate IsSum(z: bv32, x: bv32, y: bv32) {
    z as nat == (x as nat + y as nat) % TWO_32
  }

  predicate IsDifference(z: bv32, x: bv32, y: bv32) {
    z as nat == (x as nat - y as nat) % TWO_32
  }

  lemma SumOf(n: bv32 -> nat, z: bv32, x: bv32, y: bv32)
    requires Numbers(n) && n(z) == (n(x) + n(y)) % TWO_32
    ensures IsSum(z, x, y)
  {
    assert IsNumber(n, x) && IsNumber(n, y) && IsNumber(n, z);
  }

  lemma DifferenceOf(n: bv32 -> nat, z: bv32, x: bv32, y: bv32)
    requires Numbers(n) && n(z) == (n(x) - n(y)) % TWO_32
    ensures IsDifference(z, x, y)
  {
    assert IsNumber(n, x) && IsNumber(n, y) && IsNumber(n, z);
  }

  // Words as bytes.

  /** The number these bytes are, least significant byte first. */
  function LittleNumber(bytes: seq<bv8>): nat {
    if bytes == [] then 0 else bytes[0] as nat + 0x100 * LittleNumber(bytes[1..])
  }

  /** The number these bytes are, most significant byte first. */
  function BigNumber(bytes: seq<bv8>): nat {
    if bytes == [] then 0 else BigNumber(bytes[..|bytes| - 1]) * 0x100 + bytes[|bytes| - 1] as nat
  }

  predicate Joins(n: bv32 -> nat, a: bv8, b: bv8, c: bv8, d: bv8) {
    n((a as bv32) | ((b as bv32) << 8) | ((c as bv32) << 16) | ((d as bv32) << 24))
    == a as nat + 0x100 * b as nat + 0x1_0000 * c as nat + 0x100_0000 * d as nat
  }

  lemma JoinsIs(a: bv8, b: bv8, c: bv8, d: bv8)
    ensures ((a as bv32) | ((b as bv32) << 8) | ((c as bv32) << 16) | ((d as bv32) << 24)) as nat
         == a as nat + 0x100 * b as nat + 0x1_0000 * c as nat + 0x100_0000 * d as nat
  {
  }

  lemma {:induction false} LittleOfFour(b: seq<bv8>)
    requires |b| == 4
    ensures LittleNumber(b) == b[0] as nat + 0x100 * b[1] as nat + 0x1_0000 * b[2] as nat + 0x100_0000 * b[3] as nat
  {
    var b1, b2, b3 := b[1..], b[2..], b[3..];
    assert b1[1..] == b2 && b2[1..] == b3 && b3[1..] == [];
    assert LittleNumber(b3) == b[3] as nat;
    assert LittleNumber(b2) == b[2] as nat + 0x100 * LittleNumber(b3);
    assert LittleNumber(b1) == b[1] as nat + 0x100 * LittleNumber(b2);
  }

  lemma {:induction false} BigOfFour(b: seq<bv8>)
    requires |b| == 4
    ensures BigNumber(b) == b[3] as nat + 0x100 * b[2] as nat + 0x1_0000 * b[1] as nat + 0x100_0000 * b[0] as nat
  {
    var b1, b2, b3 := b[..1], b[..2], b[..3];
    assert b3[..2] == b2 && b2[..1] == b1 && b1[..0] == [];
    assert BigNumber(b1) == b[0] as nat;
    assert BigNumber(b2) == BigNumber(b1) * 0x100 + b[1] as nat;
    assert BigNumber(b3) == BigNumber(b2) * 0x100 + b[2] as nat;
  }
}
