/**
 Bytes as the field of section 4.2 of FIPS 197, polynomials modulo x^8 + x^4 + x^3 + x + 1 told by
 their bits, and what doubling, mixing, the substitution and the round constants are in it.
 */
module AesField {
  import opened AesBytes
  import opened AesCipher

  /** x^8 + x^4 + x^3 + x + 1; bit i of a word is the coefficient of x^i. */
  const MODULUS: bv16 := 0x11B

  /** x times a polynomial of degree 7 at most, less the modulus where x^8 comes up. */
  function TimesX(b: bv8): bv8 {
    var p := (b as bv16) << 1;
    ((if p & 0x100 == 0 then p else p ^ MODULUS) & 0xFF) as bv8
  }

  function Digit(a: bv8, i: bv4): bool
    requires i < 8
  {
    (a >> i) & 1 == 1
  }

  /** b, if x^i is in a, and x times what the higher powers in a give. */
  function Step(d: bool, b: bv8, higher: bv8): bv8 {
    (if d then b else 0) ^ TimesX(higher)
  }

  /** The product in the field: the sum of x^i times b over the powers in a. */
  function Times(a: bv8, b: bv8): bv8 {
    Step(Digit(a, 0), b, Step(Digit(a, 1), b, Step(Digit(a, 2), b, Step(Digit(a, 3), b,
      Step(Digit(a, 4), b, Step(Digit(a, 5), b, Step(Digit(a, 6), b, Step(Digit(a, 7), b, 0))))))))
  }

  // Products over the operations that the cipher uses.

  function Scaled<W>(k: Field<W>, d: bool, b: W): W {
    if d then b else k.zero
  }

  /** The same with a given by its digits, over any field operations. */
  function Horner<W>(k: Field<W>, d: seq<bool>, b: W): W {
    if d == [] then k.zero else k.xor(Scaled(k, d[0], b), k.xtime(Horner(k, d[1..], b)))
  }

  lemma ZeroDoubled<W(!new)>(k: Field<W>)
    requires Laws(k)
    ensures k.xtime(k.zero) == k.zero && k.xor(k.zero, k.zero) == k.zero
  {
    assert Unit(k, k.zero) && Doubles(k, k.zero, k.zero) && Unit(k, k.xtime(k.zero));
  }

  lemma ScaledSum<W(!new)>(k: Field<W>, d: bool, b: W, c: W)
    requires Laws(k)
    ensures Scaled(k, d, k.xor(b, c)) == k.xor(Scaled(k, d, b), Scaled(k, d, c))
    ensures Scaled(k, d, k.xtime(b)) == k.xtime(Scaled(k, d, b))
  {
    ZeroDoubled(k);
  }

  /** Products distribute over sums and can be doubled in the factor. */
  lemma {:induction false} HornerLinear<W(!new)>(k: Field<W>, d: seq<bool>, b: W, c: W)
    requires Laws(k)
    ensures Horner(k, d, k.xor(b, c)) == k.xor(Horner(k, d, b), Horner(k, d, c))
    ensures Horner(k, d, k.xtime(b)) == k.xtime(Horner(k, d, b))
  {
    ZeroDoubled(k);
    if d != [] {
      var p, q := Horner(k, d[1..], b), Horner(k, d[1..], c);
      HornerLinear(k, d[1..], b, c);
      ScaledSum(k, d[0], b, c);
      assert Doubles(k, p, q) && Doubles(k, Scaled(k, d[0], b), k.xtime(p));
      Exchange(k, Scaled(k, d[0], b), Scaled(k, d[0], c), k.xtime(p), k.xtime(q));
    }
  }

  lemma {:induction false} HornerOfZero<W(!new)>(k: Field<W>, d: seq<bool>)
    requires Laws(k)
    ensures Horner(k, d, k.zero) == k.zero
  {
    ZeroDoubled(k);
    if d != [] {
      HornerOfZero(k, d[1..]);
    }
  }

  lemma ScaledHorner<W(!new)>(k: Field<W>, d: seq<bool>, e: bool, b: W)
    requires Laws(k)
    ensures Scaled(k, e, Horner(k, d, b)) == Horner(k, d, Scaled(k, e, b))
  {
    HornerOfZero(k, d);
  }

  /** The order of two factors does not matter. */
  lemma {:induction false} HornerSwap<W(!new)>(k: Field<W>, d: seq<bool>, e: seq<bool>, b: W)
    requires Laws(k)
    ensures Horner(k, e, Horner(k, d, b)) == Horner(k, d, Horner(k, e, b))
    decreases |e|
  {
    if e == [] {
      HornerOfZero(k, d);
    } else {
      var rest := Horner(k, e[1..], b);
      HornerSwap(k, d, e[1..], b);
      ScaledHorner(k, d, e[0], b);
      HornerLinear(k, d, Scaled(k, e[0], b), k.xtime(rest));
      HornerLinear(k, d, rest, rest);
    }
  }

  lemma HornerNext<W>(k: Field<W>, d: seq<bool>, i: nat, b: W)
    requires i < |d|
    ensures Horner(k, d[i..], b) == k.xor(Scaled(k, d[i], b), k.xtime(Horner(k, d[i + 1..], b)))
  {
    assert d[i..][1..] == d[i + 1..];
  }

  // The product is that product.

  /** Doubling is multiplication by x. */
  lemma Doubling(b: bv8)
    ensures XTime(b) == TimesX(b) && XTime(b) == Times(2, b)
  {
  }

  lemma Trebling(b: bv8)
    ensures XTime(b) ^ b == Times(3, b)
  {
  }

  function Digits(a: bv8): seq<bool> {
    [Digit(a, 0), Digit(a, 1), Digit(a, 2), Digit(a, 3), Digit(a, 4), Digit(a, 5), Digit(a, 6), Digit(a, 7)]
  }

  lemma ScaledIs(d: bool, b: bv8)
    ensures Scaled(FIELD, d, b) == if d then b else 0
  {
  }

  lemma StepShape(d: bool, b: bv8, higher: bv8)
    ensures Step(d, b, higher) == Xor(if d then b else 0, TimesX(higher))
  {
  }

  lemma StepIs(d: bool, b: bv8, higher: bv8)
    ensures Step(d, b, higher) == Xor(Scaled(FIELD, d, b), XTime(higher))
  {
    Doubling(higher);
    ScaledIs(d, b);
    StepShape(d, b, higher);
  }

  /** Eight steps that go like those of the field. */
  function EightSteps<W>(step: (bool, W, W) -> W, zero: W, d: seq<bool>, b: W): W
    requires |d| == 8
  {
    step(d[0], b, step(d[1], b, step(d[2], b, step(d[3], b,
      step(d[4], b, step(d[5], b, step(d[6], b, step(d[7], b, zero))))))))
  }

  predicate StepOf<W(==)>(k: Field<W>, step: (bool, W, W) -> W, d: bool, b: W, higher: W) {
    step(d, b, higher) == k.xor(Scaled(k, d, b), k.xtime(higher))
  }

  lemma EightAreHorner<W(!new)>(k: Field<W>, step: (bool, W, W) -> W, d: seq<bool>, b: W)
    requires |d| == 8 && forall e, c, h {:trigger StepOf(k, step, e, c, h)} :: StepOf(k, step, e, c, h)
    ensures EightSteps(step, k.zero, d, b) == Horner(k, d, b)
  {
    assert d[8..] == [] && d[0..] == d;
    NextStep(k, step, d, 7, b, k.zero);
    NextStep(k, step, d, 6, b, Horner(k, d[7..], b));
    NextStep(k, step, d, 5, b, Horner(k, d[6..], b));
    NextStep(k, step, d, 4, b, Horner(k, d[5..], b));
    NextStep(k, step, d, 3, b, Horner(k, d[4..], b));
    NextStep(k, step, d, 2, b, Horner(k, d[3..], b));
    NextStep(k, step, d, 1, b, Horner(k, d[2..], b));
    NextStep(k, step, d, 0, b, Horner(k, d[1..], b));
  }

  lemma NextStep<W(!new)>(k: Field<W>, step: (bool, W, W) -> W, d: seq<bool>, i: nat, b: W, t: W)
    requires i < |d| && t == Horner(k, d[i + 1..], b)
    requires forall e, c, h {:trigger StepOf(k, step, e, c, h)} :: StepOf(k, step, e, c, h)
    ensures step(d[i], b, t) == Horner(k, d[i..], b)
  {
    assert StepOf(k, step, d[i], b, t);
    HornerNext(k, d, i, b);
  }

  lemma StepsOf<W>(step: (bool, W, W) -> W, zero: W, d0: bool, d1: bool, d2: bool, d3: bool, d4: bool, d5: bool,
                   d6: bool, d7: bool, b: W)
    ensures EightSteps(step, zero, [d0, d1, d2, d3, d4, d5, d6, d7], b)
         == step(d0, b, step(d1, b, step(d2, b, step(d3, b, step(d4, b, step(d5, b, step(d6, b, step(d7, b, zero))))))))
  {
  }

  lemma TimesInSteps(a: bv8, b: bv8)
    ensures Times(a, b) == EightSteps(Step, 0, Digits(a), b)
  {
    StepsOf(Step, 0, Digit(a, 0), Digit(a, 1), Digit(a, 2), Digit(a, 3), Digit(a, 4), Digit(a, 5), Digit(a, 6),
      Digit(a, 7), b);
  }

  lemma TimesIsHorner(a: bv8, b: bv8)
    ensures Times(a, b) == Horner(FIELD, Digits(a), b)
  {
    TimesInSteps(a, b);
    forall d, c, h
      ensures StepOf(FIELD, Step, d, c, h)
    {
      StepIs(d, c, h);
    }
    EightAreHorner(FIELD, Step, Digits(a), b);
  }

  lemma TimesOne(a: bv8)
    ensures Times(a, 1) == a
  {
  }

  lemma TimesSum(a: bv8, b: bv8, c: bv8)
    ensures Times(a, Xor(b, c)) == Xor(Times(a, b), Times(a, c))
  {
    FieldLaws();
    TimesIsHorner(a, b);
    TimesIsHorner(a, c);
    TimesIsHorner(a, Xor(b, c));
    HornerLinear(FIELD, Digits(a), b, c);
  }

  lemma TimesSwap(a: bv8, b: bv8, c: bv8)
    ensures Times(a, Times(b, c)) == Times(b, Times(a, c))
  {
    FieldLaws();
    TimesIsHorner(a, c);
    TimesIsHorner(b, c);
    TimesIsHorner(a, Times(b, c));
    TimesIsHorner(b, Times(a, c));
    HornerSwap(FIELD, Digits(a), Digits(b), c);
  }

  lemma TimesCommutes(a: bv8, b: bv8)
    ensures Times(a, b) == Times(b, a)
  {
    TimesSwap(a, b, 1);
    TimesOne(a);
    TimesOne(b);
  }

  /** Bytes are a ring: the product is commutative, associative and distributes over sums. */
  lemma Ring(a: bv8, b: bv8, c: bv8)
    ensures Times(a, b) == Times(b, a) && Times(1, a) == a
    ensures Times(Times(a, b), c) == Times(a, Times(b, c))
    ensures Times(a, b ^ c) == Times(a, b) ^ Times(a, c)
  {
    TimesCommutes(a, b);
    TimesCommutes(1, a);
    TimesOne(a);
    TimesCommutes(Times(a, b), c);
    TimesSwap(c, a, b);
    TimesCommutes(c, b);
    TimesSum(a, b, c);
  }

  // Inverses, and the substitution.

  /** The affine map of section 5.1.1: each bit is the sum of five, and of a bit of 0x63. */
  function Affine(y: bv8): bv8 {
    y ^ y.RotateLeft(1) ^ y.RotateLeft(2) ^ y.RotateLeft(3) ^ y.RotateLeft(4) ^ 0x63
  }

  function Unaffine(s: bv8): bv8 {
    s.RotateLeft(1) ^ s.RotateLeft(3) ^ s.RotateLeft(6) ^ 0x05
  }

  lemma AffineBack(y: bv8, s: bv8)
    ensures Affine(Unaffine(s)) == s && Unaffine(Affine(y)) == y
  {
  }

  /** The byte s is the image of an inverse of b; that of 0 is the image of 0. */
  predicate Inverts(b: bv8, s: bv8) {
    if b == 0 then Unaffine(s) == 0 else Times(b, Unaffine(s)) == 1
  }

  predicate RowInverts(f: (bv8, bv8) -> bool, row: seq<bv8>, subs: seq<bv8>) {
    && |row| == |subs| == 16
    && f(row[0], subs[0]) && f(row[1], subs[1]) && f(row[2], subs[2]) && f(row[3], subs[3])
    && f(row[4], subs[4]) && f(row[5], subs[5]) && f(row[6], subs[6]) && f(row[7], subs[7])
    && f(row[8], subs[8]) && f(row[9], subs[9]) && f(row[10], subs[10]) && f(row[11], subs[11])
    && f(row[12], subs[12]) && f(row[13], subs[13]) && f(row[14], subs[14]) && f(row[15], subs[15])
  }

  ghost predicate IsInverts(f: (bv8, bv8) -> bool) {
    forall b, s {:trigger Inverts(b, s)} :: f(b, s) == Inverts(b, s)
  }

  lemma Hidden() returns (f: (bv8, bv8) -> bool)
    ensures IsInverts(f)
  {
    f := Inverts;
  }

  lemma EntryOfZero()
    ensures Inverts(0x00, 0x63)
  {
  }

  lemma Entries0()
    ensures Inverts(0x01, 0x7C) && Inverts(0x02, 0x77) && Inverts(0x03, 0x7B)
    ensures Inverts(0x04, 0xF2) && Inverts(0x05, 0x6B) && Inverts(0x06, 0x6F) && Inverts(0x07, 0xC5)
  {
  }

  lemma EntriesFrom8()
    ensures Inverts(0x08, 0x30) && Inverts(0x09, 0x01) && Inverts(0x0A, 0x67) && Inverts(0x0B, 0x2B)
    ensures Inverts(0x0C, 0xFE) && Inverts(0x0D, 0xD7) && Inverts(0x0E, 0xAB) && Inverts(0x0F, 0x76)
  {
  }

  lemma Entries1()
    ensures Inverts(0x10, 0xCA) && Inverts(0x11, 0x82) && Inverts(0x12, 0xC9) && Inverts(0x13, 0x7D)
    ensures Inverts(0x14, 0xFA) && Inverts(0x15, 0x59) && Inverts(0x16, 0x47) && Inverts(0x17, 0xF0)
    ensures Inverts(0x18, 0xAD) && Inverts(0x19, 0xD4) && Inverts(0x1A, 0xA2) && Inverts(0x1B, 0xAF)
    ensures Inverts(0x1C, 0x9C) && Inverts(0x1D, 0xA4) && Inverts(0x1E, 0x72) && Inverts(0x1F, 0xC0)
  {
  }

  lemma Values0() returns (f: (bv8, bv8) -> bool)
    ensures IsInverts(f)
    ensures f(0x00, 0x63) && f(0x01, 0x7C) && f(0x02, 0x77) && f(0x03, 0x7B)
    ensures f(0x04, 0xF2) && f(0x05, 0x6B) && f(0x06, 0x6F) && f(0x07, 0xC5)
    ensures f(0x08, 0x30) && f(0x09, 0x01) && f(0x0A, 0x67) && f(0x0B, 0x2B)
    ensures f(0x0C, 0xFE) && f(0x0D, 0xD7) && f(0x0E, 0xAB) && f(0x0F, 0x76)
    ensures f(0x10, 0xCA) && f(0x11, 0x82) && f(0x12, 0xC9) && f(0x13, 0x7D)
    ensures f(0x14, 0xFA) && f(0x15, 0x59) && f(0x16, 0x47) && f(0x17, 0xF0)
    ensures f(0x18, 0xAD) && f(0x19, 0xD4) && f(0x1A, 0xA2) && f(0x1B, 0xAF)
    ensures f(0x1C, 0x9C) && f(0x1D, 0xA4) && f(0x1E, 0x72) && f(0x1F, 0xC0)
  {
    f := Hidden();
    EntryOfZero();
    Entries0();
    EntriesFrom8();
    Entries1();
  }

  lemma Rows0() returns (f: (bv8, bv8) -> bool)
    ensures IsInverts(f)
    ensures RowInverts(f, Bytes16(0), S_BOX[0]) && RowInverts(f, Bytes16(1), S_BOX[1])
  {
    f := Values0();
  }

  lemma Entries2()
    ensures Inverts(0x20, 0xB7) && Inverts(0x21, 0xFD) && Inverts(0x22, 0x93) && Inverts(0x23, 0x26)
    ensures Inverts(0x24, 0x36) && Inverts(0x25, 0x3F) && Inverts(0x26, 0xF7) && Inverts(0x27, 0xCC)
    ensures Inverts(0x28, 0x34) && Inverts(0x29, 0xA5) && Inverts(0x2A, 0xE5) && Inverts(0x2B, 0xF1)
    ensures Inverts(0x2C, 0x71) && Inverts(0x2D, 0xD8) && Inverts(0x2E, 0x31) && Inverts(0x2F, 0x15)
  {
  }

  lemma Entries3()
    ensures Inverts(0x30, 0x04) && Inverts(0x31, 0xC7) && Inverts(0x32, 0x23) && Inverts(0x33, 0xC3)
    ensures Inverts(0x34, 0x18) && Inverts(0x35, 0x96) && Inverts(0x36, 0x05) && Inverts(0x37, 0x9A)
    ensures Inverts(0x38, 0x07) && Inverts(0x39, 0x12) && Inverts(0x3A, 0x80) && Inverts(0x3B, 0xE2)
    ensures Inverts(0x3C, 0xEB) && Inverts(0x3D, 0x27) && Inverts(0x3E, 0xB2) && Inverts(0x3F, 0x75)
  {
  }

  lemma Values2() returns (f: (bv8, bv8) -> bool)
    ensures IsInverts(f)
    ensures f(0x20, 0xB7) && f(0x21, 0xFD) && f(0x22, 0x93) && f(0x23, 0x26)
    ensures f(0x24, 0x36) && f(0x25, 0x3F) && f(0x26, 0xF7) && f(0x27, 0xCC)
    ensures f(0x28, 0x34) && f(0x29, 0xA5) && f(0x2A, 0xE5) && f(0x2B, 0xF1)
    ensures f(0x2C, 0x71) && f(0x2D, 0xD8) && f(0x2E, 0x31) && f(0x2F, 0x15)
    ensures f(0x30, 0x04) && f(0x31, 0xC7) && f(0x32, 0x23) && f(0x33, 0xC3)
    ensures f(0x34, 0x18) && f(0x35, 0x96) && f(0x36, 0x05) && f(0x37, 0x9A)
    ensures f(0x38, 0x07) && f(0x39, 0x12) && f(0x3A, 0x80) && f(0x3B, 0xE2)
    ensures f(0x3C, 0xEB) && f(0x3D, 0x27) && f(0x3E, 0xB2) && f(0x3F, 0x75)
  {
    f := Hidden();
    Entries2();
    Entries3();
  }

  lemma Rows2() returns (f: (bv8, bv8) -> bool)
    ensures IsInverts(f)
    ensures RowInverts(f, Bytes16(2), S_BOX[2]) && RowInverts(f, Bytes16(3), S_BOX[3])
  {
    f := Values2();
  }

  lemma Entries4()
    ensures Inverts(0x40, 0x09) && Inverts(0x41, 0x83) && Inverts(0x42, 0x2C) && Inverts(0x43, 0x1A)
    ensures Inverts(0x44, 0x1B) && Inverts(0x45, 0x6E) && Inverts(0x46, 0x5A) && Inverts(0x47, 0xA0)
    ensures Inverts(0x48, 0x52) && Inverts(0x49, 0x3B) && Inverts(0x4A, 0xD6) && Inverts(0x4B, 0xB3)
    ensures Inverts(0x4C, 0x29) && Inverts(0x4D, 0xE3) && Inverts(0x4E, 0x2F) && Inverts(0x4F, 0x84)
  {
  }

  lemma Entries5()
    ensures Inverts(0x50, 0x53) && Inverts(0x51, 0xD1) && Inverts(0x52, 0x00) && Inverts(0x53, 0xED)
    ensures Inverts(0x54, 0x20) && Inverts(0x55, 0xFC) && Inverts(0x56, 0xB1) && Inverts(0x57, 0x5B)
    ensures Inverts(0x58, 0x6A) && Inverts(0x59, 0xCB) && Inverts(0x5A, 0xBE) && Inverts(0x5B, 0x39)
    ensures Inverts(0x5C, 0x4A) && Inverts(0x5D, 0x4C) && Inverts(0x5E, 0x58) && Inverts(0x5F, 0xCF)
  {
  }

  lemma Values4() returns (f: (bv8, bv8) -> bool)
    ensures IsInverts(f)
    ensures f(0x40, 0x09) && f(0x41, 0x83) && f(0x42, 0x2C) && f(0x43, 0x1A)
    ensures f(0x44, 0x1B) && f(0x45, 0x6E) && f(0x46, 0x5A) && f(0x47, 0xA0)
    ensures f(0x48, 0x52) && f(0x49, 0x3B) && f(0x4A, 0xD6) && f(0x4B, 0xB3)
    ensures f(0x4C, 0x29) && f(0x4D, 0xE3) && f(0x4E, 0x2F) && f(0x4F, 0x84)
    ensures f(0x50, 0x53) && f(0x51, 0xD1) && f(0x52, 0x00) && f(0x53, 0xED)
    ensures f(0x54, 0x20) && f(0x55, 0xFC) && f(0x56, 0xB1) && f(0x57, 0x5B)
    ensures f(0x58, 0x6A) && f(0x59, 0xCB) && f(0x5A, 0xBE) && f(0x5B, 0x39)
    ensures f(0x5C, 0x4A) && f(0x5D, 0x4C) && f(0x5E, 0x58) && f(0x5F, 0xCF)
  {
    f := Hidden();
    Entries4();
    Entries5();
  }

  lemma Rows4() returns (f: (bv8, bv8) -> bool)
    ensures IsInverts(f)
    ensures RowInverts(f, Bytes16(4), S_BOX[4]) && RowInverts(f, Bytes16(5), S_BOX[5])
  {
    f := Values4();
  }

  lemma Entries6()
    ensures Inverts(0x60, 0xD0) && Inverts(0x61, 0xEF) && Inverts(0x62, 0xAA) && Inverts(0x63, 0xFB)
    ensures Inverts(0x64, 0x43) && Inverts(0x65, 0x4D) && Inverts(0x66, 0x33) && Inverts(0x67, 0x85)
    ensures Inverts(0x68, 0x45) && Inverts(0x69, 0xF9) && Inverts(0x6A, 0x02) && Inverts(0x6B, 0x7F)
    ensures Inverts(0x6C, 0x50) && Inverts(0x6D, 0x3C) && Inverts(0x6E, 0x9F) && Inverts(0x6F, 0xA8)
  {
  }

  lemma Entries7()
    ensures Inverts(0x70, 0x51) && Inverts(0x71, 0xA3) && Inverts(0x72, 0x40) && Inverts(0x73, 0x8F)
    ensures Inverts(0x74, 0x92) && Inverts(0x75, 0x9D) && Inverts(0x76, 0x38) && Inverts(0x77, 0xF5)
    ensures Inverts(0x78, 0xBC) && Inverts(0x79, 0xB6) && Inverts(0x7A, 0xDA) && Inverts(0x7B, 0x21)
    ensures Inverts(0x7C, 0x10) && Inverts(0x7D, 0xFF) && Inverts(0x7E, 0xF3) && Inverts(0x7F, 0xD2)
  {
  }

  lemma Values6() returns (f: (bv8, bv8) -> bool)
    ensures IsInverts(f)
    ensures f(0x60, 0xD0) && f(0x61, 0xEF) && f(0x62, 0xAA) && f(0x63, 0xFB)
    ensures f(0x64, 0x43) && f(0x65, 0x4D) && f(0x66, 0x33) && f(0x67, 0x85)
    ensures f(0x68, 0x45) && f(0x69, 0xF9) && f(0x6A, 0x02) && f(0x6B, 0x7F)
    ensures f(0x6C, 0x50) && f(0x6D, 0x3C) && f(0x6E, 0x9F) && f(0x6F, 0xA8)
    ensures f(0x70, 0x51) && f(0x71, 0xA3) && f(0x72, 0x40) && f(0x73, 0x8F)
    ensures f(0x74, 0x92) && f(0x75, 0x9D) && f(0x76, 0x38) && f(0x77, 0xF5)
    ensures f(0x78, 0xBC) && f(0x79, 0xB6) && f(0x7A, 0xDA) && f(0x7B, 0x21)
    ensures f(0x7C, 0x10) && f(0x7D, 0xFF) && f(0x7E, 0xF3) && f(0x7F, 0xD2)
  {
    f := Hidden();
    Entries6();
    Entries7();
  }

  lemma Rows6() returns (f: (bv8, bv8) -> bool)
    ensures IsInverts(f)
    ensures RowInverts(f, Bytes16(6), S_BOX[6]) && RowInverts(f, Bytes16(7), S_BOX[7])
  {
    f := Values6();
  }

  lemma Entries8()
    ensures Inverts(0x80, 0xCD) && Inverts(0x81, 0x0C) && Inverts(0x82, 0x13) && Inverts(0x83, 0xEC)
    ensures Inverts(0x84, 0x5F) && Inverts(0x85, 0x97) && Inverts(0x86, 0x44) && Inverts(0x87, 0x17)
    ensures Inverts(0x88, 0xC4) && Inverts(0x89, 0xA7) && Inverts(0x8A, 0x7E) && Inverts(0x8B, 0x3D)
    ensures Inverts(0x8C, 0x64) && Inverts(0x8D, 0x5D) && Inverts(0x8E, 0x19) && Inverts(0x8F, 0x73)
  {
  }

  lemma Entries9()
    ensures Inverts(0x90, 0x60) && Inverts(0x91, 0x81) && Inverts(0x92, 0x4F) && Inverts(0x93, 0xDC)
    ensures Inverts(0x94, 0x22) && Inverts(0x95, 0x2A) && Inverts(0x96, 0x90) && Inverts(0x97, 0x88)
    ensures Inverts(0x98, 0x46) && Inverts(0x99, 0xEE) && Inverts(0x9A, 0xB8) && Inverts(0x9B, 0x14)
    ensures Inverts(0x9C, 0xDE) && Inverts(0x9D, 0x5E) && Inverts(0x9E, 0x0B) && Inverts(0x9F, 0xDB)
  {
  }

  lemma Values8() returns (f: (bv8, bv8) -> bool)
    ensures IsInverts(f)
    ensures f(0x80, 0xCD) && f(0x81, 0x0C) && f(0x82, 0x13) && f(0x83, 0xEC)
    ensures f(0x84, 0x5F) && f(0x85, 0x97) && f(0x86, 0x44) && f(0x87, 0x17)
    ensures f(0x88, 0xC4) && f(0x89, 0xA7) && f(0x8A, 0x7E) && f(0x8B, 0x3D)
    ensures f(0x8C, 0x64) && f(0x8D, 0x5D) && f(0x8E, 0x19) && f(0x8F, 0x73)
    ensures f(0x90, 0x60) && f(0x91, 0x81) && f(0x92, 0x4F) && f(0x93, 0xDC)
    ensures f(0x94, 0x22) && f(0x95, 0x2A) && f(0x96, 0x90) && f(0x97, 0x88)
    ensures f(0x98, 0x46) && f(0x99, 0xEE) && f(0x9A, 0xB8) && f(0x9B, 0x14)
    ensures f(0x9C, 0xDE) && f(0x9D, 0x5E) && f(0x9E, 0x0B) && f(0x9F, 0xDB)
  {
    f := Hidden();
    Entries8();
    Entries9();
  }

  lemma Rows8() returns (f: (bv8, bv8) -> bool)
    ensures IsInverts(f)
    ensures RowInverts(f, Bytes16(8), S_BOX[8]) && RowInverts(f, Bytes16(9), S_BOX[9])
  {
    f := Values8();
  }

  lemma EntriesA()
    ensures Inverts(0xA0, 0xE0) && Inverts(0xA1, 0x32) && Inverts(0xA2, 0x3A) && Inverts(0xA3, 0x0A)
    ensures Inverts(0xA4, 0x49) && Inverts(0xA5, 0x06) && Inverts(0xA6, 0x24) && Inverts(0xA7, 0x5C)
    ensures Inverts(0xA8, 0xC2) && Inverts(0xA9, 0xD3) && Inverts(0xAA, 0xAC) && Inverts(0xAB, 0x62)
    ensures Inverts(0xAC, 0x91) && Inverts(0xAD, 0x95) && Inverts(0xAE, 0xE4) && Inverts(0xAF, 0x79)
  {
  }

  lemma EntriesB()
    ensures Inverts(0xB0, 0xE7) && Inverts(0xB1, 0xC8) && Inverts(0xB2, 0x37) && Inverts(0xB3, 0x6D)
    ensures Inverts(0xB4, 0x8D) && Inverts(0xB5, 0xD5) && Inverts(0xB6, 0x4E) && Inverts(0xB7, 0xA9)
    ensures Inverts(0xB8, 0x6C) && Inverts(0xB9, 0x56) && Inverts(0xBA, 0xF4) && Inverts(0xBB, 0xEA)
    ensures Inverts(0xBC, 0x65) && Inverts(0xBD, 0x7A) && Inverts(0xBE, 0xAE) && Inverts(0xBF, 0x08)
  {
  }

  lemma ValuesA() returns (f: (bv8, bv8) -> bool)
    ensures IsInverts(f)
    ensures f(0xA0, 0xE0) && f(0xA1, 0x32) && f(0xA2, 0x3A) && f(0xA3, 0x0A)
    ensures f(0xA4, 0x49) && f(0xA5, 0x06) && f(0xA6, 0x24) && f(0xA7, 0x5C)
    ensures f(0xA8, 0xC2) && f(0xA9, 0xD3) && f(0xAA, 0xAC) && f(0xAB, 0x62)
    ensures f(0xAC, 0x91) && f(0xAD, 0x95) && f(0xAE, 0xE4) && f(0xAF, 0x79)
    ensures f(0xB0, 0xE7) && f(0xB1, 0xC8) && f(0xB2, 0x37) && f(0xB3, 0x6D)
    ensures f(0xB4, 0x8D) && f(0xB5, 0xD5) && f(0xB6, 0x4E) && f(0xB7, 0xA9)
    ensures f(0xB8, 0x6C) && f(0xB9, 0x56) && f(0xBA, 0xF4) && f(0xBB, 0xEA)
    ensures f(0xBC, 0x65) && f(0xBD, 0x7A) && f(0xBE, 0xAE) && f(0xBF, 0x08)
  {
    f := Hidden();
    EntriesA();
    EntriesB();
  }

  lemma RowsA() returns (f: (bv8, bv8) -> bool)
    ensures IsInverts(f)
    ensures RowInverts(f, Bytes16(10), S_BOX[10]) && RowInverts(f, Bytes16(11), S_BOX[11])
  {
    f := ValuesA();
  }

  lemma EntriesC()
    ensures Inverts(0xC0, 0xBA) && Inverts(0xC1, 0x78) && Inverts(0xC2, 0x25) && Inverts(0xC3, 0x2E)
    ensures Inverts(0xC4, 0x1C) && Inverts(0xC5, 0xA6) && Inverts(0xC6, 0xB4) && Inverts(0xC7, 0xC6)
    ensures Inverts(0xC8, 0xE8) && Inverts(0xC9, 0xDD) && Inverts(0xCA, 0x74) && Inverts(0xCB, 0x1F)
    ensures Inverts(0xCC, 0x4B) && Inverts(0xCD, 0xBD) && Inverts(0xCE, 0x8B) && Inverts(0xCF, 0x8A)
  {
  }

  lemma EntriesD()
    ensures Inverts(0xD0, 0x70) && Inverts(0xD1, 0x3E) && Inverts(0xD2, 0xB5) && Inverts(0xD3, 0x66)
    ensures Inverts(0xD4, 0x48) && Inverts(0xD5, 0x03) && Inverts(0xD6, 0xF6) && Inverts(0xD7, 0x0E)
    ensures Inverts(0xD8, 0x61) && Inverts(0xD9, 0x35) && Inverts(0xDA, 0x57) && Inverts(0xDB, 0xB9)
    ensures Inverts(0xDC, 0x86) && Inverts(0xDD, 0xC1) && Inverts(0xDE, 0x1D) && Inverts(0xDF, 0x9E)
  {
  }

  lemma ValuesC() returns (f: (bv8, bv8) -> bool)
    ensures IsInverts(f)
    ensures f(0xC0, 0xBA) && f(0xC1, 0x78) && f(0xC2, 0x25) && f(0xC3, 0x2E)
    ensures f(0xC4, 0x1C) && f(0xC5, 0xA6) && f(0xC6, 0xB4) && f(0xC7, 0xC6)
    ensures f(0xC8, 0xE8) && f(0xC9, 0xDD) && f(0xCA, 0x74) && f(0xCB, 0x1F)
    ensures f(0xCC, 0x4B) && f(0xCD, 0xBD) && f(0xCE, 0x8B) && f(0xCF, 0x8A)
    ensures f(0xD0, 0x70) && f(0xD1, 0x3E) && f(0xD2, 0xB5) && f(0xD3, 0x66)
    ensures f(0xD4, 0x48) && f(0xD5, 0x03) && f(0xD6, 0xF6) && f(0xD7, 0x0E)
    ensures f(0xD8, 0x61) && f(0xD9, 0x35) && f(0xDA, 0x57) && f(0xDB, 0xB9)
    ensures f(0xDC, 0x86) && f(0xDD, 0xC1) && f(0xDE, 0x1D) && f(0xDF, 0x9E)
  {
    f := Hidden();
    EntriesC();
    EntriesD();
  }

  lemma RowsC() returns (f: (bv8, bv8) -> bool)
    ensures IsInverts(f)
    ensures RowInverts(f, Bytes16(12), S_BOX[12]) && RowInverts(f, Bytes16(13), S_BOX[13])
  {
    f := ValuesC();
  }

  lemma EntriesE()
    ensures Inverts(0xE0, 0xE1) && Inverts(0xE1, 0xF8) && Inverts(0xE2, 0x98) && Inverts(0xE3, 0x11)
    ensures Inverts(0xE4, 0x69) && Inverts(0xE5, 0xD9) && Inverts(0xE6, 0x8E) && Inverts(0xE7, 0x94)
    ensures Inverts(0xE8, 0x9B) && Inverts(0xE9, 0x1E) && Inverts(0xEA, 0x87) && Inverts(0xEB, 0xE9)
    ensures Inverts(0xEC, 0xCE) && Inverts(0xED, 0x55) && Inverts(0xEE, 0x28) && Inverts(0xEF, 0xDF)
  {
  }

  lemma EntriesF()
    ensures Inverts(0xF0, 0x8C) && Inverts(0xF1, 0xA1) && Inverts(0xF2, 0x89) && Inverts(0xF3, 0x0D)
    ensures Inverts(0xF4, 0xBF) && Inverts(0xF5, 0xE6) && Inverts(0xF6, 0x42) && Inverts(0xF7, 0x68)
    ensures Inverts(0xF8, 0x41) && Inverts(0xF9, 0x99) && Inverts(0xFA, 0x2D) && Inverts(0xFB, 0x0F)
    ensures Inverts(0xFC, 0xB0) && Inverts(0xFD, 0x54) && Inverts(0xFE, 0xBB) && Inverts(0xFF, 0x16)
  {
  }

  lemma ValuesE() returns (f: (bv8, bv8) -> bool)
    ensures IsInverts(f)
    ensures f(0xE0, 0xE1) && f(0xE1, 0xF8) && f(0xE2, 0x98) && f(0xE3, 0x11)
    ensures f(0xE4, 0x69) && f(0xE5, 0xD9) && f(0xE6, 0x8E) && f(0xE7, 0x94)
    ensures f(0xE8, 0x9B) && f(0xE9, 0x1E) && f(0xEA, 0x87) && f(0xEB, 0xE9)
    ensures f(0xEC, 0xCE) && f(0xED, 0x55) && f(0xEE, 0x28) && f(0xEF, 0xDF)
    ensures f(0xF0, 0x8C) && f(0xF1, 0xA1) && f(0xF2, 0x89) && f(0xF3, 0x0D)
    ensures f(0xF4, 0xBF) && f(0xF5, 0xE6) && f(0xF6, 0x42) && f(0xF7, 0x68)
    ensures f(0xF8, 0x41) && f(0xF9, 0x99) && f(0xFA, 0x2D) && f(0xFB, 0x0F)
    ensures f(0xFC, 0xB0) && f(0xFD, 0x54) && f(0xFE, 0xBB) && f(0xFF, 0x16)
  {
    f := Hidden();
    EntriesE();
    EntriesF();
  }

  lemma RowsE() returns (f: (bv8, bv8) -> bool)
    ensures IsInverts(f)
    ensures RowInverts(f, Bytes16(14), S_BOX[14]) && RowInverts(f, Bytes16(15), S_BOX[15])
  {
    f := ValuesE();
  }

  lemma RowOf(h: bv8) returns (f: (bv8, bv8) -> bool)
    requires h < 16
    ensures IsInverts(f) && RowInverts(f, Bytes16(h), S_BOX[h as int])
  {
    if h < 2 {
      f := Rows0();
    } else if h < 4 {
      f := Rows2();
    } else if h < 6 {
      f := Rows4();
    } else if h < 8 {
      f := Rows6();
    } else if h < 10 {
      f := Rows8();
    } else if h < 12 {
      f := RowsA();
    } else if h < 14 {
      f := RowsC();
    } else {
      f := RowsE();
    }
  }

  lemma RowEntry(f: (bv8, bv8) -> bool, row: seq<bv8>, subs: seq<bv8>, c: int)
    requires RowInverts(f, row, subs) && 0 <= c < 16
    ensures f(row[c], subs[c])
  {
  }

  lemma SubInverts(b: bv8)
    ensures Inverts(b, Sub(b))
  {
    ByteAt(b);
    var f := RowOf(b >> 4);
    RowEntry(f, Bytes16(b >> 4), S_BOX[(b >> 4) as int], (b & 15) as int);
    assert f(b, Sub(b));
  }

  lemma OnlyInverse(b: bv8, x: bv8, y: bv8)
    requires Times(b, x) == 1 && Times(b, y) == 1
    ensures x == y
  {
    Ring(x, b, y);
    Ring(x, b, b);
    Ring(y, x, x);
    TimesOne(x);
  }

  lemma ZeroTimes(y: bv8)
    ensures Times(0, y) == 0
  {
  }

  /** The multiplicative inverse; that of 0 is 0. */
  ghost function Inverse(b: bv8): (y: bv8)
    ensures b == 0 ==> y == 0
    ensures b != 0 ==> Times(b, y) == 1
  {
    if b == 0 then 0
    else
      SubInverts(b);
      var y :| Times(b, y) == 1;
      y
  }

  /** The substitution table holds the affine images of the inverses. */
  lemma SubIsAffine(b: bv8)
    ensures Sub(b) == Affine(Inverse(b))
  {
    SubInverts(b);
    if b != 0 {
      OnlyInverse(b, Unaffine(Sub(b)), Inverse(b));
    }
    AffineBack(0, Sub(b));
  }

  // Mixing and the round constants.

  /** One row of the matrix of section 5.1.3. */
  function MatrixRow(a: bv8, b: bv8, c: bv8, d: bv8): bv8 {
    Times(2, a) ^ Times(3, b) ^ c ^ d
  }

  /** The same with doublings. */
  function DoublesRow(a: bv8, b: bv8, c: bv8, d: bv8): bv8 {
    XTime(a) ^ (XTime(b) ^ b) ^ c ^ d
  }

  lemma MixedDoubles(a: bv8, b: bv8, c: bv8, d: bv8)
    ensures Xor(a, Xor(Xor(Xor(Xor(a, b), c), d), XTime(Xor(a, b)))) == DoublesRow(a, b, c, d)
  {
    XTimeLinear(a, b);
    MixedSum(a, b, c, d, XTime(a), XTime(b), XTime(Xor(a, b)));
  }

  lemma RowsAgree(a: bv8, b: bv8, c: bv8, d: bv8)
    ensures DoublesRow(a, b, c, d) == MatrixRow(a, b, c, d)
  {
    Doubling(a);
    Trebling(b);
  }

  lemma MixedSum(a: bv8, b: bv8, c: bv8, d: bv8, s: bv8, t: bv8, u: bv8)
    requires u == Xor(s, t)
    ensures Xor(a, Xor(Xor(Xor(Xor(a, b), c), d), u)) == s ^ (t ^ b) ^ c ^ d
  {
    assert Xor(a, Xor(Xor(Xor(Xor(a, b), c), d), s ^ t)) == s ^ (t ^ b) ^ c ^ d;
  }

  /** What the first byte of a mixed column is, in terms of a row of a matrix. */
  predicate RowOfMix<W(==)>(k: Field<W>, row: (W, W, W, W) -> W, a: W, b: W, c: W, d: W) {
    k.xor(a, k.xor(Sum(k, Col(a, b, c, d)), k.xtime(k.xor(a, b)))) == row(a, b, c, d)
  }

  lemma MixByRows<W(!new)>(k: Field<W>, row: (W, W, W, W) -> W, a: Col<W>)
    requires Laws(k) && forall p, q, r, s {:trigger RowOfMix(k, row, p, q, r, s)} :: RowOfMix(k, row, p, q, r, s)
    ensures MixCol(k, a) == Col(row(a.c0, a.c1, a.c2, a.c3), row(a.c1, a.c2, a.c3, a.c0),
                                row(a.c2, a.c3, a.c0, a.c1), row(a.c3, a.c0, a.c1, a.c2))
  {
    TurnedSum(k, a);
    TurnedSum(k, Turn(a));
    TurnedSum(k, Turn(Turn(a)));
    assert RowOfMix(k, row, a.c0, a.c1, a.c2, a.c3) && RowOfMix(k, row, a.c1, a.c2, a.c3, a.c0);
    assert RowOfMix(k, row, a.c2, a.c3, a.c0, a.c1) && RowOfMix(k, row, a.c3, a.c0, a.c1, a.c2);
  }

  /** A mixed column is its product with the matrix. */
  lemma MixIsMatrix(a: Col<bv8>)
    ensures MixCol(FIELD, a) == Col(MatrixRow(a.c0, a.c1, a.c2, a.c3), MatrixRow(a.c1, a.c2, a.c3, a.c0),
                                    MatrixRow(a.c2, a.c3, a.c0, a.c1), MatrixRow(a.c3, a.c0, a.c1, a.c2))
  {
    FieldLaws();
    forall p, q, r, s
      ensures RowOfMix(FIELD, DoublesRow, p, q, r, s)
    {
      MixedDoubles(p, q, r, s);
    }
    MixByRows(FIELD, DoublesRow, a);
    RowsAgree(a.c0, a.c1, a.c2, a.c3);
    RowsAgree(a.c1, a.c2, a.c3, a.c0);
    RowsAgree(a.c2, a.c3, a.c0, a.c1);
    RowsAgree(a.c3, a.c0, a.c1, a.c2);
  }

  /** x to the power i. */
  function PowerOfX(i: nat): bv8 {
    if i == 0 then 1 else Times(2, PowerOfX(i - 1))
  }

  lemma ConstantsFrom1()
    ensures RCon(2) == XTime(RCon(1)) && RCon(3) == XTime(RCon(2)) && RCon(4) == XTime(RCon(3))
    ensures RCon(5) == XTime(RCon(4))
  {
  }

  lemma ConstantsFrom5()
    ensures RCon(6) == XTime(RCon(5)) && RCon(7) == XTime(RCon(6)) && RCon(8) == XTime(RCon(7))
    ensures RCon(9) == XTime(RCon(8)) && RCon(10) == XTime(RCon(9)) && RCon(11) == XTime(RCon(10))
  {
  }

  lemma ConstantsFrom11()
    ensures RCon(12) == XTime(RCon(11)) && RCon(13) == XTime(RCon(12)) && RCon(14) == XTime(RCon(13))
    ensures RCon(15) == XTime(RCon(14)) && RCon(16) == XTime(RCon(15)) && RCon(17) == XTime(RCon(16))
  {
  }

  lemma ConstantsFrom17()
    ensures RCon(18) == XTime(RCon(17)) && RCon(19) == XTime(RCon(18)) && RCon(20) == XTime(RCon(19))
    ensures RCon(21) == XTime(RCon(20)) && RCon(22) == XTime(RCon(21)) && RCon(23) == XTime(RCon(22))
    ensures RCon(24) == XTime(RCon(23))
  {
  }

  lemma ConstantsFrom24()
    ensures RCon(25) == XTime(RCon(24)) && RCon(26) == XTime(RCon(25)) && RCon(27) == XTime(RCon(26))
    ensures RCon(28) == XTime(RCon(27)) && RCon(29) == XTime(RCon(28)) && RCon(30) == XTime(RCon(29))
    ensures RCon(31) == XTime(RCon(30))
  {
  }

  lemma ConstantsDouble(i: nat)
    requires 1 <= i < 31
    ensures RCon(i + 1) == XTime(RCon(i))
  {
    if i < 5 {
      ConstantsFrom1();
    } else if i < 11 {
      ConstantsFrom5();
    } else if i < 17 {
      ConstantsFrom11();
    } else if i < 24 {
      ConstantsFrom17();
    } else {
      ConstantsFrom24();
    }
  }

  lemma {:induction false} ConstantsArePowers(i: nat)
    requires 1 <= i < 32
    ensures RCon(i) == PowerOfX(i - 1)
  {
    if i > 1 {
      ConstantsArePowers(i - 1);
      ConstantsDouble(i - 1);
      Doubling(RCon(i - 1));
    }
  }
}
