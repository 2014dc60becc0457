/**
 CRC-32 as `func2` computes it, one table lookup a byte, and the bit-at-a-time
 definition it refines (polynomial 0xEDB88320, reflected; section 8 of RFC 1952).
 */
module Crc32 {

  function Xor(a: bv32, b: bv32): bv32 {
    a ^ b
  }

  /** One bit of the polynomial division. */
  function BitStep(v: bv32): bv32 {
    (v >> 1) ^ (if v & 1 == 1 then 0xEDB88320 else 0)
  }

  function Eight<T>(f: T -> T, v: T): T {
    f(f(f(f(f(f(f(f(v))))))))
  }

  /** The eight bits of one byte. */
  function Shift8(v: bv32): bv32 {
    Eight(BitStep, v)
  }

  /** Feed the inputs to a register one by one. */
  function Fold<T>(f: T -> T, op: (T, T) -> T, start: T, inputs: seq<T>): T {
    if inputs == [] then
      start
    else
      f(op(Fold(f, op, start, inputs[..|inputs| - 1]), inputs[|inputs| - 1]))
  }

  function Widen(b: bv8): bv32 {
    b as bv32
  }

  function Words(bytes: seq<bv8>): seq<bv32> {
    seq(|bytes|, i requires 0 <= i < |bytes| => Widen(bytes[i]))
  }

  /** The checksum by definition: all ones in, the message bit by bit, complemented out. */
  function Crc(bytes: seq<bv8>): bv32 {
    !Fold(Shift8, Xor, 0xFFFFFFFF, Words(bytes))
  }

  // The 256 table entries, 16 to a row.

  const ROW_0: seq<bv32> := [
    0x00000000, 0x77073096, 0xee0e612c, 0x990951ba, 0x076dc419, 0x706af48f, 0xe963a535, 0x9e6495a3,
    0x0edb8832, 0x79dcb8a4, 0xe0d5e91e, 0x97d2d988, 0x09b64c2b, 0x7eb17cbd, 0xe7b82d07, 0x90bf1d91]

  const ROW_1: seq<bv32> := [
    0x1db71064, 0x6ab020f2, 0xf3b97148, 0x84be41de, 0x1adad47d, 0x6ddde4eb, 0xf4d4b551, 0x83d385c7,
    0x136c9856, 0x646ba8c0, 0xfd62f97a, 0x8a65c9ec, 0x14015c4f, 0x63066cd9, 0xfa0f3d63, 0x8d080df5]

  const ROW_2: seq<bv32> := [
    0x3b6e20c8, 0x4c69105e, 0xd56041e4, 0xa2677172, 0x3c03e4d1, 0x4b04d447, 0xd20d85fd, 0xa50ab56b,
    0x35b5a8fa, 0x42b2986c, 0xdbbbc9d6, 0xacbcf940, 0x32d86ce3, 0x45df5c75, 0xdcd60dcf, 0xabd13d59]

  const ROW_3: seq<bv32> := [
    0x26d930ac, 0x51de003a, 0xc8d75180, 0xbfd06116, 0x21b4f4b5, 0x56b3c423, 0xcfba9599, 0xb8bda50f,
    0x2802b89e, 0x5f058808, 0xc60cd9b2, 0xb10be924, 0x2f6f7c87, 0x58684c11, 0xc1611dab, 0xb6662d3d]

  const ROW_4: seq<bv32> := [
    0x76dc4190, 0x01db7106, 0x98d220bc, 0xefd5102a, 0x71b18589, 0x06b6b51f, 0x9fbfe4a5, 0xe8b8d433,
    0x7807c9a2, 0x0f00f934, 0x9609a88e, 0xe10e9818, 0x7f6a0dbb, 0x086d3d2d, 0x91646c97, 0xe6635c01]

  const ROW_5: seq<bv32> := [
    0x6b6b51f4, 0x1c6c6162, 0x856530d8, 0xf262004e, 0x6c0695ed, 0x1b01a57b, 0x8208f4c1, 0xf50fc457,
    0x65b0d9c6, 0x12b7e950, 0x8bbeb8ea, 0xfcb9887c, 0x62dd1ddf, 0x15da2d49, 0x8cd37cf3, 0xfbd44c65]

  const ROW_6: seq<bv32> := [
    0x4db26158, 0x3ab551ce, 0xa3bc0074, 0xd4bb30e2, 0x4adfa541, 0x3dd895d7, 0xa4d1c46d, 0xd3d6f4fb,
    0x4369e96a, 0x346ed9fc, 0xad678846, 0xda60b8d0, 0x44042d73, 0x33031de5, 0xaa0a4c5f, 0xdd0d7cc9]

  const ROW_7: seq<bv32> := [
    0x5005713c, 0x270241aa, 0xbe0b1010, 0xc90c2086, 0x5768b525, 0x206f85b3, 0xb966d409, 0xce61e49f,
    0x5edef90e, 0x29d9c998, 0xb0d09822, 0xc7d7a8b4, 0x59b33d17, 0x2eb40d81, 0xb7bd5c3b, 0xc0ba6cad]

  const ROW_8: seq<bv32> := [
    0xedb88320, 0x9abfb3b6, 0x03b6e20c, 0x74b1d29a, 0xead54739, 0x9dd277af, 0x04db2615, 0x73dc1683,
    0xe3630b12, 0x94643b84, 0x0d6d6a3e, 0x7a6a5aa8, 0xe40ecf0b, 0x9309ff9d, 0x0a00ae27, 0x7d079eb1]

  const ROW_9: seq<bv32> := [
    0xf00f9344, 0x8708a3d2, 0x1e01f268, 0x6906c2fe, 0xf762575d, 0x806567cb, 0x196c3671, 0x6e6b06e7,
    0xfed41b76, 0x89d32be0, 0x10da7a5a, 0x67dd4acc, 0xf9b9df6f, 0x8ebeeff9, 0x17b7be43, 0x60b08ed5]

  const ROW_A: seq<bv32> := [
    0xd6d6a3e8, 0xa1d1937e, 0x38d8c2c4, 0x4fdff252, 0xd1bb67f1, 0xa6bc5767, 0x3fb506dd, 0x48b2364b,
    0xd80d2bda, 0xaf0a1b4c, 0x36034af6, 0x41047a60, 0xdf60efc3, 0xa867df55, 0x316e8eef, 0x4669be79]

  const ROW_B: seq<bv32> := [
    0xcb61b38c, 0xbc66831a, 0x256fd2a0, 0x5268e236, 0xcc0c7795, 0xbb0b4703, 0x220216b9, 0x5505262f,
    0xc5ba3bbe, 0xb2bd0b28, 0x2bb45a92, 0x5cb36a04, 0xc2d7ffa7, 0xb5d0cf31, 0x2cd99e8b, 0x5bdeae1d]

  const ROW_C: seq<bv32> := [
    0x9b64c2b0, 0xec63f226, 0x756aa39c, 0x026d930a, 0x9c0906a9, 0xeb0e363f, 0x72076785, 0x05005713,
    0x95bf4a82, 0xe2b87a14, 0x7bb12bae, 0x0cb61b38, 0x92d28e9b, 0xe5d5be0d, 0x7cdcefb7, 0x0bdbdf21]

  const ROW_D: seq<bv32> := [
    0x86d3d2d4, 0xf1d4e242, 0x68ddb3f8, 0x1fda836e, 0x81be16cd, 0xf6b9265b, 0x6fb077e1, 0x18b74777,
    0x88085ae6, 0xff0f6a70, 0x66063bca, 0x11010b5c, 0x8f659eff, 0xf862ae69, 0x616bffd3, 0x166ccf45]

  const ROW_E: seq<bv32> := [
    0xa00ae278, 0xd70dd2ee, 0x4e048354, 0x3903b3c2, 0xa7672661, 0xd06016f7, 0x4969474d, 0x3e6e77db,
    0xaed16a4a, 0xd9d65adc, 0x40df0b66, 0x37d83bf0, 0xa9bcae53, 0xdebb9ec5, 0x47b2cf7f, 0x30b5ffe9]

  const ROW_F: seq<bv32> := [
    0xbdbdf21c, 0xcabac28a, 0x53b39330, 0x24b4a3a6, 0xbad03605, 0xcdd70693, 0x54de5729, 0x23d967bf,
    0xb3667a2e, 0xc4614ab8, 0x5d681b02, 0x2a6f2b94, 0xb40bbe37, 0xc30c8ea1, 0x5a05df1b, 0x2d02ef8d]

  const TABLE: seq<seq<bv32>> := [
    ROW_0, ROW_1, ROW_2, ROW_3, ROW_4, ROW_5, ROW_6, ROW_7,
    ROW_8, ROW_9, ROW_A, ROW_B, ROW_C, ROW_D, ROW_E, ROW_F]

  /** Entry i of the table. */
  function Entry(i: bv32): bv32
    requires i < 256
  {
    TABLE[(i >> 4) as int][(i & 15) as int]
  }

  /** The register after one more byte, by one lookup. */
  function Lookup(v: bv32, b: bv8): bv32 {
    (v >> 8) ^ Entry(Widen(b) ^ (v & 0xFF))
  }

  /** The checksum by one lookup a byte. */
  method Func2(buffer: seq<bv8>) returns (value: bv32)
    ensures value == Crc(buffer)
  {
    ghost var f, op := Division();
    value := 0;
    value := !value;
    var r: nat, length: nat := 0, |buffer|;
    while length != 0
      invariant r + length == |buffer|
      invariant value == Fold(f, op, 0xFFFFFFFF, Words(buffer[..r]))
    {
      length := length - 1;
      assert Words(buffer[..r + 1]) == Words(buffer[..r]) + [Widen(buffer[r])];
      assert LooksUp(f, op, value, buffer[r]);
      value := Lookup(value, buffer[r]);
      r := r + 1;
    }
    assert buffer[..r] == buffer;
    value := !value;
  }

  // The laws of the division. They are stated of a step f and an operation op that
  // agree with Shift8 and Xor, so that proofs about many steps need not expand them.

  ghost predicate IsXor(op: (bv32, bv32) -> bv32) {
    forall a, b {:trigger Xor(a, b)} :: op(a, b) == Xor(a, b)
  }

  ghost predicate IsBitStep(g: bv32 -> bv32) {
    forall v {:trigger BitStep(v)} :: g(v) == BitStep(v)
  }

  ghost predicate IsShift8(f: bv32 -> bv32) {
    forall v {:trigger Shift8(v)} :: f(v) == Shift8(v)
  }

  predicate LooksUp(f: bv32 -> bv32, op: (bv32, bv32) -> bv32, v: bv32, b: bv8) {
    Lookup(v, b) == f(op(v, Widen(b)))
  }

  /** One lookup is one byte of the division, and the division is linear. */
  lemma Division() returns (f: bv32 -> bv32, op: (bv32, bv32) -> bv32)
    ensures IsXor(op)
    ensures Additive(f, op) && Abelian(op)
    ensures forall v, b :: LooksUp(f, op, v, b)
    ensures forall bytes :: Crc(bytes) == !Fold(f, op, 0xFFFFFFFF, Words(bytes))
  {
    f, op := Shift8, Xor;
    XorLaws(op);
    DivisionLaws(f, op);
  }

  lemma DivisionLaws(f: bv32 -> bv32, op: (bv32, bv32) -> bv32)
    requires IsShift8(f) && IsXor(op)
    ensures Additive(f, op)
    ensures forall v, b :: LooksUp(f, op, v, b)
  {
    forall a, b
      ensures Commutes(f, op, a, b)
    {
      Shift8Commutes(f, op, a, b);
    }
    forall v, b
      ensures LooksUp(f, op, v, b)
    {
      LookupStep(f, op, v, b);
    }
  }

  // The table holds the bit-at-a-time result of every byte value.

  const NIBBLES: seq<bv32> := [0, 1, 2, 3, 4, 5, 6, 7, 8, 9, 10, 11, 12, 13, 14, 15]

  /** The 16 indices of one row. */
  function RowArgs(base: bv32): seq<bv32> {
    seq(16, k requires 0 <= k < 16 => base | NIBBLES[k])
  }

  predicate IsRow<A, B(==)>(f: A -> B, args: seq<A>, row: seq<B>) {
    && |args| == 16
    && row == [f(args[0]), f(args[1]), f(args[2]), f(args[3]), f(args[4]), f(args[5]), f(args[6]), f(args[7]),
               f(args[8]), f(args[9]), f(args[10]), f(args[11]), f(args[12]), f(args[13]), f(args[14]), f(args[15])]
  }

  lemma Row0() returns (g: bv32 -> bv32)
    ensures IsShift8(g) && IsRow(g, RowArgs(0x00), ROW_0)
  {
    g := Shift8;
  }

  lemma Row1() returns (g: bv32 -> bv32)
    ensures IsShift8(g) && IsRow(g, RowArgs(0x10), ROW_1)
  {
    g := Shift8;
  }

  lemma Row2() returns (g: bv32 -> bv32)
    ensures IsShift8(g) && IsRow(g, RowArgs(0x20), ROW_2)
  {
    g := Shift8;
  }

  lemma Row3() returns (g: bv32 -> bv32)
    ensures IsShift8(g) && IsRow(g, RowArgs(0x30), ROW_3)
  {
    g := Shift8;
  }

  lemma Row4() returns (g: bv32 -> bv32)
    ensures IsShift8(g) && IsRow(g, RowArgs(0x40), ROW_4)
  {
    g := Shift8;
  }

  lemma Row5() returns (g: bv32 -> bv32)
    ensures IsShift8(g) && IsRow(g, RowArgs(0x50), ROW_5)
  {
    g := Shift8;
  }

  lemma Row6() returns (g: bv32 -> bv32)
    ensures IsShift8(g) && IsRow(g, RowArgs(0x60), ROW_6)
  {
    g := Shift8;
  }

  lemma Row7() returns (g: bv32 -> bv32)
    ensures IsShift8(g) && IsRow(g, RowArgs(0x70), ROW_7)
  {
    g := Shift8;
  }

  lemma Row8() returns (g: bv32 -> bv32)
    ensures IsShift8(g) && IsRow(g, RowArgs(0x80), ROW_8)
  {
    g := Shift8;
  }

  lemma Row9() returns (g: bv32 -> bv32)
    ensures IsShift8(g) && IsRow(g, RowArgs(0x90), ROW_9)
  {
    g := Shift8;
  }

  lemma RowA() returns (g: bv32 -> bv32)
    ensures IsShift8(g) && IsRow(g, RowArgs(0xA0), ROW_A)
  {
    g := Shift8;
  }

  lemma RowB() returns (g: bv32 -> bv32)
    ensures IsShift8(g) && IsRow(g, RowArgs(0xB0), ROW_B)
  {
    g := Shift8;
  }

  lemma RowC() returns (g: bv32 -> bv32)
    ensures IsShift8(g) && IsRow(g, RowArgs(0xC0), ROW_C)
  {
    g := Shift8;
  }

  lemma RowD() returns (g: bv32 -> bv32)
    ensures IsShift8(g) && IsRow(g, RowArgs(0xD0), ROW_D)
  {
    g := Shift8;
  }

  lemma RowE() returns (g: bv32 -> bv32)
    ensures IsShift8(g) && IsRow(g, RowArgs(0xE0), ROW_E)
  {
    g := Shift8;
  }

  lemma RowF() returns (g: bv32 -> bv32)
    ensures IsShift8(g) && IsRow(g, RowArgs(0xF0), ROW_F)
  {
    g := Shift8;
  }

  lemma RowOf(h: int) returns (g: bv32 -> bv32)
    requires 0 <= h < 16
    ensures IsShift8(g) && IsRow(g, RowArgs(NIBBLES[h] << 4), TABLE[h])
  {
    if h == 0 {
      g := Row0();
    } else if h == 1 {
      g := Row1();
    } else if h == 2 {
      g := Row2();
    } else if h == 3 {
      g := Row3();
    } else if h == 4 {
      g := Row4();
    } else if h == 5 {
      g := Row5();
    } else if h == 6 {
      g := Row6();
    } else if h == 7 {
      g := Row7();
    } else if h == 8 {
      g := Row8();
    } else if h == 9 {
      g := Row9();
    } else if h == 10 {
      g := RowA();
    } else if h == 11 {
      g := RowB();
    } else if h == 12 {
      g := RowC();
    } else if h == 13 {
      g := RowD();
    } else if h == 14 {
      g := RowE();
    } else {
      g := RowF();
    }
  }

  lemma ColumnOf<A, B>(f: A -> B, args: seq<A>, row: seq<B>, i: int)
    requires IsRow(f, args, row) && 0 <= i < 16
    ensures row[i] == f(args[i])
  {
  }

  lemma Same(f: bv32 -> bv32, g: bv32 -> bv32, v: bv32)
    requires IsShift8(f) && IsShift8(g)
    ensures f(v) == g(v)
  {
    assert f(v) == Shift8(v);
  }

  lemma NibbleAt(c: bv32)
    requires c < 16
    ensures NIBBLES[c as int] == c
  {
  }

  lemma Nibbles(i: bv32)
    requires i < 256
    ensures i >> 4 < 16 && i & 15 < 16
    ensures ((i >> 4) << 4) | (i & 15) == i
  {
  }

  lemma ArgAt(i: bv32) returns (h: int, c: int)
    requires i < 256
    ensures 0 <= h < 16 && 0 <= c < 16
    ensures h == (i >> 4) as int && c == (i & 15) as int
    ensures RowArgs(NIBBLES[h] << 4)[c] == i
  {
    Nibbles(i);
    NibbleAt(i >> 4);
    NibbleAt(i & 15);
    h, c := (i >> 4) as int, (i & 15) as int;
  }

  /** Every entry of the table is its index divided through bit by bit. */
  lemma TableEntry(f: bv32 -> bv32, i: bv32, e: bv32)
    requires IsShift8(f) && i < 256 && e == Entry(i)
    ensures e == f(i)
  {
    var h, c := ArgAt(i);
    var g := RowOf(h);
    ColumnOf(g, RowArgs(NIBBLES[h] << 4), TABLE[h], c);
    Same(f, g, i);
  }

  lemma HighBytes(f: bv32 -> bv32, x: bv32)
    requires IsShift8(f)
    ensures f(x & 0xFFFFFF00) == x >> 8
  {
    assert Shift8(x & 0xFFFFFF00) == x >> 8;
  }

  lemma HighAndLow(op: (bv32, bv32) -> bv32, x: bv32)
    requires IsXor(op)
    ensures op(x & 0xFFFFFF00, x & 0xFF) == x
  {
    assert Xor(x & 0xFFFFFF00, x & 0xFF) == x;
  }

  /** The high bytes pass through a byte step, the low byte is divided. */
  lemma Shift8Splits(f: bv32 -> bv32, op: (bv32, bv32) -> bv32, x: bv32, high: bv32, low: bv32)
    requires IsShift8(f) && IsXor(op)
    requires high == x >> 8 && low == x & 0xFF
    ensures f(x) == op(high, f(low))
  {
    HighAndLow(op, x);
    HighBytes(f, x);
    Shift8Commutes(f, op, x & 0xFFFFFF00, x & 0xFF);
  }

  lemma LowByte(v: bv32, b: bv32)
    requires b < 256
    ensures b ^ (v & 0xFF) < 256
    ensures Xor(v, b) & 0xFF == b ^ (v & 0xFF)
    ensures Xor(v, b) >> 8 == v >> 8
  {
  }

  lemma LookupIs(op: (bv32, bv32) -> bv32, v: bv32, b: bv8, high: bv32, low: bv32, e: bv32)
    requires IsXor(op)
    requires high == v >> 8 && low == Widen(b) ^ (v & 0xFF) && low < 256 && e == Entry(low)
    ensures Lookup(v, b) == op(high, e)
  {
    assert op(high, e) == Xor(high, e);
  }

  lemma Parts(op: (bv32, bv32) -> bv32, v: bv32, b: bv8) returns (x: bv32, high: bv32, low: bv32)
    requires IsXor(op)
    ensures x == op(v, Widen(b))
    ensures high == x >> 8 && low == x & 0xFF && low < 256
    ensures high == v >> 8 && low == Widen(b) ^ (v & 0xFF)
  {
    LowByte(v, Widen(b));
    x := Xor(v, Widen(b));
    high, low := v >> 8, Widen(b) ^ (v & 0xFF);
  }

  lemma LookupStep(f: bv32 -> bv32, op: (bv32, bv32) -> bv32, v: bv32, b: bv8)
    requires IsShift8(f) && IsXor(op)
    ensures LooksUp(f, op, v, b)
  {
    var x, high, low := Parts(op, v, b);
    LookupIs(op, v, b, high, low, Entry(low));
    Shift8Splits(f, op, x, high, low);
    TableEntry(f, low, Entry(low));
  }

  // The division is linear over exclusive or.

  predicate Commutes<T(==)>(f: T -> T, op: (T, T) -> T, a: T, b: T) {
    f(op(a, b)) == op(f(a), f(b))
  }

  ghost predicate Additive<T(!new)>(f: T -> T, op: (T, T) -> T) {
    forall a, b :: Commutes(f, op, a, b)
  }

  predicate Associates<T(==)>(op: (T, T) -> T, a: T, b: T, c: T) {
    op(op(a, b), c) == op(a, op(b, c))
  }

  predicate Swaps<T(==)>(op: (T, T) -> T, a: T, b: T) {
    op(a, b) == op(b, a)
  }

  ghost predicate Abelian<T(!new)>(op: (T, T) -> T) {
    && (forall a, b, c :: Associates(op, a, b, c))
    && (forall a, b :: Swaps(op, a, b))
  }

  lemma XorAssociates(a: bv32, b: bv32, c: bv32)
    ensures Xor(Xor(a, b), c) == Xor(a, Xor(b, c))
    ensures Xor(a, b) == Xor(b, a)
  {
  }

  lemma XorLaws(op: (bv32, bv32) -> bv32)
    requires IsXor(op)
    ensures Abelian(op)
  {
    forall a, b, c
      ensures Associates(op, a, b, c)
    {
      XorAssociates(a, b, c);
    }
    forall a, b
      ensures Swaps(op, a, b)
    {
      XorAssociates(a, b, 0);
    }
  }

  lemma BitStepCommutes(a: bv32, b: bv32)
    ensures Commutes(BitStep, Xor, a, b)
  {
    var s := Xor(a, b);
    var r, p, q := BitStep(s), BitStep(a), BitStep(b);
    if a & 1 == 1 {
      if b & 1 == 1 {
        assert s & 1 == 0;
        assert r == Xor(p, q);
      } else {
        assert s & 1 == 1;
        assert r == Xor(p, q);
      }
    } else {
      if b & 1 == 1 {
        assert s & 1 == 1;
        assert r == Xor(p, q);
      } else {
        assert s & 1 == 0;
        assert r == Xor(p, q);
      }
    }
  }

  lemma BitStepAdditive(g: bv32 -> bv32, op: (bv32, bv32) -> bv32)
    requires IsBitStep(g) && IsXor(op)
    ensures Additive(g, op)
  {
    forall a, b
      ensures Commutes(g, op, a, b)
    {
      BitStepCommutes(a, b);
      assert BitStep(Xor(a, b)) == Xor(BitStep(a), BitStep(b));
    }
  }

  lemma EightCommutes<T(!new)>(f: T -> T, op: (T, T) -> T, a: T, b: T)
    requires Additive(f, op)
    ensures Eight(f, op(a, b)) == op(Eight(f, a), Eight(f, b))
  {
    assert Commutes(f, op, a, b);
    var a1, b1 := f(a), f(b);
    assert Commutes(f, op, a1, b1);
    var a2, b2 := f(a1), f(b1);
    assert Commutes(f, op, a2, b2);
    var a3, b3 := f(a2), f(b2);
    assert Commutes(f, op, a3, b3);
    var a4, b4 := f(a3), f(b3);
    assert Commutes(f, op, a4, b4);
    var a5, b5 := f(a4), f(b4);
    assert Commutes(f, op, a5, b5);
    var a6, b6 := f(a5), f(b5);
    assert Commutes(f, op, a6, b6);
    assert Commutes(f, op, f(a6), f(b6));
  }

  lemma ByBits(f: bv32 -> bv32) returns (g: bv32 -> bv32)
    requires IsShift8(f)
    ensures IsBitStep(g)
    ensures forall v :: f(v) == Eight(g, v)
  {
    g := BitStep;
    forall v
      ensures f(v) == Eight(g, v)
    {
      assert Shift8(v) == Eight(g, v);
    }
  }

  lemma Shift8Commutes(f: bv32 -> bv32, op: (bv32, bv32) -> bv32, a: bv32, b: bv32)
    requires IsShift8(f) && IsXor(op)
    ensures Commutes(f, op, a, b)
  {
    var g := ByBits(f);
    BitStepAdditive(g, op);
    EightCommutes(g, op, a, b);
    assert f(a) == Eight(g, a) && f(b) == Eight(g, b) && f(op(a, b)) == Eight(g, op(a, b));
  }

  function Zip<T>(op: (T, T) -> T, a: seq<T>, b: seq<T>): seq<T>
    requires |a| == |b|
  {
    seq(|a|, i requires 0 <= i < |a| => op(a[i], b[i]))
  }

  lemma Exchange<T(!new)>(op: (T, T) -> T, a: T, b: T, c: T, d: T)
    requires Abelian(op)
    ensures op(op(a, b), op(c, d)) == op(op(a, c), op(b, d))
  {
    assert Associates(op, a, b, op(c, d));
    assert Associates(op, b, c, d);
    assert Swaps(op, b, c);
    assert Associates(op, c, b, d);
    assert Associates(op, a, c, op(b, d));
  }

  /** Folding with an additive step is additive in start and inputs. */
  lemma {:induction false} FoldCommutes<T(!new)>(f: T -> T, op: (T, T) -> T, s: T, t: T, a: seq<T>, b: seq<T>)
    requires Additive(f, op) && Abelian(op) && |a| == |b|
    ensures Fold(f, op, op(s, t), Zip(op, a, b)) == op(Fold(f, op, s, a), Fold(f, op, t, b))
  {
    if a != [] {
      var n := |a| - 1;
      FoldCommutes(f, op, s, t, a[..n], b[..n]);
      assert Zip(op, a, b)[..n] == Zip(op, a[..n], b[..n]);
      var p, q := Fold(f, op, s, a[..n]), Fold(f, op, t, b[..n]);
      Exchange(op, p, q, a[n], b[n]);
      assert Commutes(f, op, op(p, a[n]), op(q, b[n]));
    }
  }

  /** The exclusive or of two equally long byte strings. */
  function XorBytes(a: seq<bv8>, b: seq<bv8>): seq<bv8>
    requires |a| == |b|
  {
    seq(|a|, i requires 0 <= i < |a| => a[i] ^ b[i])
  }

  lemma WidenXor(op: (bv32, bv32) -> bv32, a: bv8, b: bv8)
    requires IsXor(op)
    ensures Widen(a ^ b) == op(Widen(a), Widen(b))
  {
    assert Widen(a ^ b) == Xor(Widen(a), Widen(b));
  }

  lemma WordsOfXor(op: (bv32, bv32) -> bv32, a: seq<bv8>, b: seq<bv8>)
    requires IsXor(op) && |a| == |b|
    ensures Words(XorBytes(a, b)) == Zip(op, Words(a), Words(b))
  {
    forall i | 0 <= i < |a|
      ensures Words(XorBytes(a, b))[i] == Zip(op, Words(a), Words(b))[i]
    {
      WidenXor(op, a[i], b[i]);
    }
  }

  lemma Ones(op: (bv32, bv32) -> bv32, ones: bv32)
    requires IsXor(op)
    ensures op(op(ones, ones), ones) == ones
  {
    assert Xor(Xor(ones, ones), ones) == ones;
  }

  lemma Complements(op: (bv32, bv32) -> bv32, x: bv32, y: bv32, z: bv32)
    requires IsXor(op)
    ensures !op(op(x, y), z) == !x ^ !y ^ !z
  {
    assert op(op(x, y), z) == Xor(Xor(x, y), z);
  }

  /** The register after the exclusive or of three equally long strings. */
  lemma RegisterOfXor(f: bv32 -> bv32, op: (bv32, bv32) -> bv32, ones: bv32, a: seq<bv8>, b: seq<bv8>, c: seq<bv8>)
    requires IsXor(op) && Additive(f, op) && Abelian(op) && |a| == |b| == |c|
    ensures Fold(f, op, ones, Words(XorBytes(XorBytes(a, b), c)))
         == op(op(Fold(f, op, ones, Words(a)), Fold(f, op, ones, Words(b))), Fold(f, op, ones, Words(c)))
  {
    Ones(op, ones);
    WordsOfXor(op, a, b);
    WordsOfXor(op, XorBytes(a, b), c);
    FoldCommutes(f, op, ones, ones, Words(a), Words(b));
    FoldCommutes(f, op, op(ones, ones), ones, Words(XorBytes(a, b)), Words(c));
  }

  /** The checksum of the exclusive or of three strings is the exclusive or of their checksums. */
  lemma CrcAffine(a: seq<bv8>, b: seq<bv8>, c: seq<bv8>)
    requires |a| == |b| == |c|
    ensures Crc(XorBytes(XorBytes(a, b), c)) == Crc(a) ^ Crc(b) ^ Crc(c)
  {
    var f, op := Division();
    RegisterOfXor(f, op, 0xFFFFFFFF, a, b, c);
    Complements(op, Fold(f, op, 0xFFFFFFFF, Words(a)), Fold(f, op, 0xFFFFFFFF, Words(b)),
                Fold(f, op, 0xFFFFFFFF, Words(c)));
  }
}
