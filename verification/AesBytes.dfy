/** The cipher on bytes: doubling, the two substitution tables and the round constants. */
module AesBytes {
  import opened AesCipher

  const S_BOX: seq<seq<bv8>> := [
    [0x63, 0x7C, 0x77, 0x7B, 0xF2, 0x6B, 0x6F, 0xC5, 0x30, 0x01, 0x67, 0x2B, 0xFE, 0xD7, 0xAB, 0x76],
    [0xCA, 0x82, 0xC9, 0x7D, 0xFA, 0x59, 0x47, 0xF0, 0xAD, 0xD4, 0xA2, 0xAF, 0x9C, 0xA4, 0x72, 0xC0],
    [0xB7, 0xFD, 0x93, 0x26, 0x36, 0x3F, 0xF7, 0xCC, 0x34, 0xA5, 0xE5, 0xF1, 0x71, 0xD8, 0x31, 0x15],
    [0x04, 0xC7, 0x23, 0xC3, 0x18, 0x96, 0x05, 0x9A, 0x07, 0x12, 0x80, 0xE2, 0xEB, 0x27, 0xB2, 0x75],
    [0x09, 0x83, 0x2C, 0x1A, 0x1B, 0x6E, 0x5A, 0xA0, 0x52, 0x3B, 0xD6, 0xB3, 0x29, 0xE3, 0x2F, 0x84],
    [0x53, 0xD1, 0x00, 0xED, 0x20, 0xFC, 0xB1, 0x5B, 0x6A, 0xCB, 0xBE, 0x39, 0x4A, 0x4C, 0x58, 0xCF],
    [0xD0, 0xEF, 0xAA, 0xFB, 0x43, 0x4D, 0x33, 0x85, 0x45, 0xF9, 0x02, 0x7F, 0x50, 0x3C, 0x9F, 0xA8],
    [0x51, 0xA3, 0x40, 0x8F, 0x92, 0x9D, 0x38, 0xF5, 0xBC, 0xB6, 0xDA, 0x21, 0x10, 0xFF, 0xF3, 0xD2],
    [0xCD, 0x0C, 0x13, 0xEC, 0x5F, 0x97, 0x44, 0x17, 0xC4, 0xA7, 0x7E, 0x3D, 0x64, 0x5D, 0x19, 0x73],
    [0x60, 0x81, 0x4F, 0xDC, 0x22, 0x2A, 0x90, 0x88, 0x46, 0xEE, 0xB8, 0x14, 0xDE, 0x5E, 0x0B, 0xDB],
    [0xE0, 0x32, 0x3A, 0x0A, 0x49, 0x06, 0x24, 0x5C, 0xC2, 0xD3, 0xAC, 0x62, 0x91, 0x95, 0xE4, 0x79],
    [0xE7, 0xC8, 0x37, 0x6D, 0x8D, 0xD5, 0x4E, 0xA9, 0x6C, 0x56, 0xF4, 0xEA, 0x65, 0x7A, 0xAE, 0x08],
    [0xBA, 0x78, 0x25, 0x2E, 0x1C, 0xA6, 0xB4, 0xC6, 0xE8, 0xDD, 0x74, 0x1F, 0x4B, 0xBD, 0x8B, 0x8A],
    [0x70, 0x3E, 0xB5, 0x66, 0x48, 0x03, 0xF6, 0x0E, 0x61, 0x35, 0x57, 0xB9, 0x86, 0xC1, 0x1D, 0x9E],
    [0xE1, 0xF8, 0x98, 0x11, 0x69, 0xD9, 0x8E, 0x94, 0x9B, 0x1E, 0x87, 0xE9, 0xCE, 0x55, 0x28, 0xDF],
    [0x8C, 0xA1, 0x89, 0x0D, 0xBF, 0xE6, 0x42, 0x68, 0x41, 0x99, 0x2D, 0x0F, 0xB0, 0x54, 0xBB, 0x16]]

  const INV_S_BOX: seq<seq<bv8>> := [
    [0x52, 0x09, 0x6A, 0xD5, 0x30, 0x36, 0xA5, 0x38, 0xBF, 0x40, 0xA3, 0x9E, 0x81, 0xF3, 0xD7, 0xFB],
    [0x7C, 0xE3, 0x39, 0x82, 0x9B, 0x2F, 0xFF, 0x87, 0x34, 0x8E, 0x43, 0x44, 0xC4, 0xDE, 0xE9, 0xCB],
    [0x54, 0x7B, 0x94, 0x32, 0xA6, 0xC2, 0x23, 0x3D, 0xEE, 0x4C, 0x95, 0x0B, 0x42, 0xFA, 0xC3, 0x4E],
    [0x08, 0x2E, 0xA1, 0x66, 0x28, 0xD9, 0x24, 0xB2, 0x76, 0x5B, 0xA2, 0x49, 0x6D, 0x8B, 0xD1, 0x25],
    [0x72, 0xF8, 0xF6, 0x64, 0x86, 0x68, 0x98, 0x16, 0xD4, 0xA4, 0x5C, 0xCC, 0x5D, 0x65, 0xB6, 0x92],
    [0x6C, 0x70, 0x48, 0x50, 0xFD, 0xED, 0xB9, 0xDA, 0x5E, 0x15, 0x46, 0x57, 0xA7, 0x8D, 0x9D, 0x84],
    [0x90, 0xD8, 0xAB, 0x00, 0x8C, 0xBC, 0xD3, 0x0A, 0xF7, 0xE4, 0x58, 0x05, 0xB8, 0xB3, 0x45, 0x06],
    [0xD0, 0x2C, 0x1E, 0x8F, 0xCA, 0x3F, 0x0F, 0x02, 0xC1, 0xAF, 0xBD, 0x03, 0x01, 0x13, 0x8A, 0x6B],
    [0x3A, 0x91, 0x11, 0x41, 0x4F, 0x67, 0xDC, 0xEA, 0x97, 0xF2, 0xCF, 0xCE, 0xF0, 0xB4, 0xE6, 0x73],
    [0x96, 0xAC, 0x74, 0x22, 0xE7, 0xAD, 0x35, 0x85, 0xE2, 0xF9, 0x37, 0xE8, 0x1C, 0x75, 0xDF, 0x6E],
    [0x47, 0xF1, 0x1A, 0x71, 0x1D, 0x29, 0xC5, 0x89, 0x6F, 0xB7, 0x62, 0x0E, 0xAA, 0x18, 0xBE, 0x1B],
    [0xFC, 0x56, 0x3E, 0x4B, 0xC6, 0xD2, 0x79, 0x20, 0x9A, 0xDB, 0xC0, 0xFE, 0x78, 0xCD, 0x5A, 0xF4],
    [0x1F, 0xDD, 0xA8, 0x33, 0x88, 0x07, 0xC7, 0x31, 0xB1, 0x12, 0x10, 0x59, 0x27, 0x80, 0xEC, 0x5F],
    [0x60, 0x51, 0x7F, 0xA9, 0x19, 0xB5, 0x4A, 0x0D, 0x2D, 0xE5, 0x7A, 0x9F, 0x93, 0xC9, 0x9C, 0xEF],
    [0xA0, 0xE0, 0x3B, 0x4D, 0xAE, 0x2A, 0xF5, 0xB0, 0xC8, 0xEB, 0xBB, 0x3C, 0x83, 0x53, 0x99, 0x61],
    [0x17, 0x2B, 0x04, 0x7E, 0xBA, 0x77, 0xD6, 0x26, 0xE1, 0x69, 0x14, 0x63, 0x55, 0x21, 0x0C, 0x7D]]

  const R_CON: seq<bv8> := [
    0x00, 0x01, 0x02, 0x04, 0x08, 0x10, 0x20, 0x40, 0x80, 0x1B, 0x36, 0x6C, 0xD8, 0xAB, 0x4D, 0x9A,
    0x2F, 0x5E, 0xBC, 0x63, 0xC6, 0x97, 0x35, 0x6A, 0xD4, 0xB3, 0x7D, 0xFA, 0xEF, 0xC5, 0x91, 0x39]

  /** The entry of a table of 16 rows for a byte. */
  function Lookup(t: seq<seq<bv8>>, b: bv8): bv8 {
    var r, c := (b >> 4) as int, (b & 15) as int;
    if r < |t| && c < |t[r]| then t[r][c] else 0
  }

  function Sub(b: bv8): bv8 {
    Lookup(S_BOX, b)
  }

  function Inv(b: bv8): bv8 {
    Lookup(INV_S_BOX, b)
  }

  function Xor(a: bv8, b: bv8): bv8 {
    a ^ b
  }

  function XTime(a: bv8): bv8 {
    (a << 1) ^ (if a & 0x80 != 0 then 0x1B else 0)
  }

  function RCon(i: nat): bv8 {
    if i < |R_CON| then R_CON[i] else 0
  }

  const FIELD: Field<bv8> := Field(Xor, 0, XTime, Sub, Inv, RCon)

  // The tables undo each other, row by row.

  /** Row h of the identity. */
  function Bytes16(h: bv8): seq<bv8> {
    [(h << 4) | 0, (h << 4) | 1, (h << 4) | 2, (h << 4) | 3, (h << 4) | 4, (h << 4) | 5, (h << 4) | 6, (h << 4) | 7,
     (h << 4) | 8, (h << 4) | 9, (h << 4) | 10, (h << 4) | 11, (h << 4) | 12, (h << 4) | 13, (h << 4) | 14,
         (h << 4) | 15]
  }

  predicate MapsRow(f: bv8 -> bv8, row: seq<bv8>, to: seq<bv8>) {
    && |row| == 16
    && to == [f(row[0]), f(row[1]), f(row[2]), f(row[3]), f(row[4]), f(row[5]), f(row[6]), f(row[7]),
              f(row[8]), f(row[9]), f(row[10]), f(row[11]), f(row[12]), f(row[13]), f(row[14]), f(row[15])]
  }

  ghost predicate IsSub(f: bv8 -> bv8) {
    forall b {:trigger Sub(b)} :: f(b) == Sub(b)
  }

  ghost predicate IsInv(f: bv8 -> bv8) {
    forall b {:trigger Inv(b)} :: f(b) == Inv(b)
  }

  lemma SubRow0() returns (f: bv8 -> bv8)
    ensures IsInv(f) && MapsRow(f, S_BOX[0], Bytes16(0))
  {
    f := Inv;
  }

  lemma SubRow1() returns (f: bv8 -> bv8)
    ensures IsInv(f) && MapsRow(f, S_BOX[1], Bytes16(1))
  {
    f := Inv;
  }

  lemma SubRow2() returns (f: bv8 -> bv8)
    ensures IsInv(f) && MapsRow(f, S_BOX[2], Bytes16(2))
  {
    f := Inv;
  }

  lemma SubRow3() returns (f: bv8 -> bv8)
    ensures IsInv(f) && MapsRow(f, S_BOX[3], Bytes16(3))
  {
    f := Inv;
  }

  lemma SubRow4() returns (f: bv8 -> bv8)
    ensures IsInv(f) && MapsRow(f, S_BOX[4], Bytes16(4))
  {
    f := Inv;
  }

  lemma SubRow5() returns (f: bv8 -> bv8)
    ensures IsInv(f) && MapsRow(f, S_BOX[5], Bytes16(5))
  {
    f := Inv;
  }

  lemma SubRow6() returns (f: bv8 -> bv8)
    ensures IsInv(f) && MapsRow(f, S_BOX[6], Bytes16(6))
  {
    f := Inv;
  }

  lemma SubRow7() returns (f: bv8 -> bv8)
    ensures IsInv(f) && MapsRow(f, S_BOX[7], Bytes16(7))
  {
    f := Inv;
  }

  lemma SubRow8() returns (f: bv8 -> bv8)
    ensures IsInv(f) && MapsRow(f, S_BOX[8], Bytes16(8))
  {
    f := Inv;
  }

  lemma SubRow9() returns (f: bv8 -> bv8)
    ensures IsInv(f) && MapsRow(f, S_BOX[9], Bytes16(9))
  {
    f := Inv;
  }

  lemma SubRowA() returns (f: bv8 -> bv8)
    ensures IsInv(f) && MapsRow(f, S_BOX[10], Bytes16(10))
  {
    f := Inv;
  }

  lemma SubRowB() returns (f: bv8 -> bv8)
    ensures IsInv(f) && MapsRow(f, S_BOX[11], Bytes16(11))
  {
    f := Inv;
  }

  lemma SubRowC() returns (f: bv8 -> bv8)
    ensures IsInv(f) && MapsRow(f, S_BOX[12], Bytes16(12))
  {
    f := Inv;
  }

  lemma SubRowD() returns (f: bv8 -> bv8)
    ensures IsInv(f) && MapsRow(f, S_BOX[13], Bytes16(13))
  {
    f := Inv;
  }

  lemma SubRowE() returns (f: bv8 -> bv8)
    ensures IsInv(f) && MapsRow(f, S_BOX[14], Bytes16(14))
  {
    f := Inv;
  }

  lemma SubRowF() returns (f: bv8 -> bv8)
    ensures IsInv(f) && MapsRow(f, S_BOX[15], Bytes16(15))
  {
    f := Inv;
  }

  lemma InvRow0() returns (f: bv8 -> bv8)
    ensures IsSub(f) && MapsRow(f, INV_S_BOX[0], Bytes16(0))
  {
    f := Sub;
  }

  lemma InvRow1() returns (f: bv8 -> bv8)
    ensures IsSub(f) && MapsRow(f, INV_S_BOX[1], Bytes16(1))
  {
    f := Sub;
  }

  lemma InvRow2() returns (f: bv8 -> bv8)
    ensures IsSub(f) && MapsRow(f, INV_S_BOX[2], Bytes16(2))
  {
    f := Sub;
  }

  lemma InvRow3() returns (f: bv8 -> bv8)
    ensures IsSub(f) && MapsRow(f, INV_S_BOX[3], Bytes16(3))
  {
    f := Sub;
  }

  lemma InvRow4() returns (f: bv8 -> bv8)
    ensures IsSub(f) && MapsRow(f, INV_S_BOX[4], Bytes16(4))
  {
    f := Sub;
  }

  lemma InvRow5() returns (f: bv8 -> bv8)
    ensures IsSub(f) && MapsRow(f, INV_S_BOX[5], Bytes16(5))
  {
    f := Sub;
  }

  lemma InvRow6() returns (f: bv8 -> bv8)
    ensures IsSub(f) && MapsRow(f, INV_S_BOX[6], Bytes16(6))
  {
    f := Sub;
  }

  lemma InvRow7() returns (f: bv8 -> bv8)
    ensures IsSub(f) && MapsRow(f, INV_S_BOX[7], Bytes16(7))
  {
    f := Sub;
  }

  lemma InvRow8() returns (f: bv8 -> bv8)
    ensures IsSub(f) && MapsRow(f, INV_S_BOX[8], Bytes16(8))
  {
    f := Sub;
  }

  lemma InvRow9() returns (f: bv8 -> bv8)
    ensures IsSub(f) && MapsRow(f, INV_S_BOX[9], Bytes16(9))
  {
    f := Sub;
  }

  lemma InvRowA() returns (f: bv8 -> bv8)
    ensures IsSub(f) && MapsRow(f, INV_S_BOX[10], Bytes16(10))
  {
    f := Sub;
  }

  lemma InvRowB() returns (f: bv8 -> bv8)
    ensures IsSub(f) && MapsRow(f, INV_S_BOX[11], Bytes16(11))
  {
    f := Sub;
  }

  lemma InvRowC() returns (f: bv8 -> bv8)
    ensures IsSub(f) && MapsRow(f, INV_S_BOX[12], Bytes16(12))
  {
    f := Sub;
  }

  lemma InvRowD() returns (f: bv8 -> bv8)
    ensures IsSub(f) && MapsRow(f, INV_S_BOX[13], Bytes16(13))
  {
    f := Sub;
  }

  lemma InvRowE() returns (f: bv8 -> bv8)
    ensures IsSub(f) && MapsRow(f, INV_S_BOX[14], Bytes16(14))
  {
    f := Sub;
  }

  lemma InvRowF() returns (f: bv8 -> bv8)
    ensures IsSub(f) && MapsRow(f, INV_S_BOX[15], Bytes16(15))
  {
    f := Sub;
  }

  lemma RowElement(f: bv8 -> bv8, row: seq<bv8>, to: seq<bv8>, c: int)
    requires MapsRow(f, row, to) && 0 <= c < 16
    ensures f(row[c]) == to[c]
  {
  }

  lemma SubRowOf(h: bv8) returns (f: bv8 -> bv8)
    requires h < 16
    ensures IsInv(f) && MapsRow(f, S_BOX[h as int], Bytes16(h))
  {
    if h == 0 {
      f := SubRow0();
    } else if h == 1 {
      f := SubRow1();
    } else if h == 2 {
      f := SubRow2();
    } else if h == 3 {
      f := SubRow3();
    } else if h == 4 {
      f := SubRow4();
    } else if h == 5 {
      f := SubRow5();
    } else if h == 6 {
      f := SubRow6();
    } else if h == 7 {
      f := SubRow7();
    } else if h == 8 {
      f := SubRow8();
    } else if h == 9 {
      f := SubRow9();
    } else if h == 10 {
      f := SubRowA();
    } else if h == 11 {
      f := SubRowB();
    } else if h == 12 {
      f := SubRowC();
    } else if h == 13 {
      f := SubRowD();
    } else if h == 14 {
      f := SubRowE();
    } else {
      f := SubRowF();
    }
  }

  lemma InvRowOf(h: bv8) returns (f: bv8 -> bv8)
    requires h < 16
    ensures IsSub(f) && MapsRow(f, INV_S_BOX[h as int], Bytes16(h))
  {
    if h == 0 {
      f := InvRow0();
    } else if h == 1 {
      f := InvRow1();
    } else if h == 2 {
      f := InvRow2();
    } else if h == 3 {
      f := InvRow3();
    } else if h == 4 {
      f := InvRow4();
    } else if h == 5 {
      f := InvRow5();
    } else if h == 6 {
      f := InvRow6();
    } else if h == 7 {
      f := InvRow7();
    } else if h == 8 {
      f := InvRow8();
    } else if h == 9 {
      f := InvRow9();
    } else if h == 10 {
      f := InvRowA();
    } else if h == 11 {
      f := InvRowB();
    } else if h == 12 {
      f := InvRowC();
    } else if h == 13 {
      f := InvRowD();
    } else if h == 14 {
      f := InvRowE();
    } else {
      f := InvRowF();
    }
  }

  lemma ByteAt(b: bv8)
    ensures b >> 4 < 16 && b & 15 < 16
    ensures Bytes16(b >> 4)[(b & 15) as int] == b
  {
  }

  lemma SubThenInv(b: bv8)
    ensures Inv(Sub(b)) == b
  {
    ByteAt(b);
    var f := SubRowOf(b >> 4);
    RowElement(f, S_BOX[(b >> 4) as int], Bytes16(b >> 4), (b & 15) as int);
    assert f(Sub(b)) == b;
  }

  lemma InvThenSub(b: bv8)
    ensures Sub(Inv(b)) == b
  {
    ByteAt(b);
    var f := InvRowOf(b >> 4);
    RowElement(f, INV_S_BOX[(b >> 4) as int], Bytes16(b >> 4), (b & 15) as int);
    assert f(Inv(b)) == b;
  }

  lemma XTimeLinear(a: bv8, b: bv8)
    ensures XTime(Xor(a, b)) == Xor(XTime(a), XTime(b))
  {
    var s := Xor(a, b);
    var r, p, q := XTime(s), XTime(a), XTime(b);
    if a & 0x80 != 0 {
      if b & 0x80 != 0 {
        assert s & 0x80 == 0;
        assert r == Xor(p, q);
      } else {
        assert s & 0x80 != 0;
        assert r == Xor(p, q);
      }
    } else {
      if b & 0x80 != 0 {
        assert s & 0x80 != 0;
        assert r == Xor(p, q);
      } else {
        assert s & 0x80 == 0;
        assert r == Xor(p, q);
      }
    }
  }

  lemma XorLaws(a: bv8, b: bv8, c: bv8)
    ensures Xor(Xor(a, b), c) == Xor(a, Xor(b, c)) && Xor(a, b) == Xor(b, a)
    ensures Xor(a, 0) == a && Xor(a, a) == 0
  {
    assert Xor(a ^ b, c) == Xor(a, b ^ c) && Xor(a, b) == a ^ b && Xor(b, c) == b ^ c;
  }

  /** Everything the round functions rely on holds of bytes. */
  lemma FieldLaws()
    ensures Laws(FIELD)
  {
    forall a, b, c
      ensures Assoc(FIELD, a, b, c)
    {
      XorLaws(a, b, c);
    }
    forall a, b
      ensures Comm(FIELD, a, b) && Doubles(FIELD, a, b)
    {
      XorLaws(a, b, 0);
      XTimeLinear(a, b);
    }
    forall a
      ensures Unit(FIELD, a) && Subs(FIELD, a)
    {
      XorLaws(a, 0, 0);
      SubThenInv(a);
      InvThenSub(a);
    }
  }
}
