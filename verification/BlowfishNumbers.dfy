/**
 What the Blowfish engine computes, on plain numbers: no machine words, and sums, exclusive ors
 and bytes written out in integer arithmetic.
 */
module BlowfishNumbers {
  import opened BlowfishCipher
  import opened BlowfishWords
  import opened Words32

  // The operations on words, one by one.

  lemma AddIs(n: bv32 -> nat, x: bv32, y: bv32)
    requires Numbers(n)
    ensures n(Add(x, y)) == (n(x) + n(y)) % TWO_32
  {
    assert Sums(n, x, y);
  }

  lemma ExclusiveIs(n: bv32 -> nat, x: bv32, y: bv32)
    requires Numbers(n)
    ensures n(Xor(x, y)) == XorOf(n(x), n(y))
  {
    XorIs(n, x, y);
  }

  lemma FirstByteFits(v: nat)
    requires v < TWO_32
    ensures v / 0x100_0000 % 0x100 == v / 0x100_0000
  {
  }

  lemma FirstByteIs(n: bv32 -> nat, w: bv32)
    requires Numbers(n)
    ensures ByteOf(w, 0) == n(w) / 0x100_0000 % 0x100
  {
    ShiftIs24(n, w);
    assert IsNumber(n, w >> 24) && InRange(n, w);
    FirstByteFits(n(w));
  }

  lemma SecondByteIs(n: bv32 -> nat, w: bv32)
    requires Numbers(n)
    ensures ByteOf(w, 1) == n(w) / 0x1_0000 % 0x100
  {
    ShiftIs16(n, w);
    MaskIs255(n, w >> 16);
    assert IsNumber(n, (w >> 16) & 0xFF);
  }

  lemma ThirdByteIs(n: bv32 -> nat, w: bv32)
    requires Numbers(n)
    ensures ByteOf(w, 2) == n(w) / 0x100 % 0x100
  {
    ShiftIs8(n, w);
    MaskIs255(n, w >> 8);
    assert IsNumber(n, (w >> 8) & 0xFF);
  }

  lemma LastByteIs(n: bv32 -> nat, w: bv32)
    requires Numbers(n)
    ensures ByteOf(w, 3) == n(w) % 0x100
  {
    MaskIs255(n, w);
    assert IsNumber(n, w & 0xFF);
  }

  lemma JoinsBytes(b: seq<bv8>)
    requires |b| == 4
    ensures FromBytes(b)
         == (b[3] as bv32) | ((b[2] as bv32) << 8) | ((b[1] as bv32) << 16) | ((b[0] as bv32) << 24)
  {
  }

  lemma FromBytesIs(n: bv32 -> nat, b: seq<bv8>)
    requires Numbers(n) && |b| == 4
    ensures n(FromBytes(b)) == BigNumber(b)
  {
    JoinsBytes(b);
    BigOfFour(b);
    assert Joins(n, b[3], b[2], b[1], b[0]);
  }

  lemma ToBytesIs(n: bv32 -> nat, w: bv32)
    requires Numbers(n)
    ensures |ToBytes(w)| == 4 && BigNumber(ToBytes(w)) == n(w)
  {
    WordRoundTrip(w);
    FromBytesIs(n, ToBytes(w));
  }

  /** So the operations of the cipher are these on unsigned numbers. */
  lemma OperationsOnWords(x: bv32, y: bv32)
    ensures IsSum(Add(x, y), x, y) && Xor(x, y) as nat == XorOf(x as nat, y as nat)
  {
    var n := NumbersOfWords();
    AddIs(n, x, y);
    SumOf(n, Add(x, y), x, y);
    ExclusiveIs(n, x, y);
    assert IsNumber(n, x) && IsNumber(n, y) && IsNumber(n, Xor(x, y));
  }

  lemma BytesOfWord(w: bv32)
    ensures ByteOf(w, 0) == w as nat / 0x100_0000 % 0x100 && ByteOf(w, 1) == w as nat / 0x1_0000 % 0x100
    ensures ByteOf(w, 2) == w as nat / 0x100 % 0x100 && ByteOf(w, 3) == w as nat % 0x100
  {
    var n := NumbersOfWords();
    FirstByteIs(n, w);
    SecondByteIs(n, w);
    ThirdByteIs(n, w);
    LastByteIs(n, w);
    assert IsNumber(n, w);
  }

  // The same of any words with these numbers.

  predicate Adds<W>(ops: Ops<W>, n: W -> nat, x: W, y: W) {
    n(ops.add(x, y)) == (n(x) + n(y)) % TWO_32
  }

  predicate Xors<W>(ops: Ops<W>, n: W -> nat, x: W, y: W) {
    n(ops.xor(x, y)) == XorOf(n(x), n(y))
  }

  predicate Splits<W>(ops: Ops<W>, n: W -> nat, w: W) {
    && ops.byteOf(w, 0) == n(w) / 0x100_0000 % 0x100 && ops.byteOf(w, 1) == n(w) / 0x1_0000 % 0x100
    && ops.byteOf(w, 2) == n(w) / 0x100 % 0x100 && ops.byteOf(w, 3) == n(w) % 0x100
  }

  predicate Loads<W>(ops: Ops<W>, n: W -> nat, b: seq<bv8>) {
    |b| == 4 ==> n(ops.fromBytes(b)) == BigNumber(b)
  }

  predicate Stores<W>(ops: Ops<W>, n: W -> nat, w: W) {
    |ops.toBytes(w)| == 4 && BigNumber(ops.toBytes(w)) == n(w)
  }

  ghost predicate Numeric<W(!new)>(ops: Ops<W>, n: W -> nat) {
    && n(ops.zero) == 0
    && (forall x, y {:trigger Adds(ops, n, x, y)} :: Adds(ops, n, x, y))
    && (forall x, y {:trigger Xors(ops, n, x, y)} :: Xors(ops, n, x, y))
    && (forall w {:trigger Splits(ops, n, w)} :: Splits(ops, n, w))
    && (forall b {:trigger Loads(ops, n, b)} :: Loads(ops, n, b))
    && (forall w {:trigger Stores(ops, n, w)} :: Stores(ops, n, w))
  }

  /** The words of the engine are such words. */
  lemma OpsAreNumeric() returns (n: bv32 -> nat)
    ensures Numeric(OPS, n)
    ensures forall x {:trigger IsNumber(n, x)} :: IsNumber(n, x)
  {
    n := NumbersOfWords();
    forall x, y
      ensures Adds(OPS, n, x, y)
    {
      AddIs(n, x, y);
    }
    forall x, y
      ensures Xors(OPS, n, x, y)
    {
      ExclusiveIs(n, x, y);
    }
    forall w
      ensures Splits(OPS, n, w)
    {
      FirstByteIs(n, w);
      SecondByteIs(n, w);
      ThirdByteIs(n, w);
      LastByteIs(n, w);
    }
    forall b
      ensures Loads(OPS, n, b)
    {
      if |b| == 4 {
        FromBytesIs(n, b);
      }
    }
    forall w
      ensures Stores(OPS, n, w)
    {
      ToBytesIs(n, w);
    }
  }

  // The cipher on numbers below 2^32.

  /** The entry of box i that a byte of v picks. */
  function EntryNumber(s: seq<nat>, i: nat, byte: nat): nat
    requires |s| == 1024 && i < 4 && byte < 256
  {
    s[256 * i + byte]
  }

  function MixedNumber(s: seq<nat>, v: nat): nat
    requires |s| == 1024
  {
    var sum := (EntryNumber(s, 0, v / 0x100_0000 % 0x100) + EntryNumber(s, 1, v / 0x1_0000 % 0x100)) % TWO_32;
    (XorOf(sum, EntryNumber(s, 2, v / 0x100 % 0x100)) + EntryNumber(s, 3, v % 0x100)) % TWO_32
  }

  /** What a round makes of the half it changes. */
  function HalfNumber(s: seq<nat>, v: nat, other: nat): nat
    requires |s| == 1024
  {
    XorOf(v, MixedNumber(s, other))
  }

  /** Two rounds: first the left half is keyed and goes into the right one, then the right half. */
  function NumberRounds(p: seq<nat>, s: seq<nat>, i: nat, x: TwoNumbers): TwoNumbers
    requires |p| == 18 && |s| == 1024 && i < 8
  {
    var left := XorOf(x.v0, p[2 * i]);
    var right := XorOf(HalfNumber(s, x.v1, left), p[2 * i + 1]);
    TwoNumbers(HalfNumber(s, left, right), right)
  }

  function NumberLoop(p: seq<nat>, s: seq<nat>, count: nat, x: TwoNumbers): TwoNumbers
    requires |p| == 18 && |s| == 1024 && count <= 8
  {
    if count == 0 then x else NumberRounds(p, s, count - 1, NumberLoop(p, s, count - 1, x))
  }

  /** Sixteen rounds; the halves come out keyed once more and in the other order. */
  function NumberCrypt(p: seq<nat>, s: seq<nat>, x: TwoNumbers): TwoNumbers
    requires |p| == 18 && |s| == 1024
  {
    var y := NumberLoop(p, s, 8, x);
    TwoNumbers(XorOf(y.v1, p[17]), XorOf(y.v0, p[16]))
  }

  /** Two numbers from eight bytes, most significant byte first. */
  function BlockNumbers(block: seq<bv8>): TwoNumbers
    requires |block| == 8
  {
    TwoNumbers(BigNumber(block[..4]), BigNumber(block[4..]))
  }

  function NumbersOf<W>(n: W -> nat, x: Pair<W>): TwoNumbers {
    TwoNumbers(n(x.left), n(x.right))
  }

  predicate SameNumbers<W>(n: W -> nat, words: seq<W>, numbers: seq<nat>) {
    |words| == |numbers| && forall i :: 0 <= i < |words| ==> n(words[i]) == numbers[i]
  }

  /** The four entries that a word picks. */
  lemma EntriesAre<W(!new)>(ops: Ops<W>, n: W -> nat, s: seq<W>, t: seq<nat>, v: W)
      returns (e0: W, e1: W, e2: W, e3: W)
    requires Numeric(ops, n) && SameNumbers(n, s, t) && |t| == 1024
    ensures Mix(ops, s, v) == ops.add(ops.xor(ops.add(e0, e1), e2), e3)
    ensures n(e0) == EntryNumber(t, 0, n(v) / 0x100_0000 % 0x100)
    ensures n(e1) == EntryNumber(t, 1, n(v) / 0x1_0000 % 0x100)
    ensures n(e2) == EntryNumber(t, 2, n(v) / 0x100 % 0x100)
    ensures n(e3) == EntryNumber(t, 3, n(v) % 0x100)
  {
    assert Splits(ops, n, v);
    e0, e1, e2, e3 := Entry(ops, s, 0, v), Entry(ops, s, 1, v), Entry(ops, s, 2, v), Entry(ops, s, 3, v);
  }

  lemma MixIs<W(!new)>(ops: Ops<W>, n: W -> nat, s: seq<W>, t: seq<nat>, v: W)
    requires Numeric(ops, n) && SameNumbers(n, s, t) && |t| == 1024
    ensures n(Mix(ops, s, v)) == MixedNumber(t, n(v))
  {
    var e0, e1, e2, e3 := EntriesAre(ops, n, s, t, v);
    assert Adds(ops, n, e0, e1) && Xors(ops, n, ops.add(e0, e1), e2);
    assert Adds(ops, n, ops.xor(ops.add(e0, e1), e2), e3);
  }

  /** One round. */
  lemma RoundIs<W(!new)>(ops: Ops<W>, n: W -> nat, s: seq<W>, t: seq<nat>, k: W, x: Pair<W>) returns (r: Pair<W>)
    requires Numeric(ops, n) && SameNumbers(n, s, t) && |t| == 1024
    ensures r == Round(ops, Mixer(ops, s), k, x)
    ensures n(r.right) == XorOf(n(x.left), n(k)) && n(r.left) == HalfNumber(t, n(x.right), n(r.right))
  {
    r := Round(ops, Mixer(ops, s), k, x);
    MixIs(ops, n, s, t, r.right);
    assert Xors(ops, n, x.left, k) && Xors(ops, n, x.right, Mix(ops, s, r.right));
  }

  lemma NextRounds<W>(ops: Ops<W>, f: W -> W, p: seq<W>, i: nat, x: Pair<W>)
    requires 2 * i + 2 <= |p|
    ensures Rounds(ops, f, p, 2 * i + 2, x)
         == Round(ops, f, p[2 * i + 1], Round(ops, f, p[2 * i], Rounds(ops, f, p, 2 * i, x)))
  {
    assert Rounds(ops, f, p, 2 * i + 1, x) == Round(ops, f, p[2 * i], Rounds(ops, f, p, 2 * i, x));
  }

  lemma RoundsTogether<W(!new)>(
      ops: Ops<W>, n: W -> nat, p: seq<W>, q: seq<nat>, s: seq<W>, t: seq<nat>, i: nat, x: Pair<W>)
    requires Numeric(ops, n) && SameNumbers(n, s, t) && |t| == 1024 && SameNumbers(n, p, q) && |q| == 18 && i < 8
    ensures NumbersOf(n, Round(ops, Mixer(ops, s), p[2 * i + 1], Round(ops, Mixer(ops, s), p[2 * i], x)))
         == NumberRounds(q, t, i, NumbersOf(n, x))
  {
    var first := RoundIs(ops, n, s, t, p[2 * i], x);
    var second := RoundIs(ops, n, s, t, p[2 * i + 1], first);
  }

  lemma TwoRoundsAre<W(!new)>(
      ops: Ops<W>, n: W -> nat, p: seq<W>, q: seq<nat>, s: seq<W>, t: seq<nat>, i: nat, x: Pair<W>)
    requires Numeric(ops, n) && SameNumbers(n, s, t) && |t| == 1024 && SameNumbers(n, p, q) && |q| == 18 && i < 8
    ensures NumbersOf(n, Rounds(ops, Mixer(ops, s), p, 2 * i + 2, x))
         == NumberRounds(q, t, i, NumbersOf(n, Rounds(ops, Mixer(ops, s), p, 2 * i, x)))
  {
    NextRounds(ops, Mixer(ops, s), p, i, x);
    RoundsTogether(ops, n, p, q, s, t, i, Rounds(ops, Mixer(ops, s), p, 2 * i, x));
  }

  lemma {:induction false} LoopIs<W(!new)>(
      ops: Ops<W>, n: W -> nat, p: seq<W>, q: seq<nat>, s: seq<W>, t: seq<nat>, count: nat, x: Pair<W>)
    requires Numeric(ops, n) && SameNumbers(n, s, t) && |t| == 1024 && SameNumbers(n, p, q) && |q| == 18 && count <= 8
    ensures NumbersOf(n, Rounds(ops, Mixer(ops, s), p, 2 * count, x)) == NumberLoop(q, t, count, NumbersOf(n, x))
  {
    if count > 0 {
      LoopIs(ops, n, p, q, s, t, count - 1, x);
      TwoRoundsAre(ops, n, p, q, s, t, count - 1, x);
    }
  }

  lemma CryptIs<W(!new)>(ops: Ops<W>, n: W -> nat, p: seq<W>, q: seq<nat>, s: seq<W>, t: seq<nat>, x: Pair<W>)
    requires Numeric(ops, n) && SameNumbers(n, s, t) && |t| == 1024 && SameNumbers(n, p, q) && |q| == 18
    ensures NumbersOf(n, Crypt(ops, Mixer(ops, s), p, x)) == NumberCrypt(q, t, NumbersOf(n, x))
  {
    LoopIs(ops, n, p, q, s, t, 8, x);
    var y := Rounds(ops, Mixer(ops, s), p, ROUNDS, x);
    assert Xors(ops, n, y.right, p[17]) && Xors(ops, n, y.left, p[16]);
  }

  lemma BlockIs<W(!new)>(ops: Ops<W>, n: W -> nat, p: seq<W>, q: seq<nat>, s: seq<W>, t: seq<nat>, b: seq<bv8>)
    requires Numeric(ops, n) && SameNumbers(n, s, t) && |t| == 1024 && SameNumbers(n, p, q) && |q| == 18 && |b| == 8
    ensures var c := CryptBlock(ops, Mixer(ops, s), p, b);
            |c| == 8 && BlockNumbers(c) == NumberCrypt(q, t, BlockNumbers(b))
  {
    var x := ToPair(ops, b);
    var y := Crypt(ops, Mixer(ops, s), p, x);
    assert Loads(ops, n, b[..4]) && Loads(ops, n, b[4..]);
    CryptIs(ops, n, p, q, s, t, x);
    assert Stores(ops, n, y.left) && Stores(ops, n, y.right);
    assert FromPair(ops, y)[..4] == ops.toBytes(y.left) && FromPair(ops, y)[4..] == ops.toBytes(y.right);
  }

  // Data of any length.

  lemma {:induction false} BlocksOf(h: seq<bv8> -> seq<bv8>, data: seq<bv8>, count: nat)
    requires 8 * count <= |data|
    requires forall b: seq<bv8> {:trigger h(b)} :: |b| == 8 ==> |h(b)| == 8
    ensures |MapBlocks(h, data, count)| == 8 * count
    ensures forall i :: 0 <= i < count ==>
      MapBlocks(h, data, count)[8 * i..8 * i + 8] == h(data[8 * i..8 * i + 8])
  {
    if count > 0 {
      BlocksOf(h, data, count - 1);
      var before, last := MapBlocks(h, data, count - 1), h(data[8 * count - 8..8 * count]);
      forall i | 0 <= i < count
        ensures (before + last)[8 * i..8 * i + 8] == h(data[8 * i..8 * i + 8])
      {
        if i < count - 1 {
          assert (before + last)[8 * i..8 * i + 8] == before[8 * i..8 * i + 8];
        } else {
          assert (before + last)[8 * i..8 * i + 8] == last;
        }
      }
    }
  }

  /** Block i of the outcome, and the bytes past the last block. */
  lemma BytesAreBlocks(h: seq<bv8> -> seq<bv8>, data: seq<bv8>)
    requires forall b: seq<bv8> {:trigger h(b)} :: |b| == 8 ==> |h(b)| == 8
    ensures |MapBytes(h, data)| == |data|
    ensures forall i :: 0 <= i < |data| / 8 ==>
      MapBytes(h, data)[8 * i..8 * i + 8] == h(data[8 * i..8 * i + 8])
    ensures MapBytes(h, data)[8 * (|data| / 8)..] == data[8 * (|data| / 8)..]
  {
    var count := |data| / 8;
    BlocksOf(h, data, count);
    var blocks := MapBlocks(h, data, count);
    forall i | 0 <= i < count
      ensures MapBytes(h, data)[8 * i..8 * i + 8] == h(data[8 * i..8 * i + 8])
    {
      assert MapBytes(h, data)[8 * i..8 * i + 8] == blocks[8 * i..8 * i + 8];
    }
  }

  function WordNumbers(words: seq<bv32>): seq<nat> {
    seq(|words|, i requires 0 <= i < |words| => words[i] as nat)
  }

  lemma WordNumbersAre(n: bv32 -> nat, words: seq<bv32>)
    requires forall x {:trigger IsNumber(n, x)} :: IsNumber(n, x)
    ensures SameNumbers(n, words, WordNumbers(words))
  {
    forall i | 0 <= i < |words|
      ensures n(words[i]) == WordNumbers(words)[i]
    {
      assert IsNumber(n, words[i]);
    }
  }

  lemma BytesAre<W(!new)>(ops: Ops<W>, n: W -> nat, p: seq<W>, q: seq<nat>, s: seq<W>, t: seq<nat>, data: seq<bv8>)
    requires Numeric(ops, n) && SameNumbers(n, s, t) && |t| == 1024 && SameNumbers(n, p, q) && |q| == 18
    ensures Encrypts(q, t, data, CryptBytes(ops, Mixer(ops, s), p, data))
  {
    var h := BlockMap(ops, Mixer(ops, s), p);
    forall b: seq<bv8> | |b| == 8
      ensures |h(b)| == 8
    {
      BlockIs(ops, n, p, q, s, t, b);
    }
    BytesAreBlocks(h, data);
    forall i | 0 <= i < |data| / 8
      ensures BlockNumbers(MapBytes(h, data)[8 * i..8 * i + 8])
              == NumberCrypt(q, t, BlockNumbers(data[8 * i..8 * i + 8]))
    {
      BlockIs(ops, n, p, q, s, t, data[8 * i..8 * i + 8]);
    }
  }

  /** Each full block of c is the cipher on the two numbers in that of the data; the tail is copied. */
  predicate Encrypts(p: seq<nat>, s: seq<nat>, data: seq<bv8>, c: seq<bv8>)
    requires |p| == 18 && |s| == 1024
  {
    && |c| == |data| && c[8 * (|data| / 8)..] == data[8 * (|data| / 8)..]
    && forall i :: 0 <= i < |data| / 8 ==>
      BlockNumbers(c[8 * i..8 * i + 8]) == NumberCrypt(p, s, BlockNumbers(data[8 * i..8 * i + 8]))
  }

  /** What the engine makes of data of any length, with any tables. */
  lemma EncryptsNumbers(p: seq<bv32>, s: seq<bv32>, data: seq<bv8>)
    requires |p| == 18 && |s| == 1024
    ensures Encrypts(WordNumbers(p), WordNumbers(s), data, CryptBytes(OPS, Mixer(OPS, s), p, data))
  {
    var n := OpsAreNumeric();
    WordNumbersAre(n, p);
    WordNumbersAre(n, s);
    BytesAre(OPS, n, p, WordNumbers(p), s, WordNumbers(s), data);
  }
}
