/**
 The block cipher of the Blowfish engine over any arithmetic of 32-bit words: 16 rounds that
 are undone by running them with the table reversed, and byte strings block by block.
 */
module BlowfishCipher {
  import opened Arith

  /**
   The operations on words. `byteOf(w, i)` is byte i of a word, 0 the most significant;
   `fromBytes` and `toBytes` go between a word and its four bytes in that order.
   */
  datatype Ops<!W> = Ops(
    zero: W,
    xor: (W, W) -> W,
    add: (W, W) -> W,
    byteOf: (W, nat) -> nat,
    fromBytes: seq<bv8> -> W,
    toBytes: W -> seq<bv8>,
    pInit: nat -> W,
    sInit: nat -> W)

  predicate Cancels<W(==)>(ops: Ops<W>, a: W, b: W) {
    ops.xor(ops.xor(a, b), b) == a
  }

  predicate Swaps<W(==)>(ops: Ops<W>, a: W, b: W, c: W) {
    ops.xor(ops.xor(a, b), c) == ops.xor(ops.xor(a, c), b)
  }

  ghost predicate XorLaws<W(!new)>(ops: Ops<W>) {
    && (forall a, b :: Cancels(ops, a, b))
    && (forall a, b, c :: Swaps(ops, a, b, c))
  }

  ghost predicate ByteLaws<W(!new)>(ops: Ops<W>) {
    && (forall w, i: nat :: ops.byteOf(w, i) < 256)
    && (forall w :: |ops.toBytes(w)| == 4 && ops.fromBytes(ops.toBytes(w)) == w)
    && (forall b: seq<bv8> :: |b| == 4 ==> ops.toBytes(ops.fromBytes(b)) == b)
  }

  const ROUNDS: nat := 16

  datatype Pair<W> = Pair(left: W, right: W)

  /** One round: the left half is keyed and goes to the right, mixed into the right half. */
  function Round<W>(ops: Ops<W>, f: W -> W, k: W, x: Pair<W>): Pair<W> {
    var l := ops.xor(x.left, k);
    Pair(ops.xor(x.right, f(l)), l)
  }

  function Rounds<W>(ops: Ops<W>, f: W -> W, p: seq<W>, n: nat, x: Pair<W>): Pair<W>
    requires n <= |p|
  {
    if n == 0 then x else Round(ops, f, p[n - 1], Rounds(ops, f, p, n - 1, x))
  }

  /** The last two table entries go in at the end, and the halves change places. */
  function Whiten<W>(ops: Ops<W>, p: seq<W>, x: Pair<W>): Pair<W>
    requires |p| == ROUNDS + 2
  {
    Pair(ops.xor(x.right, p[ROUNDS + 1]), ops.xor(x.left, p[ROUNDS]))
  }

  function Crypt<W>(ops: Ops<W>, f: W -> W, p: seq<W>, x: Pair<W>): Pair<W>
    requires |p| == ROUNDS + 2
  {
    Whiten(ops, p, Rounds(ops, f, p, ROUNDS, x))
  }

  function Reversed<W>(p: seq<W>): (r: seq<W>)
    ensures |r| == |p|
  {
    seq(|p|, i requires 0 <= i < |p| => p[|p| - 1 - i])
  }

  lemma ReversedTwice<W>(p: seq<W>)
    ensures Reversed(Reversed(p)) == p
  {
  }

  /** Half way through a round of decryption: what is left of the encryption at that point. */
  function Mid<W>(ops: Ops<W>, f: W -> W, k: W, x: Pair<W>): Pair<W> {
    Pair(ops.xor(ops.xor(x.left, k), f(x.right)), x.right)
  }

  /** A decryption round takes one encryption round back. */
  lemma RoundBack<W(!new)>(ops: Ops<W>, f: W -> W, k: W, next: W, x: Pair<W>)
    requires XorLaws(ops)
    ensures Round(ops, f, next, Mid(ops, f, next, Round(ops, f, k, x))) == Mid(ops, f, k, x)
  {
    var e := Round(ops, f, k, x);
    var l := ops.xor(x.left, k);
    assert e == Pair(ops.xor(x.right, f(l)), l);
    assert Swaps(ops, ops.xor(e.left, next), f(l), next);
    assert Cancels(ops, e.left, next);
    assert Cancels(ops, x.right, f(l));
    assert ops.xor(Mid(ops, f, next, e).left, next) == x.right;
  }

  /** After m + 1 rounds with the reversed table the state is half way through round 16 - m. */
  lemma {:induction false} RoundsBack<W(!new)>(ops: Ops<W>, f: W -> W, p: seq<W>, x: Pair<W>, m: nat)
    requires XorLaws(ops) && |p| == ROUNDS + 2 && m < ROUNDS
    ensures Rounds(ops, f, Reversed(p), m + 1, Crypt(ops, f, p, x))
         == Mid(ops, f, p[ROUNDS - m], Rounds(ops, f, p, ROUNDS - m, x))
  {
    var q, y := Reversed(p), Crypt(ops, f, p, x);
    if m == 0 {
      var e := Rounds(ops, f, p, ROUNDS, x);
      assert Rounds(ops, f, q, 0, y) == y;
      assert Cancels(ops, e.right, p[ROUNDS + 1]);
    } else {
      RoundsBack(ops, f, p, x, m - 1);
      var j := ROUNDS - m;
      assert q[m] == p[j + 1];
      RoundBack(ops, f, p[j], p[j + 1], Rounds(ops, f, p, j, x));
    }
  }

  /** With the table reversed the cipher undoes itself. */
  lemma CryptBack<W(!new)>(ops: Ops<W>, f: W -> W, p: seq<W>, x: Pair<W>)
    requires XorLaws(ops) && |p| == ROUNDS + 2
    ensures Crypt(ops, f, Reversed(p), Crypt(ops, f, p, x)) == x
  {
    RoundsBack(ops, f, p, x, ROUNDS - 1);
    var first := Rounds(ops, f, p, 1, x);
    assert first == Round(ops, f, p[0], x) by {
      assert Rounds(ops, f, p, 0, x) == x;
    }
    var l := ops.xor(x.left, p[0]);
    assert Swaps(ops, first.left, p[1], f(l));
    assert Cancels(ops, x.right, f(l));
    assert Cancels(ops, x.right, p[1]);
    assert Cancels(ops, x.left, p[0]);
    var q := Reversed(p);
    assert q[ROUNDS + 1] == p[0] && q[ROUNDS] == p[1];
  }

  // Bytes.

  /** The sum and exclusive or of four table entries, one for each byte of v. */
  function Mix<W>(ops: Ops<W>, s: seq<W>, v: W): W {
    ops.add(ops.xor(ops.add(Entry(ops, s, 0, v), Entry(ops, s, 1, v)), Entry(ops, s, 2, v)), Entry(ops, s, 3, v))
  }

  /** The entry of box i for byte i of v; the four boxes follow one another. */
  function Entry<W>(ops: Ops<W>, s: seq<W>, i: nat, v: W): W {
    var at := 256 * i + ops.byteOf(v, i);
    if at < |s| then s[at] else ops.zero
  }

  function Mixer<W>(ops: Ops<W>, s: seq<W>): W -> W {
    v => Mix(ops, s, v)
  }

  /** Two words from eight bytes, most significant byte first. */
  function ToPair<W>(ops: Ops<W>, b: seq<bv8>): Pair<W>
    requires |b| == 8
  {
    Pair(ops.fromBytes(b[..4]), ops.fromBytes(b[4..]))
  }

  function FromPair<W>(ops: Ops<W>, x: Pair<W>): seq<bv8> {
    ops.toBytes(x.left) + ops.toBytes(x.right)
  }

  lemma PairBytes<W(!new)>(ops: Ops<W>, x: Pair<W>, b: seq<bv8>)
    requires ByteLaws(ops) && |b| == 8
    ensures |FromPair(ops, x)| == 8 && ToPair(ops, FromPair(ops, x)) == x
    ensures FromPair(ops, ToPair(ops, b)) == b
  {
    assert FromPair(ops, x)[..4] == ops.toBytes(x.left) && FromPair(ops, x)[4..] == ops.toBytes(x.right);
    assert b == b[..4] + b[4..];
  }

  function CryptBlock<W>(ops: Ops<W>, f: W -> W, p: seq<W>, b: seq<bv8>): seq<bv8>
    requires |p| == ROUNDS + 2 && |b| == 8
  {
    FromPair(ops, Crypt(ops, f, p, ToPair(ops, b)))
  }

  lemma BlockBack<W(!new)>(ops: Ops<W>, f: W -> W, p: seq<W>, b: seq<bv8>)
    requires XorLaws(ops) && ByteLaws(ops) && |p| == ROUNDS + 2 && |b| == 8
    ensures |CryptBlock(ops, f, p, b)| == 8
    ensures CryptBlock(ops, f, Reversed(p), CryptBlock(ops, f, p, b)) == b
  {
    var x := ToPair(ops, b);
    PairBytes(ops, Crypt(ops, f, p, x), b);
    CryptBack(ops, f, p, x);
  }

  /** Encrypting two words is encrypting the block of their bytes. */
  lemma WordsAreABlock<W(!new)>(ops: Ops<W>, f: W -> W, p: seq<W>, x: Pair<W>)
    requires ByteLaws(ops) && |p| == ROUNDS + 2
    ensures |FromPair(ops, x)| == 8
    ensures CryptBlock(ops, f, p, FromPair(ops, x)) == FromPair(ops, Crypt(ops, f, p, x))
  {
    assert FromPair(ops, x)[..4] == ops.toBytes(x.left) && FromPair(ops, x)[4..] == ops.toBytes(x.right);
  }

  const BYTES_PER_BLOCK: nat := 8

  /** A map of blocks applied to the first n blocks. */
  function MapBlocks(h: seq<bv8> -> seq<bv8>, data: seq<bv8>, n: nat): seq<bv8>
    requires 8 * n <= |data|
  {
    if n == 0 then [] else MapBlocks(h, data, n - 1) + h(data[8 * n - 8..8 * n])
  }

  /** All full blocks; the bytes past the last one are copied. */
  function MapBytes(h: seq<bv8> -> seq<bv8>, data: seq<bv8>): seq<bv8> {
    MapBlocks(h, data, |data| / 8) + data[8 * (|data| / 8)..]
  }

  predicate Takes(h: seq<bv8> -> seq<bv8>, g: seq<bv8> -> seq<bv8>, b: seq<bv8>) {
    |b| == 8 ==> |h(b)| == 8 && g(h(b)) == b
  }

  /** g takes back what h does to a block. */
  ghost predicate TakesBack(h: seq<bv8> -> seq<bv8>, g: seq<bv8> -> seq<bv8>) {
    forall b :: Takes(h, g, b)
  }

  lemma {:induction false} BlocksLength(h: seq<bv8> -> seq<bv8>, g: seq<bv8> -> seq<bv8>, data: seq<bv8>, n: nat)
    requires TakesBack(h, g) && 8 * n <= |data|
    ensures |MapBlocks(h, data, n)| == 8 * n
  {
    if n > 0 {
      BlocksLength(h, g, data, n - 1);
      assert Takes(h, g, data[8 * n - 8..8 * n]);
    }
  }

  /** The blocks depend on nothing behind them. */
  lemma {:induction false} BlocksPrefix(h: seq<bv8> -> seq<bv8>, a: seq<bv8>, b: seq<bv8>, n: nat)
    requires 8 * n <= |a| && 8 * n <= |b| && a[..8 * n] == b[..8 * n]
    ensures MapBlocks(h, a, n) == MapBlocks(h, b, n)
  {
    if n > 0 {
      assert a[..8 * n][..8 * n - 8] == a[..8 * n - 8] && b[..8 * n][..8 * n - 8] == b[..8 * n - 8];
      assert a[8 * n - 8..8 * n] == a[..8 * n][8 * n - 8..] && b[8 * n - 8..8 * n] == b[..8 * n][8 * n - 8..];
      BlocksPrefix(h, a, b, n - 1);
    }
  }

  lemma {:induction false} BlocksBack(h: seq<bv8> -> seq<bv8>, g: seq<bv8> -> seq<bv8>, data: seq<bv8>, n: nat)
    requires TakesBack(h, g) && 8 * n <= |data|
    ensures |MapBlocks(h, data, n)| == 8 * n && MapBlocks(g, MapBlocks(h, data, n), n) == data[..8 * n]
  {
    BlocksLength(h, g, data, n);
    if n > 0 {
      var block, before := data[8 * n - 8..8 * n], MapBlocks(h, data, n - 1);
      BlocksBack(h, g, data, n - 1);
      assert Takes(h, g, block);
      var c := before + h(block);
      assert c[8 * n - 8..8 * n] == h(block) && c[..8 * (n - 1)] == before && before[..8 * (n - 1)] == before;
      BlocksPrefix(g, c, before, n - 1);
      assert data[..8 * n] == data[..8 * (n - 1)] + block;
    }
  }

  lemma BytesBackBy(h: seq<bv8> -> seq<bv8>, g: seq<bv8> -> seq<bv8>, data: seq<bv8>)
    requires TakesBack(h, g)
    ensures |MapBytes(h, data)| == |data| && MapBytes(g, MapBytes(h, data)) == data
  {
    var n := |data| / 8;
    var c, blocks := MapBytes(h, data), MapBlocks(h, data, n);
    BlocksBack(h, g, data, n);
    assert c[..8 * n] == blocks && c[8 * n..] == data[8 * n..] && blocks[..8 * n] == blocks;
    BlocksPrefix(g, c, blocks, n);
    assert data == data[..8 * n] + data[8 * n..];
  }

  function BlockMap<W>(ops: Ops<W>, f: W -> W, p: seq<W>): seq<bv8> -> seq<bv8>
    requires |p| == ROUNDS + 2
  {
    b => if |b| == 8 then CryptBlock(ops, f, p, b) else []
  }

  function CryptBlocks<W>(ops: Ops<W>, f: W -> W, p: seq<W>, data: seq<bv8>, n: nat): seq<bv8>
    requires |p| == ROUNDS + 2 && 8 * n <= |data|
  {
    MapBlocks(BlockMap(ops, f, p), data, n)
  }

  /** What the engine makes of data of any length. */
  function CryptBytes<W>(ops: Ops<W>, f: W -> W, p: seq<W>, data: seq<bv8>): seq<bv8>
    requires |p| == ROUNDS + 2
  {
    MapBytes(BlockMap(ops, f, p), data)
  }

  lemma BlockMapBack<W(!new)>(ops: Ops<W>, f: W -> W, p: seq<W>)
    requires XorLaws(ops) && ByteLaws(ops) && |p| == ROUNDS + 2
    ensures TakesBack(BlockMap(ops, f, p), BlockMap(ops, f, Reversed(p)))
  {
    var h, g := BlockMap(ops, f, p), BlockMap(ops, f, Reversed(p));
    forall b
      ensures Takes(h, g, b)
    {
      if |b| == 8 {
        BlockBack(ops, f, p, b);
      }
    }
  }

  lemma {:induction false} CryptBlocksLength<W(!new)>(ops: Ops<W>, f: W -> W, p: seq<W>, data: seq<bv8>, n: nat)
    requires ByteLaws(ops) && |p| == ROUNDS + 2 && 8 * n <= |data|
    ensures |CryptBlocks(ops, f, p, data, n)| == 8 * n
  {
    if n > 0 {
      var b := data[8 * n - 8..8 * n];
      CryptBlocksLength(ops, f, p, data, n - 1);
      PairBytes(ops, Crypt(ops, f, p, ToPair(ops, b)), b);
    }
  }

  /** Decryption with the reversed table restores data of any length. */
  lemma BytesBack<W(!new)>(ops: Ops<W>, f: W -> W, p: seq<W>, data: seq<bv8>)
    requires XorLaws(ops) && ByteLaws(ops) && |p| == ROUNDS + 2
    ensures |CryptBytes(ops, f, p, data)| == |data|
    ensures CryptBytes(ops, f, Reversed(p), CryptBytes(ops, f, p, data)) == data
  {
    BlockMapBack(ops, f, p);
    BytesBackBy(BlockMap(ops, f, p), BlockMap(ops, f, Reversed(p)), data);
  }

  // The key schedule.

  /** The key repeated without end. */
  function Cyclic(key: seq<bv8>, j: nat): bv8
    requires key != []
  {
    key[j % |key|]
  }

  /** Word i of the repeated key. */
  function KeyWord<W>(ops: Ops<W>, key: seq<bv8>, i: nat): W
    requires key != []
  {
    ops.fromBytes([Cyclic(key, 4 * i), Cyclic(key, 4 * i + 1), Cyclic(key, 4 * i + 2), Cyclic(key, 4 * i + 3)])
  }

  function InitialP<W>(ops: Ops<W>): seq<W> {
    seq(ROUNDS + 2, i requires 0 <= i < ROUNDS + 2 => ops.pInit(i))
  }

  function InitialS<W>(ops: Ops<W>): seq<W> {
    seq(1024, i requires 0 <= i < 1024 => ops.sInit(i))
  }

  function KeyedP<W>(ops: Ops<W>, key: seq<bv8>): seq<W>
    requires key != []
  {
    seq(ROUNDS + 2, i requires 0 <= i < ROUNDS + 2 => ops.xor(ops.pInit(i), KeyWord(ops, key, i)))
  }

  /** The tables and the running pair of words while the schedule overwrites what it reads. */
  datatype Schedule<W> = Schedule(p: seq<W>, s: seq<W>, x: Pair<W>) {
    predicate Valid() {
      |p| == ROUNDS + 2 && |s| == 1024
    }
  }

  /** The pair encrypted with the tables as they are. */
  function NextPair<W>(ops: Ops<W>, t: Schedule<W>): Pair<W>
    requires t.Valid()
  {
    Crypt(ops, Mixer(ops, t.s), t.p, t.x)
  }

  /** The next pair goes over entries 2 n and 2 n + 1 of the first table. */
  function TableStep<W>(ops: Ops<W>, t: Schedule<W>, n: nat): Schedule<W>
    requires t.Valid() && 2 * n + 2 <= ROUNDS + 2
  {
    var x := NextPair(ops, t);
    Schedule(t.p[2 * n := x.left][2 * n + 1 := x.right], t.s, x)
  }

  /** The next pair goes over entries 2 n and 2 n + 1 of the boxes. */
  function BoxStep<W>(ops: Ops<W>, t: Schedule<W>, n: nat): Schedule<W>
    requires t.Valid() && 2 * n + 2 <= 1024
  {
    var x := NextPair(ops, t);
    Schedule(t.p, t.s[2 * n := x.left][2 * n + 1 := x.right], x)
  }

  /** n pairs written over the first table. */
  function FillP<W>(ops: Ops<W>, t: Schedule<W>, n: nat): (r: Schedule<W>)
    requires t.Valid() && 2 * n <= ROUNDS + 2
    ensures r.Valid()
  {
    if n == 0 then t else TableStep(ops, FillP(ops, t, n - 1), n - 1)
  }

  /** n pairs written over the boxes. */
  function FillS<W>(ops: Ops<W>, t: Schedule<W>, n: nat): (r: Schedule<W>)
    requires t.Valid() && 2 * n <= 1024
    ensures r.Valid()
  {
    if n == 0 then t else BoxStep(ops, FillS(ops, t, n - 1), n - 1)
  }

  lemma {:induction false} FillSKeepsP<W>(ops: Ops<W>, t: Schedule<W>, n: nat)
    requires t.Valid() && 2 * n <= 1024
    ensures FillS(ops, t, n).p == t.p
  {
    if n > 0 {
      FillSKeepsP(ops, t, n - 1);
    }
  }

  /** How many pairs of words the first table and the boxes hold. */
  const KEY_PAIRS: nat := 9
  const BOX_PAIRS: nat := 512

  /** The tables a key gives. */
  function KeySchedule<W>(ops: Ops<W>, key: seq<bv8>): (r: Schedule<W>)
    requires key != []
    ensures r.Valid()
  {
    var start := Schedule(KeyedP(ops, key), InitialS(ops), Pair(ops.zero, ops.zero));
    FillS(ops, FillP(ops, start, KEY_PAIRS), BOX_PAIRS)
  }

  /** The tables only depend on the first 72 bytes of the repeated key. */
  lemma ScheduleOfPrefix<W>(ops: Ops<W>, k: seq<bv8>, l: seq<bv8>)
    requires k != [] && l != []
    requires forall j :: 0 <= j < 72 ==> Cyclic(k, j) == Cyclic(l, j)
    ensures KeySchedule(ops, k) == KeySchedule(ops, l)
  {
    forall i | 0 <= i < ROUNDS + 2
      ensures KeyWord(ops, k, i) == KeyWord(ops, l, i)
    {
    }
    assert KeyedP(ops, k) == KeyedP(ops, l);
  }

  lemma CyclicTwice(k: seq<bv8>, j: nat)
    requires k != []
    ensures Cyclic(k + k, j) == Cyclic(k, j)
  {
    var n := |k|;
    ModOfMod(j, n, 2);
    var i := j % (n * 2);
    assert i % n == j % n && |k + k| == n * 2;
    TurnIndex(n, i);
  }

  lemma TurnIndex(n: nat, i: nat)
    requires i < n * 2
    ensures i % n == if i < n then i else i - n
  {
    DivModUnique(i, n, if i < n then 0 else 1, if i < n then i else i - n);
  }

  /** A key written twice gives the same tables. */
  lemma DoubledKey<W>(ops: Ops<W>, k: seq<bv8>)
    requires k != []
    ensures KeySchedule(ops, k + k) == KeySchedule(ops, k)
  {
    forall j | 0 <= j < 72
      ensures Cyclic(k + k, j) == Cyclic(k, j)
    {
      CyclicTwice(k, j);
    }
    ScheduleOfPrefix(ops, k + k, k);
  }
}
