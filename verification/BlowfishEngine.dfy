/**
 The engine: two tables and four boxes that a key overwrites, and buffers that are encrypted
 and decrypted block by block, in place or into another buffer.
 */
module BlowfishEngineModule {
  import opened BlowfishCipher

  class BlowfishEngine<W(!new)> {
    const ops: Ops<W>
    var isKeyed: bool
    const pEncrypt: array<W>
    const pDecrypt: array<W>
    const bfS: array<W>

    /** The tables have their sizes; while keyed the second table mirrors the first. */
    ghost predicate Valid()
      reads this, pEncrypt, pDecrypt, bfS
    {
      && pEncrypt.Length == pDecrypt.Length == ROUNDS + 2 && bfS.Length == 1024
      && pEncrypt != pDecrypt && pEncrypt != bfS && pDecrypt != bfS
      && (isKeyed ==> pDecrypt[..] == Reversed(pEncrypt[..]))
    }

    constructor (ops: Ops<W>)
      ensures Valid() && !isKeyed && this.ops == ops
      ensures fresh(pEncrypt) && fresh(pDecrypt) && fresh(bfS)
    {
      this.ops, isKeyed := ops, false;
      pEncrypt := new W[ROUNDS + 2](_ => ops.zero);
      pDecrypt := new W[ROUNDS + 2](_ => ops.zero);
      bfS := new W[1024](_ => ops.zero);
    }

    function Tables(): set<object> {
      {pEncrypt, pDecrypt, bfS}
    }

    function Mixing(): W -> W
      reads bfS
    {
      Mixer(ops, bfS[..])
    }

    /** Encrypts two words with the table as it is. */
    method SubKeyEncrypt(left: W, right: W) returns (l: W, r: W)
      requires Sized()
      ensures Pair(l, r) == Crypt(ops, Mixing(), pEncrypt[..], Pair(left, right))
    {
      ghost var f, p, x := Mixing(), pEncrypt[..], Pair(left, right);
      l, r := left, right;
      var index := 0;
      while index < ROUNDS
        invariant 0 <= index <= ROUNDS && index % 2 == 0
        invariant Pair(l, r) == Rounds(ops, f, p, index, x)
      {
        l := ops.xor(l, pEncrypt[index]);
        r := ops.xor(r, Mix(ops, bfS[..], l));
        assert Rounds(ops, f, p, index + 1, x) == Pair(r, l);
        r := ops.xor(r, pEncrypt[index + 1]);
        l := ops.xor(l, Mix(ops, bfS[..], r));
        assert Rounds(ops, f, p, index + 2, x) == Pair(l, r);
        index := index + 2;
      }
      l, r := ops.xor(r, pEncrypt[ROUNDS + 1]), ops.xor(l, pEncrypt[ROUNDS]);
    }

    /** Encrypts or decrypts eight bytes, depending on the table. */
    method ProcessBlock(source: array<bv8>, from: nat, target: array<bv8>, to: nat, table: array<W>)
      requires Valid() && table.Length == ROUNDS + 2 && ByteLaws(ops)
      requires from + 8 <= source.Length && to + 8 <= target.Length && target !in Tables()
      modifies target
      ensures |CryptBlock(ops, Mixing(), old(table[..]), old(source[from..from + 8]))| == 8
      ensures target[..] == old(target[..to]) + CryptBlock(ops, Mixing(), old(table[..]), old(source[from..from + 8]))
                            + old(target[to + 8..])
    {
      var x := ReadPair(ops, source, from);
      ghost var b := source[from..from + 8];
      var left, right := DoubleRounds(x.left, x.right, table);
      PairBytes(ops, Pair(left, right), b);
      PutWord(target, to, ops.toBytes(left));
      ghost var mid := target[..];
      PutWord(target, to + 4, ops.toBytes(right));
      TwoPuts(old(target[..]), mid, target[..], to, ops.toBytes(left), ops.toBytes(right));
    }

    /** The rounds and the last two table entries. */
    method DoubleRounds(left: W, right: W, table: array<W>) returns (l: W, r: W)
      requires Valid() && table.Length == ROUNDS + 2
      ensures Pair(l, r) == Crypt(ops, Mixing(), table[..], Pair(left, right))
    {
      ghost var f, p, x := Mixing(), table[..], Pair(left, right);
      l, r := left, right;
      var index := 0;
      while index < ROUNDS / 2
        invariant 0 <= index <= ROUNDS / 2
        invariant Pair(l, r) == Rounds(ops, f, p, 2 * index, x)
      {
        l := ops.xor(l, table[2 * index]);
        r := ops.xor(r, Mix(ops, bfS[..], l));
        assert Rounds(ops, f, p, 2 * index + 1, x) == Pair(r, l);
        r := ops.xor(r, table[2 * index + 1]);
        l := ops.xor(l, Mix(ops, bfS[..], r));
        assert Rounds(ops, f, p, 2 * index + 2, x) == Pair(l, r);
        index := index + 1;
      }
      l, r := ops.xor(r, table[ROUNDS + 1]), ops.xor(l, table[ROUNDS]);
    }

    ghost predicate Sized() {
      && pEncrypt.Length == pDecrypt.Length == ROUNDS + 2 && bfS.Length == 1024
      && pEncrypt != pDecrypt && pEncrypt != bfS && pDecrypt != bfS
    }

    /** All tables as they are before a key is mixed in. */
    method ResetTables()
      requires Sized()
      modifies pEncrypt, pDecrypt, bfS
      ensures pEncrypt[..] == InitialP(ops) && pDecrypt[..] == InitialP(ops) && bfS[..] == InitialS(ops)
    {
      forall i | 0 <= i < ROUNDS + 2 {
        pEncrypt[i] := ops.pInit(i);
      }
      forall i | 0 <= i < ROUNDS + 2 {
        pDecrypt[i] := ops.pInit(i);
      }
      forall i | 0 <= i < 1024 {
        bfS[i] := ops.sInit(i);
      }
    }

    /** The key, repeated as often as needed, goes into the first table. */
    method MixInKey(key: array<bv8>, length: nat)
      requires Sized() && 0 < length <= key.Length && key !in Tables()
      requires pEncrypt[..] == InitialP(ops)
      modifies pEncrypt
      ensures pEncrypt[..] == KeyedP(ops, key[..length])
    {
      ghost var k := key[..length];
      var j := 0;
      var index := 0;
      while index < ROUNDS + 2
        invariant 0 <= index <= ROUNDS + 2 && j == 4 * index
        invariant forall i :: 0 <= i < index ==> pEncrypt[i] == ops.xor(ops.pInit(i), KeyWord(ops, k, i))
        invariant forall i :: index <= i < ROUNDS + 2 ==> pEncrypt[i] == ops.pInit(i)
      {
        var data := ReadKey(ops, key, length, index, j);
        j := j + 4;
        pEncrypt[index] := ops.xor(pEncrypt[index], data);
        index := index + 1;
      }
    }

    /** One pair goes over entries `index` and `index + 1`, and into the mirrored places. */
    method StorePair(index: nat, left: W, right: W)
      requires Sized() && index + 2 <= ROUNDS + 2
      requires Mirrors(pEncrypt[..], pDecrypt[..], index)
      modifies pEncrypt, pDecrypt
      ensures pEncrypt[..] == old(pEncrypt[..])[index := left][index + 1 := right]
      ensures Mirrors(pEncrypt[..], pDecrypt[..], index + 2)
    {
      pEncrypt[index] := left;
      pEncrypt[index + 1] := right;
      pDecrypt[ROUNDS + 1 - index] := left;
      pDecrypt[ROUNDS - index] := right;
    }

    /** The next pair of words goes over two entries of the first table. */
    method FillTablePair(index: nat, left: W, right: W, ghost fill: nat -> Schedule<W>, ghost n: nat)
      returns (l: W, r: W)
      requires Sized() && index == 2 * n && index + 2 <= ROUNDS + 2 && FillsTable(ops, fill, n)
      requires Schedule(pEncrypt[..], bfS[..], Pair(left, right)) == fill(n)
      requires Mirrors(pEncrypt[..], pDecrypt[..], index)
      modifies pEncrypt, pDecrypt
      ensures Schedule(pEncrypt[..], bfS[..], Pair(l, r)) == fill(n + 1)
      ensures Mirrors(pEncrypt[..], pDecrypt[..], index + 2)
    {
      l, r := SubKeyEncrypt(left, right);
      StorePair(index, l, r);
    }

    /** The first table is overwritten pair by pair while it is used; the second mirrors it. */
    method FillTables(ghost fill: nat -> Schedule<W>) returns (left: W, right: W)
      requires Sized() && Schedule(pEncrypt[..], bfS[..], Pair(ops.zero, ops.zero)) == fill(0)
      requires forall n :: 0 <= n < KEY_PAIRS ==> FillsTable(ops, fill, n)
      modifies pEncrypt, pDecrypt
      ensures Schedule(pEncrypt[..], bfS[..], Pair(left, right)) == fill(KEY_PAIRS)
      ensures pDecrypt[..] == Reversed(pEncrypt[..])
    {
      left, right := ops.zero, ops.zero;
      var index := 0;
      ghost var n := 0;
      while index < ROUNDS + 2
        invariant 0 <= n <= KEY_PAIRS && index == 2 * n
        invariant Schedule(pEncrypt[..], bfS[..], Pair(left, right)) == fill(n)
        invariant Mirrors(pEncrypt[..], pDecrypt[..], index)
      {
        assert FillsTable(ops, fill, n);
        left, right := FillTablePair(index, left, right, fill, n);
        index := index + 2;
        n := n + 1;
      }
      MirrorsAll(pEncrypt[..], pDecrypt[..]);
    }

    /** The next pair of words goes over two entries of a box. */
    method FillPair(at: nat, left: W, right: W, ghost fill: nat -> Schedule<W>, ghost n: nat) returns (l: W, r: W)
      requires Sized() && at == 2 * n && at + 2 <= 1024 && FillsBoxes(ops, fill, n)
      requires Schedule(pEncrypt[..], bfS[..], Pair(left, right)) == fill(n)
      modifies bfS
      ensures Schedule(pEncrypt[..], bfS[..], Pair(l, r)) == fill(n + 1)
    {
      l, r := SubKeyEncrypt(left, right);
      StoreInBox(at, l, r);
    }

    /** One box is overwritten pair by pair. */
    method FillBox(box: nat, left: W, right: W, ghost fill: nat -> Schedule<W>) returns (l: W, r: W)
      requires Sized() && box < 4 && forall n :: 0 <= n < BOX_PAIRS ==> FillsBoxes(ops, fill, n)
      requires Schedule(pEncrypt[..], bfS[..], Pair(left, right)) == fill(128 * box)
      modifies bfS
      ensures Schedule(pEncrypt[..], bfS[..], Pair(l, r)) == fill(128 * (box + 1))
    {
      l, r := left, right;
      var index := 0;
      ghost var n := 128 * box;
      while index < 256
        invariant 0 <= index <= 256 && 2 * n == 256 * box + index
        invariant Schedule(pEncrypt[..], bfS[..], Pair(l, r)) == fill(n)
      {
        assert FillsBoxes(ops, fill, n);
        l, r := FillPair(256 * box + index, l, r, fill, n);
        index := index + 2;
        n := n + 1;
      }
    }

    /** The boxes are overwritten pair by pair while they are used. */
    method FillBoxes(left: W, right: W, ghost fill: nat -> Schedule<W>)
      requires Sized() && Schedule(pEncrypt[..], bfS[..], Pair(left, right)) == fill(0)
      requires forall n :: 0 <= n < BOX_PAIRS ==> FillsBoxes(ops, fill, n)
      modifies bfS
      ensures bfS[..] == fill(BOX_PAIRS).s
    {
      var l, r := left, right;
      var box := 0;
      while box < 4
        invariant 0 <= box <= 4
        invariant Schedule(pEncrypt[..], bfS[..], Pair(l, r)) == fill(128 * box)
      {
        l, r := FillBox(box, l, r, fill);
        box := box + 1;
      }
    }

    method StoreInBox(at: nat, left: W, right: W)
      requires Sized() && at + 2 <= 1024
      modifies bfS
      ensures bfS[..] == old(bfS[..])[at := left][at + 1 := right]
    {
      bfS[at] := left;
      bfS[at + 1] := right;
    }

    /** A key sets up the tables; no key, or an empty one, resets them. */
    method SubmitKey(key: array?<bv8>, length: nat)
      requires Valid() && (key != null ==> length <= key.Length && key !in Tables())
      modifies this, pEncrypt, pDecrypt, bfS
      ensures Valid() && (isKeyed <==> key != null && length != 0)
      ensures !isKeyed ==>
        pEncrypt[..] == InitialP(ops) && pDecrypt[..] == InitialP(ops) && bfS[..] == InitialS(ops)
      ensures isKeyed ==>
        && pDecrypt[..] == Reversed(pEncrypt[..])
        && pEncrypt[..] == KeySchedule(ops, key[..length]).p && bfS[..] == KeySchedule(ops, key[..length]).s
    {
      ResetTables();
      if key == null || length == 0 {
        isKeyed := false;
        return;
      }
      MixInKey(key, length);
      FillAll(key[..length]);
      isKeyed := true;
    }

    method FillAll(ghost key: seq<bv8>)
      requires Sized() && key != [] && pEncrypt[..] == KeyedP(ops, key) && bfS[..] == InitialS(ops)
      modifies pEncrypt, pDecrypt, bfS
      ensures pDecrypt[..] == Reversed(pEncrypt[..])
      ensures pEncrypt[..] == KeySchedule(ops, key).p && bfS[..] == KeySchedule(ops, key).s
    {
      ghost var start := Schedule(KeyedP(ops, key), InitialS(ops), Pair(ops.zero, ops.zero));
      ghost var fillTable := TableFilling(ops, start);
      var left, right := FillTables(fillTable);
      ghost var filled := FillP(ops, start, KEY_PAIRS);
      FillSKeepsP(ops, filled, BOX_PAIRS);
      ghost var fill := BoxFilling(ops, filled);
      FillBoxes(left, right, fill);
    }

    /** How far a buffer has come: `index` blocks done, the rest of target and source as before. */
    ghost predicate Done(source: array<bv8>, target: array<bv8>, f: W -> W, p: seq<W>, data: seq<bv8>,
                         before: seq<bv8>, index: nat)
      reads source, target
    {
      && |p| == ROUNDS + 2 && 8 * index <= |data| <= source.Length && |data| <= target.Length == |before|
      && |CryptBlocks(ops, f, p, data, index)| == 8 * index
      && target[..] == CryptBlocks(ops, f, p, data, index) + before[8 * index..]
      && forall i :: 8 * index <= i < |data| ==> source[i] == data[i]
    }

    /** One block, which is known beforehand. */
    method PutBlock(source: array<bv8>, target: array<bv8>, table: array<W>, at: nat, ghost block: seq<bv8>)
      requires Valid() && ByteLaws(ops) && table.Length == ROUNDS + 2 && target !in Tables() && target != table
      requires at + 8 <= source.Length && at + 8 <= target.Length && |block| == 8
      requires block == CryptBlock(ops, Mixing(), table[..], source[at..at + 8])
      modifies target
      ensures target[..] == old(target[..at]) + block + old(target[at + 8..])
    {
      ProcessBlock(source, at, target, at, table);
    }

    /** One block more. */
    method CryptNext(source: array<bv8>, target: array<bv8>, table: array<W>, index: nat, ghost data: seq<bv8>,
                     ghost before: seq<bv8>)
      requires Valid() && ByteLaws(ops) && table in Tables() && target !in Tables() && table.Length == ROUNDS + 2
      requires Done(source, target, Mixing(), table[..], data, before, index) && 8 * index + 8 <= |data|
      modifies target
      ensures Done(source, target, Mixing(), table[..], data, before, index + 1)
    {
      var at := 8 * index;
      ghost var was := target[..];
      ghost var c, block := NextBlocks(ops, Mixing(), table[..], data, index);
      assert source[at..at + 8] == data[at..at + 8];
      PutBlock(source, target, table, at, block);
      BlockBehind(c, block, before, was, target[..]);
      forall i | at + 8 <= i < |data|
        ensures source[i] == data[i]
      {
        assert source == target ==> target[..][i] == was[i];
      }
    }

    /** The keyed part of encryption and decryption: all full blocks, then the tail as it is. */
    method CryptBuffer(source: array<bv8>, length: nat, target: array<bv8>, table: array<W>) returns (done: nat)
      requires Valid() && ByteLaws(ops) && table in Tables() && table.Length == ROUNDS + 2
      requires length <= source.Length && length <= target.Length && target !in Tables()
      modifies target
      ensures done == length / 8 * 8
      ensures target[..] == CryptBytes(ops, Mixing(), table[..], old(source[..length])) + old(target[length..])
    {
      ghost var data, before := source[..length], target[..];
      ghost var f, p := Mixing(), table[..];
      var blocks := length / BYTES_PER_BLOCK;
      assert CryptBlocks(ops, f, p, data, 0) == [] && [] + before == before;
      CryptLoop(source, target, table, blocks, f, p, data, before);
      done := blocks * BYTES_PER_BLOCK;
      ghost var c := CryptBlocks(ops, f, p, data, blocks);
      CopyTail(source, target, done, length, c, data, before);
      assert c + data[done..] == CryptBytes(ops, f, p, data);
    }

    method CryptLoop(source: array<bv8>, target: array<bv8>, table: array<W>, blocks: nat, ghost f: W -> W,
                     ghost p: seq<W>, ghost data: seq<bv8>, ghost before: seq<bv8>)
      requires Valid() && ByteLaws(ops) && table in Tables() && target !in Tables() && table.Length == ROUNDS + 2
      requires f == Mixing() && p == table[..] && 8 * blocks <= |data|
      requires Done(source, target, f, p, data, before, 0)
      modifies target
      ensures f == Mixing() && p == table[..] && Done(source, target, f, p, data, before, blocks)
    {
      var index := 0;
      while index < blocks
        invariant 0 <= index <= blocks
        invariant Valid() && f == Mixing() && p == table[..]
        invariant Done(source, target, f, p, data, before, index)
      {
        CryptNext(source, target, table, index, data, before);
        index := index + 1;
      }
    }

    /** Without a key the data is copied. */
    method CopyBuffer(source: array<bv8>, length: nat, target: array<bv8>) returns (done: nat)
      requires length <= source.Length && length <= target.Length
      modifies target
      ensures done == length && target[..] == old(source[..length]) + old(target[length..])
    {
      ghost var data, before := source[..length], target[..];
      assert [] + before[0..] == before;
      CopyTail(source, target, 0, length, [], data, before);
      assert [] + data[0..] == data && before[length..] == old(target[length..]);
      done := length;
    }

    /** A buffer holds `length` bytes and is none of the tables. */
    predicate Fits(buffer: array?<bv8>, length: nat) {
      buffer != null ==> length <= buffer.Length && buffer !in Tables()
    }

    /** Encrypts a buffer; `cyphertext` null means in place. */
    method Encrypt(plaintext: array?<bv8>, length: nat, cyphertext: array?<bv8>) returns (done: nat)
      requires Valid() && ByteLaws(ops) && Fits(plaintext, length) && Fits(cyphertext, length)
      modifies if cyphertext != null then {cyphertext} else {plaintext}
      ensures plaintext == null || length == 0 ==>
        && done == 0 && (plaintext != null ==> unchanged(plaintext)) && (cyphertext != null ==> unchanged(cyphertext))
      ensures plaintext != null && length > 0 ==>
        var target := if cyphertext == null then plaintext else cyphertext;
        && done == (if isKeyed then length / 8 * 8 else length)
        && target[..] == (if isKeyed then CryptBytes(ops, Mixing(), pEncrypt[..], old(plaintext[..length]))
                          else old(plaintext[..length])) + old(target[length..])
    {
      if plaintext == null || length == 0 {
        return 0;
      }
      var target := if cyphertext == null then plaintext else cyphertext;
      if isKeyed {
        done := CryptBuffer(plaintext, length, target, pEncrypt);
      } else {
        done := CopyBuffer(plaintext, length, target);
      }
    }

    /** Decrypts a buffer; `plaintext` null means in place. */
    method Decrypt(cyphertext: array?<bv8>, length: nat, plaintext: array?<bv8>) returns (done: nat)
      requires Valid() && ByteLaws(ops) && Fits(cyphertext, length) && Fits(plaintext, length)
      modifies if plaintext != null then {plaintext} else {cyphertext}
      ensures cyphertext == null || length == 0 ==>
        && done == 0 && (cyphertext != null ==> unchanged(cyphertext)) && (plaintext != null ==> unchanged(plaintext))
      ensures cyphertext != null && length > 0 ==>
        var target := if plaintext == null then cyphertext else plaintext;
        && done == (if isKeyed then length / 8 * 8 else length)
        && target[..] == (if isKeyed then CryptBytes(ops, Mixing(), pDecrypt[..], old(cyphertext[..length]))
                          else old(cyphertext[..length])) + old(target[length..])
    {
      if cyphertext == null || length == 0 {
        return 0;
      }
      var target := if plaintext == null then cyphertext else plaintext;
      if isKeyed {
        done := CryptBuffer(cyphertext, length, target, pDecrypt);
      } else {
        done := CopyBuffer(cyphertext, length, target);
      }
    }

    /** While keyed, what decryption does to data takes back what encryption did to it. */
    lemma DecryptRestores(data: seq<bv8>)
      requires Valid() && isKeyed && XorLaws(ops) && ByteLaws(ops)
      ensures CryptBytes(ops, Mixing(), pDecrypt[..], CryptBytes(ops, Mixing(), pEncrypt[..], data)) == data
      ensures CryptBytes(ops, Mixing(), pEncrypt[..], CryptBytes(ops, Mixing(), pDecrypt[..], data)) == data
    {
      BytesBack(ops, Mixing(), pEncrypt[..], data);
      BytesBack(ops, Mixing(), pDecrypt[..], data);
      ReversedTwice(pEncrypt[..]);
    }
  }

  lemma BlockBehind(c: seq<bv8>, block: seq<bv8>, before: seq<bv8>, was: seq<bv8>, now: seq<bv8>)
    requires |block| == 8 && |c| + 8 <= |before| && was == c + before[|c|..]
    requires now == was[..|c|] + block + was[|c| + 8..]
    ensures now == (c + block) + before[|c| + 8..] && |now| == |was|
    ensures forall i :: |c| + 8 <= i < |was| ==> now[i] == was[i]
  {
    assert was[..|c|] == c && was[|c| + 8..] == before[|c| + 8..];
  }

  /** The blocks so far, and the next one. */
  lemma NextBlocks<W(!new)>(ops: Ops<W>, f: W -> W, p: seq<W>, data: seq<bv8>, index: nat)
      returns (c: seq<bv8>, block: seq<bv8>)
    requires ByteLaws(ops) && |p| == ROUNDS + 2 && 8 * index + 8 <= |data|
    ensures c == CryptBlocks(ops, f, p, data, index) && |c| == 8 * index
    ensures block == CryptBlock(ops, f, p, data[8 * index..8 * index + 8]) && |block| == 8
    ensures CryptBlocks(ops, f, p, data, index + 1) == c + block
  {
    var b := data[8 * index..8 * index + 8];
    c, block := CryptBlocks(ops, f, p, data, index), CryptBlock(ops, f, p, b);
    CryptBlocksLength(ops, f, p, data, index);
    PairBytes(ops, Crypt(ops, f, p, ToPair(ops, b)), b);
    NextMapped(BlockMap(ops, f, p), data, index);
  }

  lemma NextMapped(h: seq<bv8> -> seq<bv8>, data: seq<bv8>, index: nat)
    requires 8 * index + 8 <= |data|
    ensures MapBlocks(h, data, index + 1) == MapBlocks(h, data, index) + h(data[8 * index..8 * index + 8])
  {
    assert 8 * (index + 1) - 8 == 8 * index && 8 * (index + 1) == 8 * index + 8;
  }

  method CopyTail(source: array<bv8>, target: array<bv8>, from: nat, length: nat, ghost c: seq<bv8>,
                  ghost data: seq<bv8>, ghost before: seq<bv8>)
    requires from <= length == |data| <= source.Length && length <= target.Length == |before| && |c| == from
    requires target[..] == c + before[from..]
    requires forall i :: from <= i < length ==> source[i] == data[i]
    modifies target
    ensures target[..] == c + data[from..] + before[length..]
  {
    if source != target {
      var i := from;
      while i < length
        invariant from <= i <= length
        invariant target[..] == c + data[from..i] + before[i..]
      {
        ghost var now := target[..];
        target[i] := source[i];
        assert target[..] == now[i := data[i]];
        i := i + 1;
      }
    } else {
      forall i | 0 <= i < target.Length
        ensures target[i] == (c + data[from..] + before[length..])[i]
      {
        assert target[..][i] == (c + before[from..])[i];
      }
    }
  }

  /** The first n entries are mirrored. */
  predicate Mirrors<W(==)>(p: seq<W>, d: seq<W>, n: nat) {
    |p| == |d| && n <= |p| && forall i :: 0 <= i < n ==> d[|p| - 1 - i] == p[i]
  }

  lemma MirrorsAll<W>(p: seq<W>, d: seq<W>)
    requires Mirrors(p, d, |p|)
    ensures d == Reversed(p)
  {
    forall i | 0 <= i < |p|
      ensures d[i] == Reversed(p)[i]
    {
      assert d[|p| - 1 - (|p| - 1 - i)] == p[|p| - 1 - i];
    }
  }

  /** `fill` develops the boxes from one pair to the next. */
  predicate FillsBoxes<W(==)>(ops: Ops<W>, fill: nat -> Schedule<W>, n: nat) {
    fill(n).Valid() && 2 * n + 2 <= 1024 && fill(n + 1) == BoxStep(ops, fill(n), n)
  }

  predicate FillsTable<W(==)>(ops: Ops<W>, fill: nat -> Schedule<W>, n: nat) {
    fill(n).Valid() && 2 * n + 2 <= ROUNDS + 2 && fill(n + 1) == TableStep(ops, fill(n), n)
  }

  lemma TableFilling<W(!new)>(ops: Ops<W>, start: Schedule<W>) returns (fill: nat -> Schedule<W>)
    requires start.Valid()
    ensures fill(0) == start && fill(KEY_PAIRS) == FillP(ops, start, KEY_PAIRS)
    ensures forall n :: 0 <= n < KEY_PAIRS ==> FillsTable(ops, fill, n)
  {
    fill := (n: nat) => if n <= KEY_PAIRS then FillP(ops, start, n) else start;
  }

  lemma BoxFilling<W(!new)>(ops: Ops<W>, start: Schedule<W>) returns (fill: nat -> Schedule<W>)
    requires start.Valid()
    ensures fill(0) == start && fill(BOX_PAIRS) == FillS(ops, start, BOX_PAIRS)
    ensures forall n :: 0 <= n < BOX_PAIRS ==> FillsBoxes(ops, fill, n)
  {
    fill := (n: nat) => if n <= BOX_PAIRS then FillS(ops, start, n) else start;
  }

  /** The next four bytes of the repeated key, as a word. */
  method ReadKey<W>(ops: Ops<W>, key: array<bv8>, length: nat, ghost index: nat, j: nat) returns (data: W)
    requires 0 < length <= key.Length && j == 4 * index
    ensures data == KeyWord(ops, key[..length], index)
  {
    data := ops.fromBytes([key[j % length], key[(j + 1) % length], key[(j + 2) % length], key[(j + 3) % length]]);
  }

  /** The eight bytes at `from` as two words. */
  method ReadPair<W>(ops: Ops<W>, source: array<bv8>, from: nat) returns (x: Pair<W>)
    requires from + 8 <= source.Length
    ensures x == ToPair(ops, source[from..from + 8])
  {
    var left := ops.fromBytes([source[from], source[from + 1], source[from + 2], source[from + 3]]);
    var right := ops.fromBytes([source[from + 4], source[from + 5], source[from + 6], source[from + 7]]);
    x := Pair(left, right);
    ghost var b := source[from..from + 8];
    assert b[..4] == [source[from], source[from + 1], source[from + 2], source[from + 3]];
    assert b[4..] == [source[from + 4], source[from + 5], source[from + 6], source[from + 7]];
  }

  method PutWord(target: array<bv8>, to: nat, a: seq<bv8>)
    requires to + 4 <= target.Length && |a| == 4
    modifies target
    ensures target[..] == old(target[..to]) + a + old(target[to + 4..])
  {
    target[to], target[to + 1], target[to + 2], target[to + 3] := a[0], a[1], a[2], a[3];
    assert target[..to] == old(target[..to]) && target[to + 4..] == old(target[to + 4..]);
    assert target[to..to + 4] == a;
    assert target[..] == target[..to] + target[to..to + 4] + target[to + 4..];
  }

  lemma TwoPuts(before: seq<bv8>, mid: seq<bv8>, after: seq<bv8>, to: nat, a: seq<bv8>, b: seq<bv8>)
    requires to + 8 <= |before| && |a| == 4 && |b| == 4
    requires mid == before[..to] + a + before[to + 4..]
    requires after == mid[..to + 4] + b + mid[to + 8..]
    ensures after == before[..to] + (a + b) + before[to + 8..]
  {
    assert mid[..to + 4] == before[..to] + a && mid[to + 8..] == before[to + 8..];
  }
}
