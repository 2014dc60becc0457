/**
 The block cipher of the sign-in pair, over any arithmetic of machine words: 32 rounds on
 two words with a running sum, and the rounds that take them back.
 */
module SignInCipher {

  /** The operations on 32-bit words that the cipher and the listings use. */
  datatype Alu<!W(==)> = Alu(
    add: (W, W) -> W,
    sub: (W, W) -> W,
    xor: (W, W) -> W,
    shl4: W -> W,
    shr5: W -> W,
    shr11: W -> W,
    and3: W -> W,
    quarter: W -> nat,
    load: seq<bv8> -> W,
    store: W -> seq<bv8>,
    zero: W,
    delta: W,
    negDelta: W,
    final: W)

  /** Addition and subtraction undo each other, and the low two bits pick one of four words. */
  ghost predicate Arithmetic<W(!new)>(alu: Alu<W>) {
    && (forall x, y {:trigger alu.sub(alu.add(x, y), y)} :: alu.sub(alu.add(x, y), y) == x)
    && (forall x, y {:trigger alu.add(alu.sub(x, y), y)} :: alu.add(alu.sub(x, y), y) == x)
    && (forall x, y :: alu.add(x, y) == alu.add(y, x))
    && (forall x {:trigger alu.sub(x, alu.negDelta)} :: alu.sub(x, alu.negDelta) == alu.add(x, alu.delta))
    && (forall x {:trigger alu.add(x, alu.negDelta)} :: alu.add(x, alu.negDelta) == alu.sub(x, alu.delta))
    && (forall x :: alu.quarter(alu.and3(x)) < 4)
  }

  /** Words and their four bytes. */
  ghost predicate Bytes<W(!new)>(alu: Alu<W>) {
    && (forall x :: |alu.store(x)| == 4 && alu.load(alu.store(x)) == x)
    && (forall b: seq<bv8> :: |b| == 4 ==> alu.store(alu.load(b)) == b)
  }

  datatype Pair<W> = Pair(v0: W, v1: W)

  function Mix<W>(alu: Alu<W>, v: W): W {
    alu.add(alu.xor(alu.shl4(v), alu.shr5(v)), v)
  }

  /** The part of a half round that depends on the key. */
  function Low<W>(alu: Alu<W>, key: seq<W>, sum: W): W
    requires |key| == 4 && alu.quarter(alu.and3(sum)) < 4
  {
    alu.add(sum, key[alu.quarter(alu.and3(sum))])
  }

  function High<W>(alu: Alu<W>, key: seq<W>, sum: W): W
    requires |key| == 4 && alu.quarter(alu.and3(alu.shr11(sum))) < 4
  {
    alu.add(sum, key[alu.quarter(alu.and3(alu.shr11(sum)))])
  }

  /** One round of encryption that starts with the running sum at `sum`. */
  ghost function EncryptRound<W(!new)>(alu: Alu<W>, key: seq<W>, sum: W, p: Pair<W>): Pair<W>
    requires Arithmetic(alu) && |key| == 4
  {
    var v0 := alu.add(p.v0, alu.xor(Mix(alu, p.v1), Low(alu, key, sum)));
    Pair(v0, alu.add(p.v1, alu.xor(Mix(alu, v0), High(alu, key, alu.add(sum, alu.delta)))))
  }

  /** One round of decryption that starts with the running sum at `sum`. */
  ghost function DecryptRound<W(!new)>(alu: Alu<W>, key: seq<W>, sum: W, p: Pair<W>): Pair<W>
    requires Arithmetic(alu) && |key| == 4
  {
    var v1 := alu.sub(p.v1, alu.xor(Mix(alu, p.v0), High(alu, key, sum)));
    Pair(alu.sub(p.v0, alu.xor(Mix(alu, v1), Low(alu, key, alu.sub(sum, alu.delta)))), v1)
  }

  /** The running sum after n rounds. */
  function SumAfter<W>(alu: Alu<W>, n: nat): W {
    if n == 0 then alu.zero else alu.add(SumAfter(alu, n - 1), alu.delta)
  }

  /** The sum first gets to its final value after 32 rounds, and is not zero on the way. */
  ghost predicate Sentinels<W>(alu: Alu<W>) {
    && SumAfter(alu, ROUNDS) == alu.final
    && forall n :: 1 <= n < ROUNDS ==> SumAfter(alu, n) != alu.zero && SumAfter(alu, n) != alu.final
  }

  /** n rounds of encryption. */
  ghost function Encrypted<W(!new)>(alu: Alu<W>, key: seq<W>, n: nat, p: Pair<W>): Pair<W>
    requires Arithmetic(alu) && |key| == 4
  {
    if n == 0 then p else EncryptRound(alu, key, SumAfter(alu, n - 1), Encrypted(alu, key, n - 1, p))
  }

  /** n rounds of decryption from the sum after `from` rounds down. */
  ghost function Decrypted<W(!new)>(alu: Alu<W>, key: seq<W>, from: nat, n: nat, p: Pair<W>): Pair<W>
    requires Arithmetic(alu) && |key| == 4 && n <= from
    decreases n
  {
    if n == 0 then p
    else DecryptRound(alu, key, SumAfter(alu, from - (n - 1)), Decrypted(alu, key, from, n - 1, p))
  }

  lemma RoundsUndo<W(!new)>(alu: Alu<W>, key: seq<W>, sum: W, p: Pair<W>)
    requires Arithmetic(alu) && |key| == 4
    ensures DecryptRound(alu, key, alu.add(sum, alu.delta), EncryptRound(alu, key, sum, p)) == p
    ensures EncryptRound(alu, key, sum, DecryptRound(alu, key, alu.add(sum, alu.delta), p)) == p
  {
  }

  /** Decrypting starts with the round that encrypting did last. */
  lemma {:induction false} DecryptedFirst<W(!new)>(alu: Alu<W>, key: seq<W>, from: nat, n: nat, p: Pair<W>)
    requires Arithmetic(alu) && |key| == 4 && 1 <= n <= from
    ensures Decrypted(alu, key, from, n, p)
         == Decrypted(alu, key, from - 1, n - 1, DecryptRound(alu, key, SumAfter(alu, from), p))
    decreases n
  {
    if n > 1 {
      DecryptedFirst(alu, key, from, n - 1, p);
    }
  }

  lemma DecryptStep<W(!new)>(alu: Alu<W>, key: seq<W>, n: nat, before: Pair<W>, after: Pair<W>)
    requires Arithmetic(alu) && |key| == 4 && n >= 1
    requires after == EncryptRound(alu, key, SumAfter(alu, n - 1), before)
    ensures Decrypted(alu, key, n, n, after) == Decrypted(alu, key, n - 1, n - 1, before)
  {
    RoundsUndo(alu, key, SumAfter(alu, n - 1), before);
    assert DecryptRound(alu, key, SumAfter(alu, n), after) == before;
    DecryptedFirst(alu, key, n, n, after);
  }

  lemma DecryptLast<W(!new)>(alu: Alu<W>, key: seq<W>, n: nat, before: Pair<W>, after: Pair<W>, p: Pair<W>)
    requires Arithmetic(alu) && |key| == 4 && n >= 1
    requires after == EncryptRound(alu, key, SumAfter(alu, n - 1), before)
    requires Decrypted(alu, key, n - 1, n - 1, before) == p
    ensures Decrypted(alu, key, n, n, after) == p
  {
    DecryptStep(alu, key, n, before, after);
  }

  lemma {:induction false} DecryptUndoesEncrypt<W(!new)>(alu: Alu<W>, key: seq<W>, n: nat, p: Pair<W>)
    requires Arithmetic(alu) && |key| == 4
    ensures Decrypted(alu, key, n, n, Encrypted(alu, key, n, p)) == p
  {
    if n > 0 {
      DecryptUndoesEncrypt(alu, key, n - 1, p);
      DecryptLast(alu, key, n, Encrypted(alu, key, n - 1, p), Encrypted(alu, key, n, p), p);
    }
  }

  lemma {:induction false} EncryptUndoesDecrypt<W(!new)>(alu: Alu<W>, key: seq<W>, n: nat, p: Pair<W>)
    requires Arithmetic(alu) && |key| == 4
    ensures Encrypted(alu, key, n, Decrypted(alu, key, n, n, p)) == p
  {
    if n > 0 {
      var first := DecryptRound(alu, key, SumAfter(alu, n), p);
      DecryptedFirst(alu, key, n, n, p);
      EncryptUndoesDecrypt(alu, key, n - 1, first);
      RoundsUndo(alu, key, SumAfter(alu, n - 1), p);
    }
  }

  // Eight bytes as two words.

  ghost function ToPair<W(!new)>(alu: Alu<W>, block: seq<bv8>): Pair<W>
    requires |block| == 8
  {
    Pair(alu.load(block[..4]), alu.load(block[4..]))
  }

  ghost function FromPair<W(!new)>(alu: Alu<W>, p: Pair<W>): seq<bv8> {
    alu.store(p.v0) + alu.store(p.v1)
  }

  function KeyWords<W>(alu: Alu<W>, key: seq<bv8>): (words: seq<W>)
    requires |key| == 16
    ensures |words| == 4
  {
    [alu.load(key[0..4]), alu.load(key[4..8]), alu.load(key[8..12]), alu.load(key[12..16])]
  }

  const ROUNDS: nat := 32

  ghost function EncryptBlock<W(!new)>(alu: Alu<W>, key: seq<bv8>, block: seq<bv8>): seq<bv8>
    requires Arithmetic(alu) && |key| == 16 && |block| == 8
  {
    FromPair(alu, Encrypted(alu, KeyWords(alu, key), ROUNDS, ToPair(alu, block)))
  }

  ghost function DecryptBlock<W(!new)>(alu: Alu<W>, key: seq<bv8>, block: seq<bv8>): seq<bv8>
    requires Arithmetic(alu) && |key| == 16 && |block| == 8
  {
    FromPair(alu, Decrypted(alu, KeyWords(alu, key), ROUNDS, ROUNDS, ToPair(alu, block)))
  }

  lemma PairBytes<W(!new)>(alu: Alu<W>, p: Pair<W>, block: seq<bv8>)
    requires Bytes(alu) && |block| == 8
    ensures |FromPair(alu, p)| == 8 && ToPair(alu, FromPair(alu, p)) == p
    ensures FromPair(alu, ToPair(alu, block)) == block
  {
    var b := FromPair(alu, p);
    assert b[..4] == alu.store(p.v0) && b[4..] == alu.store(p.v1);
    assert block == block[..4] + block[4..];
  }

  /** Encryption and decryption undo each other on every block, under every key. */
  lemma BlocksUndo<W(!new)>(alu: Alu<W>, key: seq<bv8>, block: seq<bv8>)
    requires Arithmetic(alu) && Bytes(alu) && |key| == 16 && |block| == 8
    ensures |EncryptBlock(alu, key, block)| == 8 && DecryptBlock(alu, key, EncryptBlock(alu, key, block)) == block
    ensures |DecryptBlock(alu, key, block)| == 8 && EncryptBlock(alu, key, DecryptBlock(alu, key, block)) == block
  {
    var k, p := KeyWords(alu, key), ToPair(alu, block);
    PairBytes(alu, Encrypted(alu, k, ROUNDS, p), block);
    PairBytes(alu, Decrypted(alu, k, ROUNDS, ROUNDS, p), block);
    DecryptUndoesEncrypt(alu, k, ROUNDS, p);
    EncryptUndoesDecrypt(alu, k, ROUNDS, p);
  }
}
