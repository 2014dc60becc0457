/**
 The server's side: the two cipher functions on words in a byte buffer, and the check of
 what the client typed.
 */
module SignInServer {
  import opened SignInCipher

  method LoadWord<W>(alu: Alu<W>, b: array<bv8>, at: nat) returns (w: W)
    requires at + 4 <= b.Length
    ensures w == alu.load(b[at..at + 4])
  {
    w := alu.load([b[at], b[at + 1], b[at + 2], b[at + 3]]);
    assert b[at..at + 4] == [b[at], b[at + 1], b[at + 2], b[at + 3]];
  }

  method LoadKey<W>(alu: Alu<W>, key: array<bv8>, ghost bytes: seq<bv8>, i: nat) returns (w: W)
    requires i < 4 && key.Length >= 16 && bytes == key[..16]
    ensures w == KeyWords(alu, bytes)[i]
  {
    w := LoadWord(alu, key, 4 * i);
    assert key[4 * i..4 * i + 4] == bytes[4 * i..4 * i + 4];
  }

  method StoreWord<W(!new)>(alu: Alu<W>, b: array<bv8>, at: nat, w: W)
    requires at + 4 <= b.Length && |alu.store(w)| == 4
    modifies b
    ensures b[..] == old(b[..at]) + alu.store(w) + old(b[at + 4..])
  {
    var bytes := alu.store(w);
    b[at], b[at + 1], b[at + 2], b[at + 3] := bytes[0], bytes[1], bytes[2], bytes[3];
    assert b[..at] == old(b[..at]) && b[at + 4..] == old(b[at + 4..]);
    assert b[at..at + 4] == bytes;
    assert b[..] == b[..at] + b[at..at + 4] + b[at + 4..];
  }

  method StorePair<W(!new)>(alu: Alu<W>, b: array<bv8>, at: nat, p: Pair<W>)
    requires Bytes(alu) && at + 8 <= b.Length
    modifies b
    ensures |FromPair(alu, p)| == 8
    ensures b[..] == old(b[..at]) + FromPair(alu, p) + old(b[at + 8..])
  {
    StoreWord(alu, b, at, p.v0);
    ghost var mid := b[..];
    StoreWord(alu, b, at + 4, p.v1);
    assert mid[..at + 4] == old(b[..at]) + alu.store(p.v0);
    assert mid[at + 8..] == old(b[at + 8..]);
    assert b[..] == (old(b[..at]) + alu.store(p.v0)) + alu.store(p.v1) + old(b[at + 8..]);
  }

  method LoadPair<W(!new)>(alu: Alu<W>, b: array<bv8>, at: nat) returns (p: Pair<W>)
    requires at + 8 <= b.Length
    ensures p == ToPair(alu, b[at..at + 8])
  {
    var v0 := LoadWord(alu, b, at);
    var v1 := LoadWord(alu, b, at + 4);
    assert b[at..at + 8][..4] == b[at..at + 4] && b[at..at + 8][4..] == b[at + 4..at + 8];
    p := Pair(v0, v1);
  }

  /** The loop of encryption. */
  method EncryptLoop<W(!new)>(alu: Alu<W>, key: array<bv8>, p: Pair<W>) returns (r: Pair<W>)
    requires Arithmetic(alu) && key.Length >= 16
    ensures r == Encrypted(alu, KeyWords(alu, key[..16]), ROUNDS, p)
  {
    ghost var bytes := key[..16];
    ghost var k := KeyWords(alu, bytes);
    var v0, v1, sum := p.v0, p.v1, alu.zero;
    var i: nat := 0;
    while i < 32
      invariant 0 <= i <= 32
      invariant sum == SumAfter(alu, i)
      invariant Pair(v0, v1) == Encrypted(alu, k, i, p)
    {
      ghost var before, start := Pair(v0, v1), sum;
      var low := LoadKey(alu, key, bytes, alu.quarter(alu.and3(sum)));
      v0 := alu.add(v0, alu.xor(alu.add(alu.xor(alu.shl4(v1), alu.shr5(v1)), v1), alu.add(sum, low)));
      sum := alu.add(sum, alu.delta);
      var high := LoadKey(alu, key, bytes, alu.quarter(alu.and3(alu.shr11(sum))));
      v1 := alu.add(v1, alu.xor(alu.add(alu.xor(alu.shl4(v0), alu.shr5(v0)), v0), alu.add(sum, high)));
      assert Pair(v0, v1) == EncryptRound(alu, k, start, before);
      i := i + 1;
    }
    r := Pair(v0, v1);
  }

  /** The loop of decryption; the sum starts at 32 times delta. */
  method DecryptLoop<W(!new)>(alu: Alu<W>, key: array<bv8>, p: Pair<W>) returns (r: Pair<W>)
    requires Arithmetic(alu) && Sentinels(alu) && key.Length >= 16
    ensures r == Decrypted(alu, KeyWords(alu, key[..16]), ROUNDS, ROUNDS, p)
  {
    ghost var bytes := key[..16];
    ghost var k := KeyWords(alu, bytes);
    var v0, v1, sum := p.v0, p.v1, alu.final;
    var i: nat := 0;
    while i < 32
      invariant 0 <= i <= 32
      invariant sum == SumAfter(alu, 32 - i)
      invariant Pair(v0, v1) == Decrypted(alu, k, 32, i, p)
    {
      ghost var before, start := Pair(v0, v1), sum;
      var high := LoadKey(alu, key, bytes, alu.quarter(alu.and3(alu.shr11(sum))));
      v1 := alu.sub(v1, alu.xor(alu.add(alu.xor(alu.shl4(v0), alu.shr5(v0)), v0), alu.add(sum, high)));
      sum := alu.sub(sum, alu.delta);
      var low := LoadKey(alu, key, bytes, alu.quarter(alu.and3(sum)));
      v0 := alu.sub(v0, alu.xor(alu.add(alu.xor(alu.shl4(v1), alu.shr5(v1)), v1), alu.add(sum, low)));
      assert Pair(v0, v1) == DecryptRound(alu, k, start, before);
      i := i + 1;
    }
    r := Pair(v0, v1);
  }

  /** Encrypts the eight bytes at `at` in place. */
  method MyEncrypt<W(!new)>(alu: Alu<W>, v: array<bv8>, at: nat, key: array<bv8>)
    requires Arithmetic(alu) && Bytes(alu) && at + 8 <= v.Length && key.Length >= 16 && v != key
    modifies v
    ensures |EncryptBlock(alu, key[..16], old(v[at..at + 8]))| == 8
    ensures v[..] == old(v[..at]) + EncryptBlock(alu, key[..16], old(v[at..at + 8])) + old(v[at + 8..])
  {
    var p := LoadPair(alu, v, at);
    p := EncryptLoop(alu, key, p);
    StorePair(alu, v, at, p);
  }

  /** Decrypts the eight bytes at `at` in place. */
  method MyDecrypt<W(!new)>(alu: Alu<W>, v: array<bv8>, at: nat, key: array<bv8>)
    requires Arithmetic(alu) && Bytes(alu) && Sentinels(alu) && at + 8 <= v.Length && key.Length >= 16 && v != key
    modifies v
    ensures |DecryptBlock(alu, key[..16], old(v[at..at + 8]))| == 8
    ensures v[..] == old(v[..at]) + DecryptBlock(alu, key[..16], old(v[at..at + 8])) + old(v[at + 8..])
  {
    var p := LoadPair(alu, v, at);
    p := DecryptLoop(alu, key, p);
    StorePair(alu, v, at, p);
  }
}
