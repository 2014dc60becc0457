/**
 The two checks of what the client typed: the server transforms the expected answer back
 and compares it with the data, the client's listing transforms the data and compares it
 with the answer. They accept the same inputs.
 */
module SignInValidators {
  import opened SignInCipher
  import opened SignInServer

  /** What a cipher does to blocks of eight bytes, as a function on byte strings. */
  ghost function Encryptor<W(!new)>(alu: Alu<W>, key: seq<bv8>): seq<bv8> -> seq<bv8>
    requires Arithmetic(alu) && |key| == 16
  {
    b => if |b| == 8 then EncryptBlock(alu, key, b) else []
  }

  ghost function Decryptor<W(!new)>(alu: Alu<W>, key: seq<bv8>): seq<bv8> -> seq<bv8>
    requires Arithmetic(alu) && |key| == 16
  {
    b => if |b| == 8 then DecryptBlock(alu, key, b) else []
  }

  /** Four blocks: f on the first two, g on the last two. */
  function OnBlocks(f: seq<bv8> -> seq<bv8>, g: seq<bv8> -> seq<bv8>, d: seq<bv8>): seq<bv8>
    requires |d| == 32
  {
    f(d[..8]) + f(d[8..16]) + g(d[16..24]) + g(d[24..])
  }

  /** The client's transform: two blocks encrypted, two decrypted. */
  ghost function ClientTransform<W(!new)>(alu: Alu<W>, key: seq<bv8>, d: seq<bv8>): seq<bv8>
    requires Arithmetic(alu) && |key| == 16 && |d| == 32
  {
    OnBlocks(Encryptor(alu, key), Decryptor(alu, key), d)
  }

  /** The server's transform of the answer: the other way round. */
  ghost function ServerTransform<W(!new)>(alu: Alu<W>, key: seq<bv8>, a: seq<bv8>): seq<bv8>
    requires Arithmetic(alu) && |key| == 16 && |a| == 32
  {
    OnBlocks(Decryptor(alu, key), Encryptor(alu, key), a)
  }

  predicate Inverts(f: seq<bv8> -> seq<bv8>, g: seq<bv8> -> seq<bv8>, b: seq<bv8>) {
    |b| == 8 ==> |f(b)| == 8 && g(f(b)) == b
  }

  ghost predicate Inverse(f: seq<bv8> -> seq<bv8>, g: seq<bv8> -> seq<bv8>) {
    forall b :: Inverts(f, g, b) && Inverts(g, f, b)
  }

  lemma CipherInverse<W(!new)>(alu: Alu<W>, key: seq<bv8>)
    requires Arithmetic(alu) && Bytes(alu) && |key| == 16
    ensures Inverse(Encryptor(alu, key), Decryptor(alu, key))
  {
    var f, g := Encryptor(alu, key), Decryptor(alu, key);
    forall b
      ensures Inverts(f, g, b) && Inverts(g, f, b)
    {
      if |b| == 8 {
        BlocksUndo(alu, key, b);
      }
    }
  }

  lemma FourPieces(a0: seq<bv8>, a1: seq<bv8>, a2: seq<bv8>, a3: seq<bv8>, b: seq<bv8>)
    requires |a0| == |a1| == |a2| == |a3| == 8 && |b| == 32
    ensures a0 + a1 + a2 + a3 == b <==> a0 == b[..8] && a1 == b[8..16] && a2 == b[16..24] && a3 == b[24..]
  {
    var a := a0 + a1 + a2 + a3;
    assert a[..8] == a0 && a[8..16] == a1 && a[16..24] == a2 && a[24..] == a3;
    assert b == b[..8] + b[8..16] + b[16..24] + b[24..];
  }

  lemma PiecesAgree(f: seq<bv8> -> seq<bv8>, g: seq<bv8> -> seq<bv8>, d: seq<bv8>, a: seq<bv8>)
    requires Inverse(f, g) && |d| == 32 && |a| == 32
    ensures OnBlocks(g, f, a) == d <==> OnBlocks(f, g, d) == a
  {
    var d0, d1, d2, d3 := d[..8], d[8..16], d[16..24], d[24..];
    var a0, a1, a2, a3 := a[..8], a[8..16], a[16..24], a[24..];
    assert Inverts(f, g, d0) && Inverts(f, g, d1) && Inverts(g, f, d2) && Inverts(g, f, d3);
    assert Inverts(g, f, a0) && Inverts(g, f, a1) && Inverts(f, g, a2) && Inverts(f, g, a3);
    FourPieces(g(a0), g(a1), f(a2), f(a3), d);
    FourPieces(f(d0), f(d1), g(d2), g(d3), a);
  }

  /** The server accepts exactly what the client's listing accepts. */
  lemma ValidatorsAgree<W(!new)>(alu: Alu<W>, key: seq<bv8>, data: seq<bv8>, answer: seq<bv8>)
    requires Arithmetic(alu) && Bytes(alu) && |key| == 16 && |data| == 32 && |answer| == 32
    ensures ServerTransform(alu, key, answer) == data <==> ClientTransform(alu, key, data) == answer
  {
    CipherInverse(alu, key);
    PiecesAgree(Encryptor(alu, key), Decryptor(alu, key), data, answer);
  }

  /** `memcmp` of 32 bytes. */
  method Same(a: array<bv8>, b: seq<bv8>, n: nat) returns (same: bool)
    requires n <= a.Length && n <= |b|
    ensures same <==> a[..n] == b[..n]
  {
    var i := 0;
    while i < n
      invariant 0 <= i <= n && a[..i] == b[..i]
    {
      if a[i] != b[i] {
        assert a[..n][i] != b[..n][i];
        return false;
      }
      assert a[..i + 1] == a[..i] + [a[i]] && b[..i + 1] == b[..i] + [b[i]];
      i := i + 1;
    }
    same := true;
  }

  ghost predicate Encrypts<W(!new)>(alu: Alu<W>, key: seq<bv8>, f: seq<bv8> -> seq<bv8>)
    requires Arithmetic(alu) && |key| == 16
  {
    forall b {:trigger EncryptBlock(alu, key, b)} :: |b| == 8 ==> f(b) == EncryptBlock(alu, key, b)
  }

  ghost predicate Decrypts<W(!new)>(alu: Alu<W>, key: seq<bv8>, g: seq<bv8> -> seq<bv8>)
    requires Arithmetic(alu) && |key| == 16
  {
    forall b {:trigger DecryptBlock(alu, key, b)} :: |b| == 8 ==> g(b) == DecryptBlock(alu, key, b)
  }

  /** The two transforms of blocks, known by what they compute and that they undo each other. */
  lemma CipherFunctions<W(!new)>(alu: Alu<W>, key: seq<bv8>, a: seq<bv8>)
    returns (f: seq<bv8> -> seq<bv8>, g: seq<bv8> -> seq<bv8>)
    requires Arithmetic(alu) && Bytes(alu) && |key| == 16 && |a| == 32
    ensures Encrypts(alu, key, f) && Decrypts(alu, key, g) && Inverse(f, g)
    ensures ServerTransform(alu, key, a) == OnBlocks(g, f, a) && ClientTransform(alu, key, a) == OnBlocks(f, g, a)
  {
    f, g := Encryptor(alu, key), Decryptor(alu, key);
    CipherInverse(alu, key);
  }

  /** The next block is decrypted in place. */
  method DecryptNext<W(!new)>(alu: Alu<W>, v: array<bv8>, at: nat, key: array<bv8>, ghost g: seq<bv8> -> seq<bv8>,
                              ghost done: seq<bv8>, ghost block: seq<bv8>, ghost rest: seq<bv8>)
    requires Arithmetic(alu) && Bytes(alu) && Sentinels(alu) && key.Length >= 16 && v != key
    requires Decrypts(alu, key[..16], g) && v[..] == done + block + rest && |done| == at && |block| == 8
    modifies v
    ensures v[..] == done + g(block) + rest
  {
    assert v[at..at + 8] == block && v[..at] == done && v[at + 8..] == rest;
    MyDecrypt(alu, v, at, key);
  }

  method EncryptNext<W(!new)>(alu: Alu<W>, v: array<bv8>, at: nat, key: array<bv8>, ghost f: seq<bv8> -> seq<bv8>,
                              ghost done: seq<bv8>, ghost block: seq<bv8>, ghost rest: seq<bv8>)
    requires Arithmetic(alu) && Bytes(alu) && key.Length >= 16 && v != key
    requires Encrypts(alu, key[..16], f) && v[..] == done + block + rest && |done| == at && |block| == 8
    modifies v
    ensures v[..] == done + f(block) + rest
  {
    assert v[at..at + 8] == block && v[..at] == done && v[at + 8..] == rest;
    MyEncrypt(alu, v, at, key);
  }

  /** The server's check; `answer` is its own copy and is transformed in place. */
  method RunValidation<W(!new)>(alu: Alu<W>, answer: array<bv8>, key: array<bv8>, data: seq<bv8>)
    returns (correct: bool)
    requires Arithmetic(alu) && Bytes(alu) && Sentinels(alu)
    requires answer.Length == 32 && key.Length >= 16 && answer != key && |data| >= 32
    modifies answer
    ensures correct <==> ServerTransform(alu, key[..16], old(answer[..])) == data[..32]
  {
    TransformAnswer(alu, answer, key);
    correct := Same(answer, data, 32);
    assert answer[..32] == answer[..];
  }

  /** The four blocks of an answer, and what becomes of them. */
  lemma TransformPieces<W(!new)>(alu: Alu<W>, key: seq<bv8>, a: seq<bv8>)
    returns (f: seq<bv8> -> seq<bv8>, g: seq<bv8> -> seq<bv8>, a0: seq<bv8>, a1: seq<bv8>, a2: seq<bv8>, a3: seq<bv8>)
    requires Arithmetic(alu) && Bytes(alu) && |key| == 16 && |a| == 32
    ensures Encrypts(alu, key, f) && Decrypts(alu, key, g)
    ensures |a0| == |a1| == |a2| == |a3| == 8 && a == a0 + a1 + (a2 + a3)
    ensures |g(a0)| == |g(a1)| == |f(a2)| == 8
    ensures ServerTransform(alu, key, a) == (g(a0) + g(a1)) + f(a2) + f(a3)
  {
    f, g := CipherFunctions(alu, key, a);
    a0, a1, a2, a3 := Quarters(g, f, a);
    assert Inverts(g, f, a0) && Inverts(g, f, a1) && Inverts(f, g, a2);
  }

  method TransformAnswer<W(!new)>(alu: Alu<W>, answer: array<bv8>, key: array<bv8>)
    requires Arithmetic(alu) && Bytes(alu) && Sentinels(alu)
    requires answer.Length == 32 && key.Length >= 16 && answer != key
    modifies answer
    ensures answer[..] == ServerTransform(alu, key[..16], old(answer[..]))
  {
    ghost var f, g, a0, a1, a2, a3 := TransformPieces(alu, key[..16], answer[..]);
    DecryptTwo(alu, answer, key, g, a0, a1, a2 + a3);
    EncryptTwo(alu, answer, key, f, g(a0) + g(a1), a2, a3);
  }

  lemma Quarters(f: seq<bv8> -> seq<bv8>, g: seq<bv8> -> seq<bv8>, a: seq<bv8>)
    returns (a0: seq<bv8>, a1: seq<bv8>, a2: seq<bv8>, a3: seq<bv8>)
    requires |a| == 32
    ensures |a0| == |a1| == |a2| == |a3| == 8 && a == a0 + a1 + (a2 + a3)
    ensures OnBlocks(f, g, a) == (f(a0) + f(a1)) + g(a2) + g(a3)
  {
    a0, a1, a2, a3 := a[..8], a[8..16], a[16..24], a[24..];
  }

  method DecryptTwo<W(!new)>(alu: Alu<W>, v: array<bv8>, key: array<bv8>, ghost g: seq<bv8> -> seq<bv8>,
                             ghost a: seq<bv8>, ghost b: seq<bv8>, ghost rest: seq<bv8>)
    requires Arithmetic(alu) && Bytes(alu) && Sentinels(alu) && key.Length >= 16 && v != key
    requires Decrypts(alu, key[..16], g) && v[..] == a + b + rest && |a| == |b| == |g(a)| == 8
    modifies v
    ensures v[..] == g(a) + g(b) + rest
  {
    assert v[..] == [] + a + (b + rest);
    DecryptNext(alu, v, 0, key, g, [], a, b + rest);
    assert v[..] == g(a) + b + rest;
    DecryptNext(alu, v, 8, key, g, g(a), b, rest);
  }

  method EncryptTwo<W(!new)>(alu: Alu<W>, v: array<bv8>, key: array<bv8>, ghost f: seq<bv8> -> seq<bv8>,
                             ghost done: seq<bv8>, ghost a: seq<bv8>, ghost b: seq<bv8>)
    requires Arithmetic(alu) && Bytes(alu) && key.Length >= 16 && v != key
    requires Encrypts(alu, key[..16], f) && v[..] == done + (a + b) && |done| == 16 && |a| == |b| == |f(a)| == 8
    modifies v
    ensures v[..] == done + f(a) + f(b)
  {
    assert v[..] == done + a + b;
    EncryptNext(alu, v, 16, key, f, done, a, b);
    assert v[..] == (done + f(a)) + b + [];
    EncryptNext(alu, v, 24, key, f, done + f(a), b, []);
    assert done + f(a) + f(b) + [] == done + f(a) + f(b);
  }
}
