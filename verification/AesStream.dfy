/**
 The stream mode around the block cipher: the stream blocks are the repeated encryptions of
 the iv (output feedback, section 6.4 of NIST SP 800-38A), and the plaintext is padded with
 zeros and a last byte that holds the length of the padding.
 */
module AesStream {
  import opened AesCipher
  import opened AesBytes
  import AesMethods

  type Bytes = seq<bv8>

  datatype Unpadded = IndexError | Bytes(value: seq<bv8>)

  /** The library's exclusive or: as long as the longer operand, the shorter one repeated. */
  function XorCycled(a: Bytes, b: Bytes): (r: Bytes)
    requires |a| > 0 && |b| > 0
    ensures |r| == if |a| < |b| then |b| else |a|
  {
    seq(if |a| < |b| then |b| else |a|, j requires 0 <= j => Xor(a[j % |a|], b[j % |b|]))
  }

  ghost predicate BlockFunction(e: Bytes -> Bytes) {
    forall s: Bytes :: |s| == SIZE ==> |e(s)| == SIZE
  }

  /** The k-th block of the stream; the iv is block 0. */
  function Feedback(e: Bytes -> Bytes, iv: Bytes, k: nat): Bytes {
    if k == 0 then iv else e(Feedback(e, iv, k - 1))
  }

  /** The text block by block under the stream that follows s. */
  function Streamed(e: Bytes -> Bytes, s: Bytes, text: Bytes): Bytes
    decreases |text|
  {
    var t := e(s);
    if |text| == 0 || |t| == 0 then []
    else if |text| <= SIZE then XorCycled(text, t)
    else XorCycled(text[..SIZE], t) + Streamed(e, t, text[SIZE..])
  }

  lemma {:induction false} FeedbackShift(e: Bytes -> Bytes, s: Bytes, k: nat)
    ensures Feedback(e, e(s), k) == Feedback(e, s, k + 1)
  {
    if k > 0 {
      FeedbackShift(e, s, k - 1);
    }
  }

  lemma {:induction false} FeedbackSize(e: Bytes -> Bytes, iv: Bytes, k: nat)
    requires BlockFunction(e) && |iv| == SIZE
    ensures |Feedback(e, iv, k)| == SIZE
  {
    if k > 0 {
      FeedbackSize(e, iv, k - 1);
    }
  }

  /** A ragged text comes out rounded up to whole blocks, its last block filled by repetition. */
  lemma {:induction false} RaggedText(e: Bytes -> Bytes, iv: Bytes, text: Bytes)
    requires BlockFunction(e) && |iv| == SIZE
    ensures |Streamed(e, iv, text)| % SIZE == 0
    ensures |text| <= |Streamed(e, iv, text)| < |text| + SIZE
    decreases |text|
  {
    if |text| > SIZE {
      RaggedText(e, e(iv), text[SIZE..]);
    }
  }

  /** A ciphertext of one byte comes out as sixteen. */
  lemma OneByteComesOutAsSixteen(e: Bytes -> Bytes, iv: Bytes)
    requires BlockFunction(e) && |iv| == SIZE
    ensures |Streamed(e, iv, [0x41])| == 16
  {
    RaggedText(e, iv, [0x41]);
  }

  lemma XorCycledAt(a: Bytes, t: Bytes, i: nat)
    requires 0 < |a| <= |t| == SIZE && i < SIZE
    ensures |XorCycled(a, t)| == SIZE && XorCycled(a, t)[i] == Xor(a[i % |a|], t[i])
  {
  }

  lemma FirstBlockAt(e: Bytes -> Bytes, iv: Bytes, text: Bytes, n: nat, i: nat, r: nat)
    requires BlockFunction(e) && |iv| == SIZE && BlockOfText(text, 0, n) && i < SIZE && r == i % n
    ensures |Streamed(e, iv, text)| >= SIZE && |Feedback(e, iv, 1)| == SIZE && r < n
    ensures Streamed(e, iv, text)[i] == Xor(text[r], Feedback(e, iv, 1)[i])
  {
    assert Feedback(e, iv, 1) == e(Feedback(e, iv, 0));
    XorCycledAt(text[..n], e(iv), i);
    if |text| <= SIZE {
      assert text[..n] == text;
    }
  }

  /** Past the first block the mode goes on with the next stream block. */
  lemma PastFirst(e: Bytes -> Bytes, iv: Bytes, text: Bytes, j: nat)
    requires BlockFunction(e) && |iv| == SIZE && SIZE < |text|
    requires j < |Streamed(e, e(iv), text[SIZE..])|
    ensures SIZE + j < |Streamed(e, iv, text)|
    ensures Streamed(e, iv, text)[SIZE + j] == Streamed(e, e(iv), text[SIZE..])[j]
  {
    var first, rest := XorCycled(text[..SIZE], e(iv)), Streamed(e, e(iv), text[SIZE..]);
    assert Streamed(e, iv, text) == first + rest;
    Behind(first, rest, SIZE + j);
  }

  lemma Behind<T>(a: seq<T>, b: seq<T>, j: nat)
    requires |a| <= j < |a| + |b|
    ensures (a + b)[j] == b[j - |a|]
  {
  }

  /** A block of n bytes behind q whole ones; one that is not whole is the last, and is repeated to fill 16 bytes. */
  predicate BlockOfText(text: Bytes, q: nat, n: nat) {
    0 < n <= SIZE && SIZE * q + n <= |text| && (n == SIZE || SIZE * q + n == |text|)
  }

  lemma SmallRest(i: nat, n: nat)
    requires n > 0
    ensures i % n < n && (i < n ==> i % n == i)
  {
  }

  /** Byte i of block q comes from byte r = i mod n of the block, and meets byte i of stream block q + 1. */
  lemma {:induction false} BlockAt(e: Bytes -> Bytes, iv: Bytes, text: Bytes, q: nat, n: nat, i: nat, r: nat)
    requires BlockFunction(e) && |iv| == SIZE && BlockOfText(text, q, n) && i < SIZE && r == i % n
    ensures |Streamed(e, iv, text)| >= SIZE * q + SIZE && |Feedback(e, iv, q + 1)| == SIZE && r < n
    ensures Streamed(e, iv, text)[SIZE * q + i] == Xor(text[SIZE * q + r], Feedback(e, iv, q + 1)[i])
    decreases q
  {
    SmallRest(i, n);
    if q == 0 {
      FirstBlockAt(e, iv, text, n, i, r);
    } else {
      BlockAt(e, e(iv), text[SIZE..], q - 1, n, i, r);
      NextBlockAt(e, iv, text, q, i, r);
    }
  }

  lemma NextBlockAt(e: Bytes -> Bytes, iv: Bytes, text: Bytes, q: nat, i: nat, r: nat)
    requires BlockFunction(e) && |iv| == SIZE && q > 0 && SIZE * q + r < |text| && i < SIZE
    requires |Streamed(e, e(iv), text[SIZE..])| >= SIZE * q && |Feedback(e, e(iv), q)| == SIZE
    requires Streamed(e, e(iv), text[SIZE..])[SIZE * (q - 1) + i]
          == Xor(text[SIZE..][SIZE * (q - 1) + r], Feedback(e, e(iv), q)[i])
    ensures |Streamed(e, iv, text)| >= SIZE * q + SIZE && |Feedback(e, iv, q + 1)| == SIZE
    ensures Streamed(e, iv, text)[SIZE * q + i] == Xor(text[SIZE * q + r], Feedback(e, iv, q + 1)[i])
  {
    var rest := Streamed(e, e(iv), text[SIZE..]);
    FeedbackShift(e, iv, q);
    PastFirst(e, iv, text, SIZE * (q - 1) + i);
    PastFirst(e, iv, text, |rest| - 1);
  }

  lemma BlockOf(j: nat, size: nat)
    requires size % SIZE == 0 && j < size
    ensures SIZE * (j / SIZE) + j % SIZE == j && SIZE * (j / SIZE) + SIZE <= size
  {
  }

  /** A text of whole blocks keeps its length, and byte j meets byte j mod 16 of stream block j / 16 + 1. */
  lemma StreamedAt(e: Bytes -> Bytes, iv: Bytes, text: Bytes, j: nat)
    requires BlockFunction(e) && |iv| == SIZE && |text| % SIZE == 0 && j < |text|
    ensures |Streamed(e, iv, text)| == |text|
    ensures |Feedback(e, iv, j / SIZE + 1)| == SIZE
    ensures Streamed(e, iv, text)[j] == Xor(text[j], Feedback(e, iv, j / SIZE + 1)[j % SIZE])
  {
    BlockOf(j, |text|);
    RaggedText(e, iv, text);
    SmallRest(j % SIZE, SIZE);
    BlockAt(e, iv, text, j / SIZE, SIZE, j % SIZE, j % SIZE);
  }

  lemma XorTwice(a: bv8, b: bv8)
    ensures Xor(Xor(a, b), b) == a
  {
    XorLaws(a, b, b);
    XorLaws(a, 0, b);
    XorLaws(b, b, a);
  }

  /** On whole blocks the mode undoes itself. */
  lemma StreamedTwice(e: Bytes -> Bytes, iv: Bytes, text: Bytes)
    requires BlockFunction(e) && |iv| == SIZE && |text| % SIZE == 0
    ensures Streamed(e, iv, Streamed(e, iv, text)) == text
  {
    var c := Streamed(e, iv, text);
    if |text| > 0 {
      StreamedAt(e, iv, text, 0);
      StreamedAt(e, iv, c, 0);
      forall j | 0 <= j < |text|
        ensures Streamed(e, iv, c)[j] == text[j]
      {
        StreamedAt(e, iv, text, j);
        StreamedAt(e, iv, c, j);
        XorTwice(text[j], Feedback(e, iv, j / SIZE + 1)[j % SIZE]);
      }
    }
  }

  function PadLength(n: nat): (k: nat)
    ensures 1 <= k <= SIZE && (n + k) % SIZE == 0
  {
    SIZE - n % SIZE
  }

  function Padded(text: Bytes): Bytes {
    var k := PadLength(|text|);
    text + seq(k - 1, _ => 0) + [k as bv8]
  }

  /** The last byte says how many bytes to drop; 0, like more than there are, drops them all. */
  function Unpad(padded: Bytes): Unpadded {
    if |padded| == 0 then IndexError else
    var n := padded[|padded| - 1] as int;
    if n == 0 || n > |padded| then Bytes([]) else Bytes(padded[..|padded| - n])
  }

  lemma SmallByte(n: nat)
    requires n <= SIZE
    ensures (n as bv8) as int == n
  {
  }

  lemma UnpadPadded(text: Bytes)
    ensures |Padded(text)| % SIZE == 0
    ensures Unpad(Padded(text)) == Bytes(text)
  {
    var k := PadLength(|text|);
    SmallByte(k);
    assert Padded(text)[..|text|] == text;
  }

  /** The text, zeros up to the last byte of a block, and there how many bytes were added. */
  lemma PaddedAt(text: Bytes, j: nat)
    requires j < |Padded(text)|
    ensures |text| < |Padded(text)| <= |text| + 16
    ensures Padded(text)[j] == if j < |text| then text[j]
                               else if j < |Padded(text)| - 1 then 0
                               else (|Padded(text)| - |text|) as bv8
  {
  }

  /** Dropping 0 bytes, like dropping more than there are, leaves none. */
  lemma UnpadDrops(padded: Bytes, rest: Bytes)
    requires |padded| > 0
    ensures Unpad(padded) == Bytes(rest)
            <==> && rest <= padded
                 && var last := padded[|padded| - 1] as int;
                    if rest == [] then last == 0 || last >= |padded| else last == |padded| - |rest| > 0
  {
    if rest <= padded && rest != [] {
      assert padded[..|rest|] == rest;
    }
  }

  /** Unpadding the decryption of the encryption gives the message back, whatever the block function. */
  lemma MessageBack(e: Bytes -> Bytes, iv: Bytes, text: Bytes)
    requires BlockFunction(e) && |iv| == SIZE
    ensures Unpad(Streamed(e, iv, Streamed(e, iv, Padded(text)))) == Bytes(text)
  {
    UnpadPadded(text);
    StreamedTwice(e, iv, Padded(text));
  }

  // The block cipher of the script.

  /** Decrypting a block undoes encrypting it, for every key of 16, 24 or 32 bytes. */
  lemma BlockOfBytesBack(key: Bytes, m: Bytes)
    requires KeySize(|key|) && |m| == SIZE
    ensures |EncryptState(FIELD, RoundKeys(FIELD, key), m)| == SIZE
    ensures DecryptState(FIELD, RoundKeys(FIELD, key), EncryptState(FIELD, RoundKeys(FIELD, key), m)) == m
  {
    FieldLaws();
    BlockBack(FIELD, key, m);
  }

  /** Encryption of a block under the key. */
  function CipherOf(key: Bytes): Bytes -> Bytes
    requires KeySize(|key|)
  {
    s => if |s| == SIZE then EncryptState(FIELD, RoundKeys(FIELD, key), s) else s
  }

  lemma CipherIsABlockFunction(key: Bytes)
    requires KeySize(|key|)
    ensures BlockFunction(CipherOf(key))
  {
    forall s: Bytes | |s| == SIZE
      ensures |CipherOf(key)(s)| == SIZE
    {
      BlockOfBytesBack(key, s);
    }
  }

  ghost predicate Enciphers(key: Bytes, e: Bytes -> Bytes)
    requires KeySize(|key|)
  {
    forall s: Bytes {:trigger e(s)} :: |s| == SIZE ==> e(s) == EncryptState(FIELD, RoundKeys(FIELD, key), s)
  }

  lemma Encipherment(key: Bytes) returns (e: Bytes -> Bytes)
    requires KeySize(|key|)
    ensures e == CipherOf(key) && Enciphers(key, e) && BlockFunction(e)
  {
    CipherIsABlockFunction(key);
    e := CipherOf(key);
  }

  method EncryptBlock(key: Bytes, s: Bytes, ghost e: Bytes -> Bytes) returns (stream: Bytes)
    requires KeySize(|key|) && |s| == SIZE && Enciphers(key, e)
    ensures stream == e(s)
  {
    stream := AesMethods.Encrypt(FIELD, key, s);
  }

  /** The loop both directions run, 16 bytes at a time. */
  method RunStream(key: Bytes, iv: Bytes, text: Bytes) returns (out: Bytes)
    requires KeySize(|key|) && |iv| == SIZE
    ensures out == Streamed(CipherOf(key), iv, text)
  {
    ghost var e := Encipherment(key);
    var s, i: nat := iv, 0;
    out := [];
    while i < |text|
      invariant |s| == SIZE
      invariant i <= |text| ==> out + Streamed(e, s, text[i..]) == Streamed(e, iv, text)
      invariant i > |text| ==> out == Streamed(e, iv, text)
    {
      var stream := EncryptBlock(key, s, e);
      var end := if i + SIZE < |text| then i + SIZE else |text|;
      StreamedStep(e, s, text, i);
      Append(out, XorCycled(text[i..end], stream), Streamed(e, stream, text[end..]));
      out := out + XorCycled(text[i..end], stream);
      s := stream;
      i := i + SIZE;
    }
  }

  lemma LastBlock(e: Bytes -> Bytes, s: Bytes, text: Bytes)
    requires |e(s)| == SIZE && 0 < |text| <= SIZE
    ensures Streamed(e, s, text) == XorCycled(text, e(s)) + Streamed(e, e(s), [])
  {
    assert Streamed(e, e(s), []) == [];
  }

  /** The block at i, whole or not, and the rest. */
  lemma StreamedStep(e: Bytes -> Bytes, s: Bytes, text: Bytes, i: nat)
    requires BlockFunction(e) && |s| == SIZE && i < |text|
    ensures var end := if i + SIZE < |text| then i + SIZE else |text|;
            |e(s)| == SIZE &&
            Streamed(e, s, text[i..]) == XorCycled(text[i..end], e(s)) + Streamed(e, e(s), text[end..])
  {
    if i + SIZE < |text| {
      SplitRest(text, i, SIZE);
    } else {
      LastBlock(e, s, text[i..]);
      SplitRest(text, i, |text| - i);
    }
  }

  lemma SplitRest<T>(text: seq<T>, i: nat, n: nat)
    requires i + n <= |text|
    ensures text[i..][..n] == text[i..i + n] && text[i..][n..] == text[i + n..]
  {
  }

  lemma Append<T>(a: seq<T>, b: seq<T>, c: seq<T>)
    ensures (a + b) + c == a + (b + c)
  {
  }

  /** Encrypts a plaintext of any length. */
  method EncryptFlag(key: Bytes, iv: Bytes, plaintext: Bytes) returns (ciphertext: Bytes)
    requires KeySize(|key|) && |iv| == SIZE
    ensures ciphertext == Streamed(CipherOf(key), iv, Padded(plaintext))
  {
    var padLen := SIZE - |plaintext| % SIZE;
    ciphertext := RunStream(key, iv, plaintext + seq(padLen - 1, _ => 0) + [padLen as bv8]);
  }

  /** Decrypts; the padding stays. */
  method DecryptFlag(key: Bytes, iv: Bytes, ciphertext: Bytes) returns (plaintext: Bytes)
    requires KeySize(|key|) && |iv| == SIZE
    ensures plaintext == Streamed(CipherOf(key), iv, ciphertext)
  {
    plaintext := RunStream(key, iv, ciphertext);
  }

  /** For every key size, iv and message length the unpadded decryption of the encryption is the message. */
  method ThereAndBack(key: Bytes, iv: Bytes, message: Bytes) returns (back: Unpadded)
    requires KeySize(|key|) && |iv| == SIZE
    ensures back == Unpadded.Bytes(message)
  {
    var ciphertext := EncryptFlag(key, iv, message);
    var plaintext := DecryptFlag(key, iv, ciphertext);
    back := Unpad(plaintext);
    CipherIsABlockFunction(key);
    MessageBack(CipherOf(key), iv, message);
  }
}
