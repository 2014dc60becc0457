/** What the server's check accepts, on plain numbers. */
module SignInAccepts {
  import opened SignInCipher
  import opened SignInWords
  import opened SignInNumbers
  import opened SignInValidators
  import opened Words32

  lemma OneByte(a: bv8, b: bv8)
    ensures a as nat < 0x100 && (a as nat == b as nat <==> a == b)
  {
  }

  lemma FirstAndRest(x: nat, m: nat, y: nat, n: nat)
    requires x < 0x100 && y < 0x100
    ensures x + 0x100 * m == y + 0x100 * n <==> x == y && m == n
  {
  }

  lemma {:induction false} SameBytes(a: seq<bv8>, b: seq<bv8>)
    requires |a| == |b|
    ensures LittleNumber(a) == LittleNumber(b) <==> a == b
  {
    if a != [] {
      SameBytes(a[1..], b[1..]);
      OneByte(a[0], b[0]);
      OneByte(b[0], a[0]);
      FirstAndRest(a[0] as nat, LittleNumber(a[1..]), b[0] as nat, LittleNumber(b[1..]));
      assert a == [a[0]] + a[1..] && b == [b[0]] + b[1..];
    }
  }

  lemma SameBlocks(a: seq<bv8>, b: seq<bv8>)
    requires |a| == |b| == 8
    ensures BlockNumbers(a) == BlockNumbers(b) <==> a == b
  {
    SameBytes(a[..4], b[..4]);
    SameBytes(a[4..], b[4..]);
    assert a == a[..4] + a[4..] && b == b[..4] + b[4..];
  }

  /** What the check asks of four blocks, in terms of the one direction only. */
  predicate Matches(f: seq<bv8> -> seq<bv8>, d: seq<bv8>, a: seq<bv8>)
    requires |d| == |a| == 32
  {
    f(d[..8]) == a[..8] && f(d[8..16]) == a[8..16] && f(a[16..24]) == d[16..24] && f(a[24..]) == d[24..]
  }

  lemma PiecesMatch(f: seq<bv8> -> seq<bv8>, g: seq<bv8> -> seq<bv8>, d: seq<bv8>, a: seq<bv8>)
    requires Inverse(f, g) && |d| == |a| == 32
    ensures OnBlocks(g, f, a) == d <==> Matches(f, d, a)
  {
    var a0, a1, a2, a3 := a[..8], a[8..16], a[16..24], a[24..];
    assert Inverts(g, f, a0) && Inverts(g, f, a1) && Inverts(f, g, a2) && Inverts(f, g, a3);
    assert Inverts(f, g, d[..8]) && Inverts(f, g, d[8..16]);
    FourPieces(g(a0), g(a1), f(a2), f(a3), d);
  }

  /** The rounds take the one block to the other. */
  predicate Leads(key: seq<bv8>, from: seq<bv8>, to: seq<bv8>)
    requires |key| == 16 && |from| == |to| == 8
  {
    BlockNumbers(to) == NumberRounds(KeyNumbers(key), 32, BlockNumbers(from))
  }

  lemma EncryptsTo(key: seq<bv8>, f: seq<bv8> -> seq<bv8>, from: seq<bv8>, to: seq<bv8>)
    requires |key| == 16 && |from| == |to| == 8 && Arithmetic(ALU) && Encrypts(ALU, key, f)
    ensures f(from) == to <==> Leads(key, from, to)
  {
    EncryptsNumbers(key, from);
    SameBlocks(EncryptBlock(ALU, key, from), to);
  }

  lemma MatchingNumbers(key: seq<bv8>, f: seq<bv8> -> seq<bv8>, data: seq<bv8>, answer: seq<bv8>)
    requires |key| == 16 && |data| == |answer| == 32 && Arithmetic(ALU) && Encrypts(ALU, key, f)
    ensures Matches(f, data, answer) <==> LeadBothWays(key, data, answer)
  {
    EncryptsTo(key, f, data[..8], answer[..8]);
    EncryptsTo(key, f, data[8..16], answer[8..16]);
    EncryptsTo(key, f, answer[16..24], data[16..24]);
    EncryptsTo(key, f, answer[24..], data[24..]);
  }

  /** The rounds lead from the data to the first half of the answer, and from its second half to the data. */
  predicate LeadBothWays(key: seq<bv8>, data: seq<bv8>, answer: seq<bv8>)
    requires |key| == 16 && |data| == |answer| == 32
  {
    && Leads(key, data[..8], answer[..8]) && Leads(key, data[8..16], answer[8..16])
    && Leads(key, answer[16..24], data[16..24]) && Leads(key, answer[24..], data[24..])
  }

  /** What the server's check accepts. */
  lemma AcceptedNumbers(key: seq<bv8>, data: seq<bv8>, answer: seq<bv8>)
    requires |key| == 16 && |data| == |answer| == 32
    ensures Arithmetic(ALU)
    ensures ServerTransform(ALU, key, answer) == data <==> LeadBothWays(key, data, answer)
  {
    AluArithmetic();
    AluBytes();
    var f, g := CipherFunctions(ALU, key, answer);
    PiecesMatch(f, g, data, answer);
    MatchingNumbers(key, f, data, answer);
  }
}
