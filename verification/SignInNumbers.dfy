/**
 What the block cipher computes, on plain numbers: no machine words, and the shifts, sums and
 exclusive ors written out in integer arithmetic.
 */
module SignInNumbers {
  import opened SignInCipher
  import opened SignInWords
  import opened Words32

  // The operations on words, one by one.

  lemma AddIs(n: bv32 -> nat, x: bv32, y: bv32)
    requires Numbers(n)
    ensures n(Add(x, y)) == (n(x) + n(y)) % TWO_32
  {
    assert Sums(n, x, y);
  }

  lemma SubIs(n: bv32 -> nat, x: bv32, y: bv32)
    requires Numbers(n)
    ensures n(Sub(x, y)) == (n(x) - n(y)) % TWO_32
  {
    DifferenceIs(n, x, y);
  }

  lemma ExclusiveIs(n: bv32 -> nat, x: bv32, y: bv32)
    requires Numbers(n)
    ensures n(Xor(x, y)) == XorOf(n(x), n(y))
  {
    XorIs(n, x, y);
  }

  lemma Shl4Is(n: bv32 -> nat, x: bv32)
    requires Numbers(n)
    ensures n(Shl4(x)) == 16 * n(x) % TWO_32
  {
    ShiftLeftIs4(n, x);
  }

  lemma Shr5Is(n: bv32 -> nat, x: bv32)
    requires Numbers(n)
    ensures n(Shr5(x)) == n(x) / 32
  {
    ShiftIs5(n, x);
  }

  lemma Shr11Is(n: bv32 -> nat, x: bv32)
    requires Numbers(n)
    ensures n(Shr11(x)) == n(x) / 2048
  {
    ShiftIs11(n, x);
  }

  lemma And3Is(n: bv32 -> nat, x: bv32)
    requires Numbers(n)
    ensures n(And3(x)) == n(x) % 4
  {
    MaskIs3(n, x);
  }

  lemma QuarterIs(n: bv32 -> nat, x: bv32)
    requires Numbers(n)
    ensures Quarter(x) == n(x)
  {
    assert IsNumber(n, x);
  }

  lemma DeltaIs(n: bv32 -> nat)
    requires Numbers(n)
    ensures n(DELTA) == 0x9E37_79B9
  {
    assert IsNumber(n, DELTA);
  }

  lemma LoadIs(n: bv32 -> nat, b: seq<bv8>)
    requires Numbers(n) && |b| == 4
    ensures n(Load(b)) == LittleNumber(b)
  {
    LittleOfFour(b);
    assert Joins(n, b[0], b[1], b[2], b[3]);
  }

  lemma StoreIs(n: bv32 -> nat, x: bv32)
    requires Numbers(n)
    ensures |Store(x)| == 4 && LittleNumber(Store(x)) == n(x)
  {
    LoadStore(x);
    LoadIs(n, Store(x));
  }

  // The same of any machine whose operations are these on the numbers of its words.

  predicate Adds<W>(alu: Alu<W>, n: W -> nat, x: W, y: W) {
    n(alu.add(x, y)) == (n(x) + n(y)) % TWO_32
  }

  predicate Subtracts<W>(alu: Alu<W>, n: W -> nat, x: W, y: W) {
    n(alu.sub(x, y)) == (n(x) - n(y)) % TWO_32
  }

  predicate Xors<W>(alu: Alu<W>, n: W -> nat, x: W, y: W) {
    n(alu.xor(x, y)) == XorOf(n(x), n(y))
  }

  predicate Shifts4And5<W>(alu: Alu<W>, n: W -> nat, x: W) {
    n(alu.shl4(x)) == 16 * n(x) % TWO_32 && n(alu.shr5(x)) == n(x) / 32
  }

  /** The key words that a sum picks for the two halves of a round. */
  predicate Picks<W>(alu: Alu<W>, n: W -> nat, x: W) {
    alu.quarter(alu.and3(x)) == n(x) % 4 && n(alu.shr11(x)) == n(x) / 2048
  }

  predicate Stores<W>(alu: Alu<W>, n: W -> nat, x: W) {
    |alu.store(x)| == 4 && LittleNumber(alu.store(x)) == n(x)
  }

  predicate Loads<W>(alu: Alu<W>, n: W -> nat, b: seq<bv8>) {
    |b| == 4 ==> n(alu.load(b)) == LittleNumber(b)
  }

  ghost predicate Numeric<W(!new)>(alu: Alu<W>, n: W -> nat) {
    && n(alu.zero) == 0 && n(alu.delta) == 0x9E37_79B9
    && (forall x, y {:trigger Adds(alu, n, x, y)} :: Adds(alu, n, x, y))
    && (forall x, y {:trigger Subtracts(alu, n, x, y)} :: Subtracts(alu, n, x, y))
    && (forall x, y {:trigger Xors(alu, n, x, y)} :: Xors(alu, n, x, y))
    && (forall x {:trigger Shifts4And5(alu, n, x)} :: Shifts4And5(alu, n, x))
    && (forall x {:trigger Picks(alu, n, x)} :: Picks(alu, n, x))
    && (forall x {:trigger Stores(alu, n, x)} :: Stores(alu, n, x))
    && (forall b {:trigger Loads(alu, n, b)} :: Loads(alu, n, b))
  }

  /** Unsigned 32-bit arithmetic is such a machine. */
  lemma AluIsNumeric() returns (n: bv32 -> nat)
    ensures Numeric(ALU, n)
    ensures forall x {:trigger IsNumber(n, x)} :: IsNumber(n, x)
  {
    n := NumbersOfWords();
    DeltaIs(n);
    forall x, y
      ensures Adds(ALU, n, x, y)
    {
      AddIs(n, x, y);
    }
    forall x, y
      ensures Subtracts(ALU, n, x, y)
    {
      SubIs(n, x, y);
    }
    forall x, y
      ensures Xors(ALU, n, x, y)
    {
      ExclusiveIs(n, x, y);
    }
    forall x
      ensures Shifts4And5(ALU, n, x)
    {
      Shl4Is(n, x);
      Shr5Is(n, x);
    }
    forall x
      ensures Picks(ALU, n, x)
    {
      PicksAre(n, x);
    }
    forall x
      ensures Stores(ALU, n, x)
    {
      StoreIs(n, x);
    }
    forall b
      ensures Loads(ALU, n, b)
    {
      if |b| == 4 {
        LoadIs(n, b);
      }
    }
  }

  lemma PicksAre(n: bv32 -> nat, x: bv32)
    requires Numbers(n)
    ensures Picks(ALU, n, x)
  {
    And3Is(n, x);
    QuarterIs(n, And3(x));
    Shr11Is(n, x);
  }

  /** So the operations of the cipher are these on unsigned numbers. */
  lemma SumsOfWords(x: bv32, y: bv32)
    ensures IsSum(Add(x, y), x, y) && IsDifference(Sub(x, y), x, y)
  {
    var n := NumbersOfWords();
    AddIs(n, x, y);
    SubIs(n, x, y);
    SumOf(n, Add(x, y), x, y);
    DifferenceOf(n, Sub(x, y), x, y);
  }

  lemma XorOfWords(x: bv32, y: bv32)
    ensures Xor(x, y) as nat == XorOf(x as nat, y as nat)
  {
    var n := NumbersOfWords();
    ExclusiveIs(n, x, y);
    assert IsNumber(n, x) && IsNumber(n, y) && IsNumber(n, Xor(x, y));
  }

  lemma ShiftsOfWords(x: bv32)
    ensures Shl4(x) as nat == 16 * x as nat % TWO_32
    ensures Shr5(x) as nat == x as nat / 32 && Shr11(x) as nat == x as nat / 2048
    ensures And3(x) as nat == x as nat % 4
  {
    var n := NumbersOfWords();
    Shl4Is(n, x);
    Shr5Is(n, x);
    Shr11Is(n, x);
    And3Is(n, x);
    assert IsNumber(n, x) && IsNumber(n, Shl4(x)) && IsNumber(n, Shr5(x));
    assert IsNumber(n, Shr11(x)) && IsNumber(n, And3(x));
  }

  lemma BytesOfWords(b: seq<bv8>)
    requires |b| == 4
    ensures Load(b) as nat == LittleNumber(b)
  {
    var n := NumbersOfWords();
    LoadIs(n, b);
    assert IsNumber(n, Load(b));
  }

  // The cipher on numbers below 2^32.

  function MixedNumber(v: nat): nat {
    (XorOf(16 * v % TWO_32, v / 32) + v) % TWO_32
  }

  function HalfNumber(v: nat, other: nat, part: nat): nat {
    (v + XorOf(MixedNumber(other), part)) % TWO_32
  }

  function LowNumber(key: seq<nat>, sum: nat): nat
    requires |key| == 4
  {
    (sum + key[sum % 4]) % TWO_32
  }

  function HighNumber(key: seq<nat>, sum: nat): nat
    requires |key| == 4
  {
    (sum + key[sum / 2048 % 4]) % TWO_32
  }

  /** The second half of a round starts from the outcome of the first, and from the next sum. */
  function NumberRound(key: seq<nat>, sum: nat, p: TwoNumbers): TwoNumbers
    requires |key| == 4
  {
    var v0 := HalfNumber(p.v0, p.v1, LowNumber(key, sum));
    TwoNumbers(v0, HalfNumber(p.v1, v0, HighNumber(key, (sum + 0x9E37_79B9) % TWO_32)))
  }

  function NumberRounds(key: seq<nat>, rounds: nat, p: TwoNumbers): TwoNumbers
    requires |key| == 4
  {
    if rounds == 0 then p
    else NumberRound(key, (rounds - 1) * 0x9E37_79B9 % TWO_32, NumberRounds(key, rounds - 1, p))
  }

  /** Four numbers from sixteen bytes. */
  function KeyNumbers(key: seq<bv8>): (numbers: seq<nat>)
    requires |key| == 16
    ensures |numbers| == 4
  {
    [LittleNumber(key[0..4]), LittleNumber(key[4..8]), LittleNumber(key[8..12]), LittleNumber(key[12..16])]
  }

  function BlockNumbers(block: seq<bv8>): TwoNumbers
    requires |block| == 8
  {
    TwoNumbers(LittleNumber(block[..4]), LittleNumber(block[4..]))
  }

  function NumbersOf<W>(n: W -> nat, p: Pair<W>): TwoNumbers {
    TwoNumbers(n(p.v0), n(p.v1))
  }

  predicate SameKey<W>(n: W -> nat, words: seq<W>, key: seq<nat>) {
    |words| == |key| == 4 && forall i :: 0 <= i < 4 ==> n(words[i]) == key[i]
  }

  lemma MixIs<W(!new)>(alu: Alu<W>, n: W -> nat, v: W)
    requires Numeric(alu, n)
    ensures n(Mix(alu, v)) == MixedNumber(n(v))
  {
    var left, right := alu.shl4(v), alu.shr5(v);
    assert Shifts4And5(alu, n, v) && Xors(alu, n, left, right) && Adds(alu, n, alu.xor(left, right), v);
  }

  lemma LowIs<W(!new)>(alu: Alu<W>, n: W -> nat, words: seq<W>, key: seq<nat>, sum: W)
    requires Numeric(alu, n) && Arithmetic(alu) && SameKey(n, words, key)
    ensures n(Low(alu, words, sum)) == LowNumber(key, n(sum))
  {
    assert Picks(alu, n, sum);
    assert Adds(alu, n, sum, words[n(sum) % 4]);
  }

  lemma HighIs<W(!new)>(alu: Alu<W>, n: W -> nat, words: seq<W>, key: seq<nat>, sum: W)
    requires Numeric(alu, n) && Arithmetic(alu) && SameKey(n, words, key)
    ensures n(High(alu, words, sum)) == HighNumber(key, n(sum))
  {
    var high := alu.shr11(sum);
    assert Picks(alu, n, sum) && Picks(alu, n, high);
    assert Adds(alu, n, sum, words[n(sum) / 2048 % 4]);
  }

  /** What a half round adds to a word. */
  lemma HalfRoundIs<W(!new)>(alu: Alu<W>, n: W -> nat, v: W, other: W, part: W)
    requires Numeric(alu, n)
    ensures n(alu.add(v, alu.xor(Mix(alu, other), part))) == HalfNumber(n(v), n(other), n(part))
  {
    MixIs(alu, n, other);
    assert Xors(alu, n, Mix(alu, other), part);
    assert Adds(alu, n, v, alu.xor(Mix(alu, other), part));
  }

  /** The parts of a round, by name. */
  lemma RoundParts<W(!new)>(alu: Alu<W>, n: W -> nat, words: seq<W>, key: seq<nat>, sum: W, p: Pair<W>)
      returns (next: W, low: W, high: W)
    requires Numeric(alu, n) && Arithmetic(alu) && SameKey(n, words, key)
    ensures n(next) == (n(sum) + 0x9E37_79B9) % TWO_32
    ensures n(low) == LowNumber(key, n(sum)) && n(high) == HighNumber(key, n(next))
    ensures EncryptRound(alu, words, sum, p).v0 == alu.add(p.v0, alu.xor(Mix(alu, p.v1), low))
    ensures EncryptRound(alu, words, sum, p).v1
         == alu.add(p.v1, alu.xor(Mix(alu, EncryptRound(alu, words, sum, p).v0), high))
  {
    next := alu.add(sum, alu.delta);
    assert Adds(alu, n, sum, alu.delta);
    low, high := Low(alu, words, sum), High(alu, words, next);
    LowIs(alu, n, words, key, sum);
    HighIs(alu, n, words, key, next);
  }

  lemma RoundIs<W(!new)>(alu: Alu<W>, n: W -> nat, words: seq<W>, key: seq<nat>, sum: W, p: Pair<W>)
      returns (r: Pair<W>)
    requires Numeric(alu, n) && Arithmetic(alu) && SameKey(n, words, key)
    ensures r == EncryptRound(alu, words, sum, p)
    ensures NumbersOf(n, r) == NumberRound(key, n(sum), NumbersOf(n, p))
  {
    var next, low, high := RoundParts(alu, n, words, key, sum, p);
    r := EncryptRound(alu, words, sum, p);
    HalfRoundIs(alu, n, p.v0, p.v1, low);
    HalfRoundIs(alu, n, p.v1, r.v0, high);
  }

  lemma SumStep(s: nat, d: nat)
    ensures (s % TWO_32 + d) % TWO_32 == (s + d) % TWO_32
  {
  }

  lemma {:induction false} SumIs<W(!new)>(alu: Alu<W>, n: W -> nat, rounds: nat)
    requires Numeric(alu, n)
    ensures n(SumAfter(alu, rounds)) == rounds * 0x9E37_79B9 % TWO_32
  {
    if rounds > 0 {
      SumIs(alu, n, rounds - 1);
      assert Adds(alu, n, SumAfter(alu, rounds - 1), alu.delta);
      SumStep((rounds - 1) * 0x9E37_79B9, 0x9E37_79B9);
    }
  }

  lemma NumbersStep(key: seq<nat>, rounds: nat, p: TwoNumbers)
    requires |key| == 4 && rounds > 0
    ensures NumberRound(key, (rounds - 1) * 0x9E37_79B9 % TWO_32, NumberRounds(key, rounds - 1, p))
         == NumberRounds(key, rounds, p)
  {
  }

  lemma WordsStep<W(!new)>(alu: Alu<W>, n: W -> nat, words: seq<W>, key: seq<nat>, rounds: nat, p: Pair<W>)
    requires Numeric(alu, n) && Arithmetic(alu) && SameKey(n, words, key) && rounds > 0
    ensures NumbersOf(n, Encrypted(alu, words, rounds, p))
         == NumberRound(key, n(SumAfter(alu, rounds - 1)), NumbersOf(n, Encrypted(alu, words, rounds - 1, p)))
  {
    var r := RoundIs(alu, n, words, key, SumAfter(alu, rounds - 1), Encrypted(alu, words, rounds - 1, p));
    assert r == Encrypted(alu, words, rounds, p);
  }

  ghost predicate NextOf<T>(f: nat -> T, step: (nat, T) -> T, i: nat) {
    f(i + 1) == step(i, f(i))
  }

  /** What starts alike and goes on by the same steps stays alike. */
  lemma {:induction false} StaysAlike<T(!new)>(f: nat -> T, g: nat -> T, step: (nat, T) -> T, k: nat)
    requires f(0) == g(0)
    requires forall i: nat {:trigger NextOf(f, step, i)} :: NextOf(f, step, i)
    requires forall i: nat {:trigger NextOf(g, step, i)} :: NextOf(g, step, i)
    ensures f(k) == g(k)
  {
    if k > 0 {
      StaysAlike(f, g, step, k - 1);
      assert NextOf(f, step, k - 1) && NextOf(g, step, k - 1);
    }
  }

  lemma RoundsAre<W(!new)>(alu: Alu<W>, n: W -> nat, words: seq<W>, key: seq<nat>, rounds: nat, p: Pair<W>)
    requires Numeric(alu, n) && Arithmetic(alu) && SameKey(n, words, key)
    ensures NumbersOf(n, Encrypted(alu, words, rounds, p)) == NumberRounds(key, rounds, NumbersOf(n, p))
  {
    var f := (i: nat) => NumbersOf(n, Encrypted(alu, words, i, p));
    var g := (i: nat) => NumberRounds(key, i, NumbersOf(n, p));
    var step := (i: nat, t: TwoNumbers) => NumberRound(key, i * 0x9E37_79B9 % TWO_32, t);
    forall i: nat
      ensures NextOf(f, step, i)
    {
      SumIs(alu, n, i);
      WordsStep(alu, n, words, key, i + 1, p);
    }
    forall i: nat
      ensures NextOf(g, step, i)
    {
      NumbersStep(key, i + 1, NumbersOf(n, p));
    }
    StaysAlike(f, g, step, rounds);
  }

  lemma KeyIs<W(!new)>(alu: Alu<W>, n: W -> nat, key: seq<bv8>)
    requires Numeric(alu, n) && |key| == 16
    ensures SameKey(n, KeyWords(alu, key), KeyNumbers(key))
  {
    assert Loads(alu, n, key[0..4]) && Loads(alu, n, key[4..8]);
    assert Loads(alu, n, key[8..12]) && Loads(alu, n, key[12..16]);
  }

  lemma BlockIs<W(!new)>(alu: Alu<W>, n: W -> nat, key: seq<bv8>, block: seq<bv8>)
    requires Numeric(alu, n) && Arithmetic(alu) && |key| == 16 && |block| == 8
    ensures |EncryptBlock(alu, key, block)| == 8
    ensures BlockNumbers(EncryptBlock(alu, key, block)) == NumberRounds(KeyNumbers(key), 32, BlockNumbers(block))
  {
    var p := ToPair(alu, block);
    var r := Encrypted(alu, KeyWords(alu, key), ROUNDS, p);
    KeyIs(alu, n, key);
    assert Loads(alu, n, block[..4]) && Loads(alu, n, block[4..]);
    RoundsAre(alu, n, KeyWords(alu, key), KeyNumbers(key), ROUNDS, p);
    assert Stores(alu, n, r.v0) && Stores(alu, n, r.v1);
    assert FromPair(alu, r)[..4] == alu.store(r.v0) && FromPair(alu, r)[4..] == alu.store(r.v1);
  }

  /** Encryption of a block is 32 rounds on the two little-endian numbers in it. */
  lemma EncryptsNumbers(key: seq<bv8>, block: seq<bv8>)
    requires |key| == 16 && |block| == 8
    ensures Arithmetic(ALU) && |EncryptBlock(ALU, key, block)| == 8
    ensures BlockNumbers(EncryptBlock(ALU, key, block)) == NumberRounds(KeyNumbers(key), 32, BlockNumbers(block))
  {
    AluArithmetic();
    var n := AluIsNumeric();
    BlockIs(ALU, n, key, block);
  }

  /** Decryption finds the block that those rounds take to the one given. */
  lemma DecryptsNumbers(key: seq<bv8>, block: seq<bv8>)
    requires |key| == 16 && |block| == 8
    ensures Arithmetic(ALU) && |DecryptBlock(ALU, key, block)| == 8
    ensures NumberRounds(KeyNumbers(key), 32, BlockNumbers(DecryptBlock(ALU, key, block))) == BlockNumbers(block)
  {
    AluArithmetic();
    AluBytes();
    BlocksUndo(ALU, key, block);
    EncryptsNumbers(key, DecryptBlock(ALU, key, block));
  }
}
