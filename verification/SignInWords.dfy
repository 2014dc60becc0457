/**
 The cipher as the C functions compute it, on little-endian 32-bit words in a byte buffer.
 */
module SignInWords {
  import opened Arith
  import opened SignInCipher

  const DELTA: bv32 := 0x9E3779B9
  const NEG_DELTA: bv32 := 0x61C88647
  const FINAL_SUM: bv32 := 0xC6EF3720

  function Add(x: bv32, y: bv32): bv32 { x + y }

  function Sub(x: bv32, y: bv32): bv32 { x - y }

  function Xor(x: bv32, y: bv32): bv32 { x ^ y }

  function Shl4(x: bv32): bv32 { x << 4 }

  function Shr5(x: bv32): bv32 { x >> 5 }

  function Shr11(x: bv32): bv32 { x >> 11 }

  function And3(x: bv32): bv32 { x & 3 }

  function Quarter(x: bv32): nat { x as nat }

  function Load(b: seq<bv8>): bv32 {
    if |b| != 4 then 0
    else (b[0] as bv32) | ((b[1] as bv32) << 8) | ((b[2] as bv32) << 16) | ((b[3] as bv32) << 24)
  }

  function Store(x: bv32): (b: seq<bv8>) {
    [(x & 0xFF) as bv8, ((x >> 8) & 0xFF) as bv8, ((x >> 16) & 0xFF) as bv8, ((x >> 24) & 0xFF) as bv8]
  }

  /** Unsigned 32-bit arithmetic on a little-endian machine. */
  const ALU: Alu<bv32> := Alu(Add, Sub, Xor, Shl4, Shr5, Shr11, And3, Quarter, Load, Store, 0, DELTA, NEG_DELTA,
      FINAL_SUM)

  lemma SubAdd(x: bv32, y: bv32)
    ensures Sub(Add(x, y), y) == x
  {
    assert Sub(x + y, y) == x && Add(x, y) == x + y;
  }

  lemma AddSub(x: bv32, y: bv32)
    ensures Add(Sub(x, y), y) == x
  {
    assert Add(x - y, y) == x && Sub(x, y) == x - y;
  }

  lemma AddSwaps(x: bv32, y: bv32)
    ensures Add(x, y) == Add(y, x)
  {
  }

  /** The two constants are opposites. */
  lemma Opposites(x: bv32)
    ensures Sub(x, NEG_DELTA) == Add(x, DELTA) && Add(x, NEG_DELTA) == Sub(x, DELTA)
  {
  }

  lemma LowBits(x: bv32)
    ensures Quarter(And3(x)) < 4
  {
  }

  lemma AluArithmetic()
    ensures Arithmetic(ALU)
  {
    forall x, y
      ensures ALU.sub(ALU.add(x, y), y) == x
    {
      SubAdd(x, y);
    }
    forall x, y
      ensures ALU.add(ALU.sub(x, y), y) == x
    {
      AddSub(x, y);
    }
    forall x, y
      ensures ALU.add(x, y) == ALU.add(y, x)
    {
      AddSwaps(x, y);
    }
    forall x
      ensures ALU.sub(x, ALU.negDelta) == ALU.add(x, ALU.delta)
    {
      Opposites(x);
    }
    forall x
      ensures ALU.add(x, ALU.negDelta) == ALU.sub(x, ALU.delta)
    {
      Opposites(x);
    }
    forall x
      ensures ALU.quarter(ALU.and3(x)) < 4
    {
      LowBits(x);
    }
  }

  lemma LoadStore(x: bv32)
    ensures |Store(x)| == 4 && Load(Store(x)) == x
  {
  }

  lemma StoreLoad(b: seq<bv8>)
    requires |b| == 4
    ensures Store(Load(b)) == b
  {
  }

  lemma AluBytes()
    ensures Bytes(ALU)
  {
    forall x
      ensures |ALU.store(x)| == 4 && ALU.load(ALU.store(x)) == x
    {
      LoadStore(x);
    }
    forall b: seq<bv8> | |b| == 4
      ensures ALU.store(ALU.load(b)) == b
    {
      StoreLoad(b);
    }
  }

  // The running sum reaches its final value after 32 rounds and not before.

  function LowFive(x: bv32): bv32 { x & 31 }

  /** The low five bits of the sum grow by 25 a round. */
  lemma LowFiveStep(x: bv32)
    ensures LowFive(Add(x, DELTA)) == (LowFive(x) + 25) & 31
    ensures LowFive(x) < 32
  {
  }

  lemma SmallWords(x: bv32, n: nat)
    requires x < 32 && x as nat == n
    ensures ((x + 25) & 31) as nat == (n + 25) % 32
  {
  }

  lemma LowFiveNext(x: bv32, y: bv32, n: nat)
    requires y == Add(x, DELTA) && LowFive(x) as nat == n
    ensures LowFive(y) as nat == (n + 25) % 32
  {
    LowFiveStep(x);
    SmallWords(LowFive(x), n);
  }

  function Residue(n: nat): nat {
    if n == 0 then 0 else (Residue(n - 1) + 25) % 32
  }

  lemma {:induction false} ResidueIs(n: nat)
    ensures Residue(n) == 25 * n % 32
  {
    if n > 0 {
      ResidueIs(n - 1);
      var a := 25 * (n - 1);
      assert a % 32 + 25 + 32 * (a / 32) == 25 * n;
      ModAddMultiple(a % 32 + 25, 32, a / 32);
    }
  }

  lemma {:induction false} LowFiveOfSum(n: nat)
    ensures LowFive(SumAfter(ALU, n)) as nat == Residue(n)
  {
    if n > 0 {
      LowFiveOfSum(n - 1);
      LowFiveNext(SumAfter(ALU, n - 1), SumAfter(ALU, n), Residue(n - 1));
    }
  }

  lemma AddAssociates(x: bv32, y: bv32, z: bv32)
    ensures Add(x, Add(y, z)) == Add(Add(x, y), z)
  {
    assert Add(x, y + z) == Add(x + y, z);
  }

  lemma {:induction false} SumOfSums(m: nat, n: nat)
    ensures SumAfter(ALU, m + n) == Add(SumAfter(ALU, m), SumAfter(ALU, n))
  {
    if n > 0 {
      SumOfSums(m, n - 1);
      AddAssociates(SumAfter(ALU, m), SumAfter(ALU, n - 1), DELTA);
    }
  }

  lemma SumAfter32()
    ensures SumAfter(ALU, 32) == FINAL_SUM
  {
    assert SumAfter(ALU, 1) == DELTA;
    SumOfSums(1, 1);
    SumOfSums(2, 2);
    SumOfSums(4, 4);
    SumOfSums(8, 8);
    SumOfSums(16, 16);
  }

  /** Both sentinels are met by round 32 and by no earlier one: only 32 divides 25 n. */
  lemma SumsMeetTheSentinelsLast()
    ensures Sentinels(ALU)
  {
    SumAfter32();
    assert LowFive(0) == 0 && LowFive(FINAL_SUM) == 0;
    forall n | 1 <= n < 32
      ensures SumAfter(ALU, n) != 0 && SumAfter(ALU, n) != FINAL_SUM
    {
      LowFiveOfSum(n);
      ResidueIs(n);
    }
  }
}
