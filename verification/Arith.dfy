/** Facts about division, remainder and products that the solver does not find alone. */
module Arith {

  lemma MulNonneg(a: int, b: int)
    requires 0 <= a && 0 <= b
    ensures 0 <= a * b
  {
  }

  lemma MulAtLeast(d: int, k: int)
    requires d > 0 && k >= 1
    ensures d * k >= d
  {
    MulNonneg(d, k - 1);
    assert d * k == d * (k - 1) + d;
  }

  /** The only multiple of d strictly between -d and d is 0. */
  lemma SmallMultiple(d: int, k: int)
    requires d > 0 && -d < d * k < d
    ensures k == 0
  {
    if k >= 1 {
      MulAtLeast(d, k);
    } else if k <= -1 {
      MulAtLeast(d, -k);
    }
  }

  /** Quotient and remainder are the only ones. */
  lemma DivModUnique(x: int, d: int, q: int, r: int)
    requires d > 0 && 0 <= r < d && x == d * q + r
    ensures x / d == q && x % d == r
  {
    var q', r' := x / d, x % d;
    assert d * (q - q') == d * q - d * q';
    SmallMultiple(d, q - q');
  }

  /** Adding a multiple of d leaves the remainder by d. */
  lemma ModAddMultiple(x: int, d: int, k: int)
    requires d > 0
    ensures (x + d * k) % d == x % d
  {
    var q, r := x / d, x % d;
    assert d * (q + k) == d * q + d * k;
    DivModUnique(x + d * k, d, q + k, r);
  }

  /** Adding a number d divides leaves the remainder by d. */
  lemma ModAddDivisible(x: int, d: int, y: int)
    requires d > 0 && y % d == 0
    ensures (x + y) % d == x % d
  {
    ModAddMultiple(x, d, y / d);
  }

  /** The remainder by d only depends on the remainder by a multiple of d. */
  lemma ModOfMod(x: int, d: int, k: int)
    requires d > 0 && k > 0
    ensures d * k > 0 && (x % (d * k)) % d == x % d
  {
    MulAtLeast(d, k);
    var n := d * k;
    var q := x / n;
    assert n * q == d * (k * q);
    ModAddMultiple(x % n, d, k * q);
  }

  /** How many units make up a size they divide. */
  lemma CountOfUnits(size: nat, unit: nat)
    requires unit > 0 && size % unit == 0
    ensures unit * (size / unit) == size
    ensures size / unit == size <==> unit == 1 || size == 0
  {
    var count := size / unit;
    assert size == unit * count;
    if unit > 1 && count > 0 {
      MulAtLeast(count, unit - 1);
      assert unit * count == count * (unit - 1) + count;
    }
  }
}
