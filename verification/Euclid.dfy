/** The greatest common divisor, and the sum of multiples that gives it. */
module Euclid {

  function Gcd(a: nat, b: nat): nat
    decreases b
  {
    if b == 0 then a else Gcd(b, a % b)
  }

  /** The factors of a and b in a sum that gives their greatest common divisor. */
  function Bezout(a: nat, b: nat): (int, int)
    decreases b
  {
    if b == 0 then (1, 0) else
    var (x, y) := Bezout(b, a % b);
    (y, x - a / b * y)
  }

  lemma {:induction false} BezoutIdentity(a: nat, b: nat)
    ensures Bezout(a, b).0 * a + Bezout(a, b).1 * b == Gcd(a, b)
    decreases b
  {
    if b != 0 {
      BezoutIdentity(b, a % b);
      var (x, y) := Bezout(b, a % b);
      BezoutStep(a, b, x, y);
    }
  }

  lemma BezoutStep(a: nat, b: nat, x: int, y: int)
    requires b > 0
    ensures y * a + (x - a / b * y) * b == x * b + y * (a % b)
  {
    var d, m := a / b, a % b;
    assert a == b * d + m;
    assert y * a == y * (b * d) + y * m;
    assert (x - d * y) * b == x * b - (d * y) * b;
    assert y * (b * d) == (d * y) * b;
  }

  lemma {:induction false} GcdDivides(a: nat, b: nat) returns (x: nat, y: nat)
    ensures a == Gcd(a, b) * x && b == Gcd(a, b) * y
    decreases b
  {
    if b == 0 {
      x, y := 1, 0;
    } else {
      var u, v := GcdDivides(b, a % b);
      x, y := u * (a / b) + v, u;
      Multiples(Gcd(a, b), u, v, a / b);
    }
  }

  lemma Multiples(g: int, u: int, v: int, d: int)
    ensures g * u * d + g * v == g * (u * d + v)
  {
    assert g * u * d == g * (u * d);
  }
}
