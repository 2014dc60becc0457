/**
 The Merkle-Hellman scheme of the lattice challenge: a superincreasing private key, disguised
 by a multiplication modulo q, and a greedy decoder. Random choices are any values of their
 ranges, so what a method promises holds of every choice.
 */
module Knapsack {
  import opened Arith
  import opened Euclid

  datatype Outcome<+T> = Ok(value: T) | ValueError | IndexError | ZeroDivisionError

  // Numbers as strings of bits.

  predicate Bit(c: char) {
    c == '0' || c == '1'
  }

  predicate Digit(c: char) {
    '0' <= c <= '9'
  }

  function DigitValue(c: char): nat
    requires Digit(c)
  {
    c as int - '0' as int
  }

  predicate Binary(s: string) {
    forall i :: 0 <= i < |s| ==> Bit(s[i])
  }

  /** A number in binary, without the prefix. */
  function Bin(n: nat): (s: string)
    ensures |s| > 0
  {
    if n == 0 then "0" else if n == 1 then "1"
    else Bin(n / 2) + (if n % 2 == 0 then "0" else "1")
  }

  function ParseBinary(s: string): Outcome<nat> {
    if |s| == 0 || !Bit(s[|s| - 1]) then ValueError
    else if |s| == 1 then Ok(DigitValue(s[0]))
    else
      match ParseBinary(s[..|s| - 1])
      case Ok(high) => Ok(2 * high + DigitValue(s[|s| - 1]))
      case error => error
  }

  lemma {:induction false} BinBack(n: nat)
    ensures ParseBinary(Bin(n)) == Ok(n)
  {
    if n >= 2 {
      BinBack(n / 2);
      assert Bin(n)[..|Bin(n)| - 1] == Bin(n / 2);
    }
  }

  function Pow2(n: nat): nat {
    if n == 0 then 1 else 2 * Pow2(n - 1)
  }

  /** The digits from the first on, each times its power of two. */
  function Value(s: string): nat
    requires Binary(s)
  {
    if |s| == 0 then 0 else DigitValue(s[0]) * Pow2(|s| - 1) + Value(s[1..])
  }

  lemma {:induction false} ValueOfMore(s: string, c: char)
    requires Binary(s) && Bit(c)
    ensures Binary(s + [c]) && Value(s + [c]) == 2 * Value(s) + DigitValue(c)
  {
    if |s| == 0 {
      assert (s + [c])[1..] == "";
    } else {
      ValueOfMore(s[1..], c);
      assert (s + [c])[1..] == s[1..] + [c];
      Doubled(DigitValue(s[0]), Pow2(|s| - 1));
    }
  }

  lemma Doubled(d: nat, p: nat)
    ensures d * (2 * p) == 2 * (d * p)
  {
  }

  /** A string is read if and only if it is a nonempty string of bits, and then as its value. */
  lemma {:induction false} ParsesAs(s: string)
    ensures ParseBinary(s) == if |s| > 0 && Binary(s) then Ok(Value(s)) else ValueError
  {
    if |s| > 1 && Bit(s[|s| - 1]) {
      var front := s[..|s| - 1];
      ParsesAs(front);
      assert s == front + [s[|s| - 1]];
      if Binary(front) {
        ValueOfMore(front, s[|s| - 1]);
      }
    } else if |s| == 1 {
      assert s[1..] == "";
    }
  }

  /** The text of a number has its value, and no digit too many. */
  lemma {:induction false} BinIs(n: nat)
    ensures Binary(Bin(n)) && Value(Bin(n)) == n && (|Bin(n)| > 1 ==> Bin(n)[0] == '1')
  {
    if n >= 2 {
      BinIs(n / 2);
      ValueOfMore(Bin(n / 2), if n % 2 == 0 then '0' else '1');
    }
  }

  // Keys.

  function Pow4(n: nat): nat {
    if n == 0 then 1 else 4 * Pow4(n - 1)
  }

  lemma {:induction false} PowersOfFour(n: nat)
    ensures Pow4(n) == Pow2(2 * n)
  {
    if n > 0 {
      PowersOfFour(n - 1);
      assert Pow2(2 * n) == 2 * Pow2(2 * n - 1);
    }
  }

  function Sum(s: seq<nat>): nat {
    if |s| == 0 then 0 else Sum(s[..|s| - 1]) + s[|s| - 1]
  }

  /** Every element exceeds the sum of those before it. */
  ghost predicate Superincreasing(s: seq<nat>) {
    forall i :: 0 <= i < |s| ==> s[i] > Sum(s[..i])
  }

  /** The library's inverse modulo q: an error when there is none. */
  function Invert(r: nat, q: nat): Outcome<nat> {
    if q == 0 || Gcd(r, q) != 1 then ZeroDivisionError else Ok(Bezout(r, q).0 % q)
  }

  /** Reducing the factor of r leaves an inverse. */
  lemma Reduced(r: nat, q: nat, x: int, y: int)
    requires q > 0 && x * r + y * q == 1
    ensures (r * (x % q)) % q == 1 % q
  {
    var s, d := x % q, x / q;
    assert x == q * d + s;
    assert x * r == (q * d) * r + s * r;
    assert (q * d) * r == q * (d * r) && s * r == r * s && y * q == q * y;
    assert q * (-y - d * r) == -(q * y) - q * (d * r);
    ModAddMultiple(1, q, -y - d * r);
  }

  /** An inverse is found exactly when one exists, and it is one. */
  lemma InvertIsInverse(r: nat, q: nat)
    requires q > 0
    ensures Invert(r, q).Ok? ==> Invert(r, q).value < q && (r * Invert(r, q).value) % q == 1 % q
    ensures Invert(r, q).Ok? <==> exists s: nat :: (r * s) % q == 1 % q
  {
    if Gcd(r, q) == 1 {
      BezoutIdentity(r, q);
      Reduced(r, q, Bezout(r, q).0, Bezout(r, q).1);
    } else {
      forall s: nat
        ensures (r * s) % q != 1 % q
      {
        if (r * s) % q == 1 % q {
          NoInverse(r, q, s);
        }
      }
    }
  }

  /** A common divisor that is not 1 rules an inverse out. */
  lemma NoInverse(r: nat, q: nat, s: nat)
    requires q > 0 && Gcd(r, q) != 1
    ensures (r * s) % q != 1 % q
  {
    var x, y := GcdDivides(r, q);
    var g := Gcd(r, q);
    FactorsPositive(g, y);
    if q == 1 {
      MulAtLeast(g, y);
      assert false;
    } else if (r * s) % q == 1 {
      NoMultiple(g, r, q, s, x, y);
      assert false;
    }
  }

  lemma FactorsPositive(a: nat, b: nat)
    requires a * b > 0
    ensures a > 0 && b > 0
  {
  }

  lemma NoMultiple(g: nat, r: nat, q: nat, s: nat, x: nat, y: nat)
    requires g > 1 && q > 1 && r == g * x && q == g * y
    ensures (r * s) % q != 1
  {
    var d := (r * s) / q;
    assert r * s == q * d + (r * s) % q;
    assert r * s == g * (x * s) && q * d == g * (y * d);
    assert g * (x * s - y * d) == g * (x * s) - g * (y * d);
    if (r * s) % q == 1 {
      SmallMultiple(g, x * s - y * d);
    }
  }

  /** Element i was drawn between the running sum and 4^(n+i). */
  ghost predicate InRanges(n: nat, priv: seq<nat>) {
    forall i :: 0 <= i < |priv| ==> Sum(priv[..i]) + 1 <= priv[i] <= Pow4(n + i)
  }

  /** The keys the generator can return, with every draw in its range. */
  ghost predicate IsKey(n: nat, priv: seq<nat>, q: nat, r: nat, pub: seq<nat>) {
    && |priv| == (if n == 0 then 1 else n) && InRanges(n, priv)
    && priv[|priv| - 1] + 1 <= q <= 2 * priv[|priv| - 1]
    && 1 <= r <= q && Gcd(r, q) == 1
    && pub == Disguised(priv, q, r)
  }

  function Disguised(priv: seq<nat>, q: nat, r: nat): (pub: seq<nat>)
    requires q > 0
    ensures |pub| == |priv|
  {
    seq(|priv|, i requires 0 <= i < |priv| => (r * priv[i]) % q)
  }

  /** Any value of a range, which must not be empty. */
  method RandInt(low: int, high: int) returns (x: int)
    requires low <= high
    ensures low <= x <= high
  {
    x :| low <= x <= high;
  }

  /** The first draw that has no common divisor with q. */
  method RandCoprime(q: nat) returns (r: nat)
    requires q > 0
    ensures 1 <= r <= q && Gcd(r, q) == 1
  {
    GcdOfOne(q);
    r :| 1 <= r <= q && Gcd(r, q) == 1;
  }

  lemma GcdOfOne(q: nat)
    requires q > 0
    ensures Gcd(1, q) == 1
  {
    if q > 1 {
      assert 1 % q == 1;
      assert Gcd(1, q) == Gcd(q, 1) == Gcd(1, 0);
    } else {
      assert Gcd(1, 1) == Gcd(1, 0);
    }
  }

  /** No range is empty: the running sum stays below the next upper bound. */
  lemma {:induction false} SumStaysBelow(n: nat, priv: seq<nat>)
    requires InRanges(n, priv)
    ensures Sum(priv) < Pow4(n + |priv|)
  {
    PowPositive(n);
    if |priv| > 0 {
      var k := |priv| - 1;
      assert forall i :: 0 <= i < k ==> priv[..k][..i] == priv[..i];
      SumStaysBelow(n, priv[..k]);
    }
  }

  lemma OneMoreDraw(n: nat, priv: seq<nat>, x: nat)
    requires InRanges(n, priv) && Sum(priv) + 1 <= x <= Pow4(n + |priv|)
    ensures InRanges(n, priv + [x]) && Sum(priv + [x]) == Sum(priv) + x
  {
    var more := priv + [x];
    assert more[..|priv|] == priv;
    forall i | 0 <= i < |more|
      ensures Sum(more[..i]) + 1 <= more[i] <= Pow4(n + i)
    {
      if i < |priv| {
        assert more[..i] == priv[..i];
      }
    }
  }

  /** The private key; the first element is drawn before the loop, even for n = 0. */
  method DrawPrivateKey(n: nat) returns (priv: seq<nat>)
    ensures |priv| == (if n == 0 then 1 else n) && InRanges(n, priv)
  {
    SumStaysBelow(n, []);
    var x := RandInt(1, Pow4(n));
    OneMoreDraw(n, [], x);
    priv := [] + [x];
    var s: nat := priv[0];
    var i: nat := 1;
    while i < n
      invariant |priv| == i && 1 <= i && (i <= n || (n == 0 && i == 1))
      invariant s == Sum(priv) && InRanges(n, priv)
    {
      SumStaysBelow(n, priv);
      x := RandInt(s + 1, Pow4(n + i));
      OneMoreDraw(n, priv, x);
      priv := priv + [x];
      s := s + priv[i];
      i := i + 1;
    }
  }

  method GenKey(n: nat) returns (priv: seq<nat>, q: nat, r: nat, pub: seq<nat>)
    ensures IsKey(n, priv, q, r, pub) && Superincreasing(priv)
  {
    priv := DrawPrivateKey(n);
    q := RandInt(priv[|priv| - 1] + 1, 2 * priv[|priv| - 1]);
    r := RandCoprime(q);
    pub := seq(|priv|, j requires 0 <= j < |priv| => r * priv[j] % q);
  }

  lemma {:induction false} PowPositive(n: nat)
    ensures Pow4(n) >= 1
  {
    if n > 0 {
      PowPositive(n - 1);
    }
  }

  // Encryption and decryption.

  predicate Digits(m: string) {
    forall i :: 0 <= i < |m| ==> Digit(m[i])
  }

  function Share(c: char, key: nat): nat
    requires Digit(c)
  {
    if c == '0' then 0 else if c == '1' then key else DigitValue(c) * key
  }

  lemma ShareIsProduct(c: char, key: nat)
    requires Digit(c)
    ensures Share(c, key) == DigitValue(c) * key
  {
  }

  /** The sum of the keys, each as often as its digit says. */
  function Weighted(m: string, keys: seq<nat>): nat
    requires |m| <= |keys| && Digits(m)
  {
    if |m| == 0 then 0
    else Weighted(m[..|m| - 1], keys) + Share(m[|m| - 1], keys[|m| - 1])
  }

  /** One digit more adds its key as often as the digit says. */
  lemma OneMoreDigit(m: string, c: char, keys: seq<nat>)
    requires |m| < |keys| && Digits(m) && Digit(c)
    ensures Digits(m + [c]) && Weighted("", keys) == 0
    ensures Weighted(m + [c], keys) == Weighted(m, keys) + DigitValue(c) * keys[|m|]
  {
    assert (m + [c])[..|m|] == m;
    ShareIsProduct(c, keys[|m|]);
  }

  /**
   Adds up the public key. A character that is no digit fails, and so does a digit that has no
   key; the first one to fail decides.
   */
  method Encrypt(msg: string, pub: seq<nat>) returns (c: Outcome<string>)
    ensures c.Ok? <==> |msg| <= |pub| && Digits(msg)
    ensures c.Ok? ==> c.value == Bin(Weighted(msg, pub))
    ensures c.IndexError? <==> |msg| > |pub| && Digits(msg[..|pub| + 1])
    ensures !c.ZeroDivisionError?
  {
    var cipher: nat, cnt: nat := 0, 0;
    while cnt < |msg|
      invariant cnt <= |msg| && cnt <= |pub| && Digits(msg[..cnt])
      invariant cipher == Weighted(msg[..cnt], pub)
    {
      if !Digit(msg[cnt]) {
        return ValueError;
      }
      if cnt >= |pub| {
        assert msg[..|pub| + 1] == msg[..cnt] + [msg[cnt]];
        return IndexError;
      }
      assert msg[..cnt + 1][..cnt] == msg[..cnt];
      ShareIsProduct(msg[cnt], pub[cnt]);
      cipher := cipher + DigitValue(msg[cnt]) * pub[cnt];
      cnt := cnt + 1;
    }
    assert msg[..cnt] == msg;
    return Ok(Bin(cipher));
  }

  /** The greedy choice, from the largest element down. */
  function Greedy(priv: seq<nat>, v: nat): (s: string)
    ensures |s| == |priv| && Binary(s)
  {
    if |priv| == 0 then ""
    else
      var last := priv[|priv| - 1];
      if v >= last then Greedy(priv[..|priv| - 1], v - last) + "1"
      else Greedy(priv[..|priv| - 1], v) + "0"
  }

  function Decrypted(c: string, priv: seq<nat>, q: nat, r: nat): Outcome<string> {
    match Invert(r, q)
    case Ok(s) =>
      if q == 0 then ZeroDivisionError else
      match ParseBinary(c) {
        case Ok(v) => Ok(Greedy(priv, v * s % q))
        case _ => ValueError
      }
    case _ => ZeroDivisionError
  }

  method Decrypt(c: string, priv: seq<nat>, q: nat, r: nat) returns (m: Outcome<string>)
    ensures m == Decrypted(c, priv, q, r)
  {
    var s := Invert(r, q);
    if !s.Ok? {
      return ZeroDivisionError;
    }
    var number := ParseBinary(c);
    if !number.Ok? {
      return ValueError;
    }
    var msg: nat := number.value * s.value % q;
    ghost var v := msg;
    var res := "";
    var i := |priv| - 1;
    assert priv[..|priv|] == priv;
    while i >= 0
      invariant -1 <= i < |priv|
      invariant Greedy(priv[..i + 1], msg) + res == Greedy(priv, v)
    {
      assert priv[..i + 1][..i] == priv[..i];
      Front(Greedy(priv[..i], if msg >= priv[i] then msg - priv[i] else msg), if msg >= priv[i] then "1" else "0", res);
      if msg >= priv[i] {
        res := "1" + res;
        msg := msg - priv[i];
      } else {
        res := "0" + res;
      }
      i := i - 1;
    }
    assert Greedy(priv[..0], msg) == "" && "" + res == res;
    return Ok(res);
  }

  lemma Front(a: string, b: string, c: string)
    ensures (a + b) + c == a + (b + c)
  {
  }

  // When decryption gives the message back.

  /** A message that is shorter than the key counts as followed by zeros. */
  function Filled(m: string, n: nat): (s: string)
    requires |m| <= n
    ensures |s| == n
  {
    m + seq(n - |m|, _ => '0')
  }

  lemma {:induction false} FilledWeighs(m: string, keys: seq<nat>, n: nat)
    requires |m| <= n <= |keys| && Binary(m)
    ensures Binary(Filled(m, n)) && Weighted(Filled(m, n), keys) == Weighted(m, keys)
  {
    if |m| == n {
      assert Filled(m, n) == m;
    } else {
      FilledWeighs(m, keys, n - 1);
      assert Filled(m, n)[..n - 1] == Filled(m, n - 1);
      assert Filled(m, n)[n - 1] == '0';
    }
  }

  /** The sum below an element of the key is less than it, so the greedy choice is the right one. */
  lemma {:induction false} GreedyFinds(priv: seq<nat>, m: string)
    requires Superincreasing(priv) && |m| == |priv| && Binary(m)
    ensures Weighted(m, priv) <= Sum(priv)
    ensures Greedy(priv, Weighted(m, priv)) == m
  {
    if |m| > 0 {
      var k := |m| - 1;
      var head, low := m[..k], priv[..k];
      PrefixSuperincreasing(priv, k);
      GreedyFinds(low, head);
      PrefixWeighs(head, priv, k);
      assert m == head + [m[k]];
    }
  }

  lemma PrefixSuperincreasing(priv: seq<nat>, k: nat)
    requires Superincreasing(priv) && k <= |priv|
    ensures Superincreasing(priv[..k])
  {
    forall i | 0 <= i < k
      ensures priv[..k][i] > Sum(priv[..k][..i])
    {
      assert priv[..k][..i] == priv[..i];
    }
  }

  /** Only as many keys as digits matter. */
  lemma {:induction false} PrefixWeighs(m: string, keys: seq<nat>, k: nat)
    requires |m| <= k <= |keys| && Digits(m)
    ensures Weighted(m, keys[..k]) == Weighted(m, keys)
  {
    if |m| > 0 {
      PrefixWeighs(m[..|m| - 1], keys, k);
    }
  }

  /** What the greedy choice takes never exceeds the number it is given. */
  lemma {:induction false} GreedyTakesAtMost(priv: seq<nat>, v: nat)
    ensures Weighted(Greedy(priv, v), priv) <= v
  {
    if |priv| > 0 {
      var k := |priv| - 1;
      var rest := if v >= priv[k] then v - priv[k] else v;
      var head := Greedy(priv[..k], rest);
      GreedyTakesAtMost(priv[..k], rest);
      PrefixWeighs(head, priv, k);
      assert Greedy(priv, v)[..k] == head;
    }
  }

  /** The disguised sum is r times the private sum, up to a multiple of q. */
  lemma {:induction false} DisguisedSum(m: string, priv: seq<nat>, q: nat, r: nat) returns (t: int)
    requires q > 0 && |m| <= |priv| && Digits(m)
    ensures Weighted(m, Disguised(priv, q, r)) == r * Weighted(m, priv) + q * t
  {
    if |m| == 0 {
      t := 0;
      assert r * 0 == 0 && q * 0 == 0;
    } else {
      var k := |m| - 1;
      var u := DisguisedSum(m[..k], priv, q, r);
      var w := Weighted(m[..k], priv);
      t := DisguisedTerm(DigitValue(m[k]), priv[k], q, r, w, u);
      ShareIsProduct(m[k], priv[k]);
      ShareIsProduct(m[k], r * priv[k] % q);
    }
  }

  lemma DisguisedTerm(d: nat, x: nat, q: nat, r: nat, w: nat, u: int) returns (t: int)
    requires q > 0
    ensures (r * w + q * u) + d * (r * x % q) == r * (w + d * x) + q * t
  {
    var a, b := r * x / q, r * x % q;
    t := u - d * a;
    assert r * x == q * a + b;
    assert d * (r * x) == d * (q * a) + d * b;
    assert d * (q * a) == q * (d * a) && d * (r * x) == r * (d * x);
    assert r * (w + d * x) == r * w + r * (d * x);
    assert q * (u - d * a) == q * u - q * (d * a);
  }

  /** Multiplying by the inverse lays the private sum modulo q bare. */
  lemma Unmasked(m: string, priv: seq<nat>, q: nat, r: nat, s: nat)
    requires q > 0 && |m| <= |priv| && Digits(m) && (r * s) % q == 1 % q
    ensures Weighted(m, Disguised(priv, q, r)) * s % q == Weighted(m, priv) % q
  {
    var t := DisguisedSum(m, priv, q, r);
    Unmask(Weighted(m, priv), t, q, r, s);
  }

  lemma Unmask(w: nat, t: int, q: nat, r: nat, s: nat)
    requires q > 0 && (r * s) % q == 1 % q
    ensures (r * w + q * t) * s % q == w % q
  {
    var d := r * s / q - 1 / q;
    assert r * s == 1 + q * d by {
      assert r * s == q * (r * s / q) + 1 % q && 1 == q * (1 / q) + 1 % q;
      assert q * d == q * (r * s / q) - q * (1 / q);
    }
    UnmaskedProduct(w, t, q, r, s, d);
    ModAddMultiple(w, q, d * w + t * s);
  }

  lemma UnmaskedProduct(w: nat, t: int, q: nat, r: nat, s: nat, d: int)
    requires r * s == 1 + q * d
    ensures (r * w + q * t) * s == w + q * (d * w + t * s)
  {
    calc {
      (r * w + q * t) * s;
      (r * w) * s + (q * t) * s;
      { assert (r * w) * s == (r * s) * w; assert (q * t) * s == q * (t * s); }
      (r * s) * w + q * (t * s);
      { assert (1 + q * d) * w == w + (q * d) * w; assert (q * d) * w == q * (d * w); }
      w + q * (d * w) + q * (t * s);
      { assert q * (d * w + t * s) == q * (d * w) + q * (t * s); }
      w + q * (d * w + t * s);
    }
  }

  /**
   Decryption gives a message back exactly when the part of the private key it selects sums to
   less than q. A message shorter than the key comes back with zeros after it.
   */
  lemma MessageBack(m: string, priv: seq<nat>, q: nat, r: nat)
    requires Superincreasing(priv) && q > 0 && Gcd(r, q) == 1 && |m| <= |priv| && Binary(m)
    ensures Decrypted(Bin(Weighted(m, Disguised(priv, q, r))), priv, q, r) == Ok(Filled(m, |priv|))
            <==> Weighted(m, priv) < q
  {
    var w, c := Weighted(m, priv), Weighted(m, Disguised(priv, q, r));
    var full := Filled(m, |priv|);
    BinBack(c);
    InvertIsInverse(r, q);
    var s := Invert(r, q).value;
    Unmasked(m, priv, q, r, s);
    FilledWeighs(m, priv, |priv|);
    assert Decrypted(Bin(c), priv, q, r) == Ok(Greedy(priv, w % q));
    if w < q {
      assert w % q == w by { DivModUnique(w, q, 0, w); }
      GreedyFinds(priv, full);
    } else {
      GreedyTakesAtMost(priv, w % q);
    }
  }

  lemma KeyIsSuperincreasing(n: nat, priv: seq<nat>, q: nat, r: nat, pub: seq<nat>)
    requires IsKey(n, priv, q, r, pub)
    ensures Superincreasing(priv)
  {
  }

  /** A key serves all messages exactly when q exceeds the sum of the private key. */
  lemma EveryMessageBack(n: nat, priv: seq<nat>, q: nat, r: nat, pub: seq<nat>)
    requires IsKey(n, priv, q, r, pub)
    ensures (forall m: string :: |m| == |priv| && Binary(m) ==>
               Decrypted(Bin(Weighted(m, pub)), priv, q, r) == Ok(m))
            <==> Sum(priv) < q
  {
    KeyIsSuperincreasing(n, priv, q, r, pub);
    forall m: string | |m| == |priv| && Binary(m)
      ensures Weighted(m, priv) <= Sum(priv)
      ensures Decrypted(Bin(Weighted(m, pub)), priv, q, r) == Ok(m) <==> Weighted(m, priv) < q
    {
      GreedyFinds(priv, m);
      MessageBack(m, priv, q, r);
      assert Filled(m, |priv|) == m;
    }
    var ones := AllOnes(priv);
  }

  lemma {:induction false} AllOnes(priv: seq<nat>) returns (m: string)
    ensures |m| == |priv| && Binary(m) && Weighted(m, priv) == Sum(priv)
  {
    if |priv| == 0 {
      m := "";
    } else {
      var k := |priv| - 1;
      var head := AllOnes(priv[..k]);
      m := head + "1";
      PrefixWeighs(head, priv, k);
      assert m[..k] == head;
    }
  }

  /** The generator can return a key that loses messages: q need not exceed the key sum. */
  lemma SomeKeyLosesAMessage()
    ensures IsKey(2, [1, 2], 3, 1, [1, 2])
    ensures Decrypted(Bin(Weighted("11", [1, 2])), [1, 2], 3, 1) == Ok("00")
  {
    var priv: seq<nat> := [1, 2];
    assert priv[..1] == [1] && [1][..0] == [] && priv[..0] == [];
    assert Sum([1]) == 1;
    GcdOfOne(3);
    assert Disguised(priv, 3, 1) == priv;
    assert "11"[..1] == "1" && "1"[..0] == "";
    assert Weighted("1", priv) == 1;
    assert Weighted("11", priv) == 3;
    BinBack(3);
    InvertIsInverse(1, 3);
    assert 3 * Invert(1, 3).value % 3 == 0;
    assert Greedy([], 0) == "" && Greedy([1], 0) == "" + "0";
    assert Greedy(priv, 0) == Greedy([1], 0) + "0";
    assert Greedy(priv, 0) == "00";
    assert ParseBinary(Bin(3)) == Ok(3);
  }
}
