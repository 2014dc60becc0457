/** Nops: the x86 backend's writer, and the search for a padding that nops can fill. */
module McNops {
  import opened Arith
  import opened Euclid
  import opened McModel
  import opened McEager
  import opened McImage

  /** Growing a padding of `size` by `align` ends at a multiple of `nop` after k steps. */
  predicate EndsAfter(size: nat, align: nat, nop: nat, k: nat)
    requires nop > 0
  {
    (size + align * k) % nop == 0
  }

  /** What `tries` steps find: the first step that ends, if there is one among them. */
  lemma {:induction false} GrowthFinds(size: nat, align: nat, nop: nat, tries: nat)
    requires nop > 0
    ensures match GrowToNop(size, align, nop, tries)
            case Some(grown) =>
              exists k: nat :: k <= tries && grown == size + align * k && EndsAfter(size, align, nop, k)
            case None => forall k: nat :: k <= tries ==> !EndsAfter(size, align, nop, k)
    decreases tries
  {
    assert size + align * 0 == size;
    if size % nop == 0 {
      assert EndsAfter(size, align, nop, 0);
    } else if tries == 0 {
      assert !EndsAfter(size, align, nop, 0);
    } else {
      GrowthFinds(size + align, align, nop, tries - 1);
      StepsShift(size, align, nop);
      if GrowToNop(size, align, nop, tries).Some? {
        var k: nat :| k <= tries - 1 && GrowToNop(size, align, nop, tries).value == size + align + align * k
          && EndsAfter(size + align, align, nop, k);
        assert align * (k + 1) == align + align * k;
        assert EndsAfter(size, align, nop, k + 1);
      } else {
        forall k: nat | k <= tries
          ensures !EndsAfter(size, align, nop, k)
        {
          if k > 0 {
            assert !EndsAfter(size + align, align, nop, k - 1);
          }
        }
      }
    }
  }

  lemma StepsShift(size: nat, align: nat, nop: nat)
    requires nop > 0
    ensures forall k: nat :: k > 0 ==> EndsAfter(size, align, nop, k) == EndsAfter(size + align, align, nop, k - 1)
  {
    forall k: nat | k > 0
      ensures EndsAfter(size, align, nop, k) == EndsAfter(size + align, align, nop, k - 1)
    {
      assert align * k == align + align * (k - 1);
    }
  }

  /**
   The loop that grows an alignment padding until nops can fill it ends exactly when the
   greatest common divisor of the alignment and the minimum nop size divides the padding; it
   then ends within as many steps as that nop has bytes.
   */
  lemma GrowthEndsOrNever(size: nat, align: nat, nop: nat)
    requires nop > 0
    ensures Gcd(align, nop) > 0
    ensures GrowToNop(size, align, nop, nop).Some? <==> size % Gcd(align, nop) == 0
    ensures (exists k: nat :: EndsAfter(size, align, nop, k)) <==> size % Gcd(align, nop) == 0
  {
    GrowthFinds(size, align, nop, nop);
    var x, y := GcdDivides(align, nop);
    if Gcd(align, nop) == 0 {
      assert false;
    }
    if k: nat :| EndsAfter(size, align, nop, k) {
      Periodic(size, align, nop, k);
      assert EndsAfter(size, align, nop, k % nop);
      EndsDivides(size, align, nop, k, x, y);
    }
    if size % Gcd(align, nop) == 0 {
      var k := DividesEnds(size, align, nop);
      Periodic(size, align, nop, k);
      assert EndsAfter(size, align, nop, k % nop);
    }
  }

  lemma EndsDivides(size: nat, align: nat, nop: nat, k: nat, x: nat, y: nat)
    requires nop > 0 && Gcd(align, nop) > 0 && EndsAfter(size, align, nop, k)
    requires align == Gcd(align, nop) * x && nop == Gcd(align, nop) * y
    ensures size % Gcd(align, nop) == 0
  {
    var q := (size + align * k) / nop;
    assert size + align * k == nop * q;
    CommonFactor(Gcd(align, nop), size, k, q, x, y);
    DivModUnique(size, Gcd(align, nop), y * q - x * k, 0);
  }

  lemma CommonFactor(g: nat, size: nat, k: nat, q: nat, x: nat, y: nat)
    requires size + (g * x) * k == (g * y) * q
    ensures size == g * (y * q - x * k)
  {
    assert (g * x) * k == g * (x * k) && (g * y) * q == g * (y * q);
    assert g * (y * q - x * k) == g * (y * q) - g * (x * k);
  }

  lemma DividesEnds(size: nat, align: nat, nop: nat) returns (k: nat)
    requires nop > 0 && Gcd(align, nop) > 0 && size % Gcd(align, nop) == 0
    ensures EndsAfter(size, align, nop, k)
  {
    var g, x, y := Gcd(align, nop), Bezout(align, nop).0, Bezout(align, nop).1;
    var c := size / g;
    BezoutIdentity(align, nop);
    Multiplied(size, g, c, x, y, align, nop);
    k := EndsFor(size, align, nop, c * x, y * c);
  }

  lemma EndsFor(size: nat, align: nat, nop: nat, w: int, z: int) returns (k: nat)
    requires nop > 0 && size == w * align + nop * z
    ensures EndsAfter(size, align, nop, k)
  {
    k := -w % nop;
    var d := -w / nop;
    Shifted(size, align, nop, w, z, d, k);
    DivModUnique(size + align * k, nop, z - align * d, 0);
  }

  lemma Multiplied(size: int, g: int, c: int, x: int, y: int, a: int, n: int)
    requires size == g * c && x * a + y * n == g
    ensures size == (c * x) * a + n * (y * c)
  {
    assert (x * a + y * n) * c == (x * a) * c + (y * n) * c;
    assert (x * a) * c == (c * x) * a && (y * n) * c == n * (y * c);
  }

  lemma Shifted(size: int, a: int, n: int, w: int, z: int, d: int, k: int)
    requires size == w * a + n * z && -w == n * d + k
    ensures size + a * k == n * (z - a * d)
  {
    assert a * k == a * (-w - n * d);
    assert a * (-w - n * d) == -(w * a) - a * (n * d);
    assert a * (n * d) == n * (a * d);
    assert n * (z - a * d) == n * z - n * (a * d);
  }

  /** Nops of two bytes never fill an odd padding that grows by an even alignment. */
  lemma OddPadding()
    ensures Gcd(4, 2) == 2 && GrowToNop(1, 4, 2, 2) == None
  {
    assert Gcd(4, 2) == Gcd(2, 0) == 2;
    GrowthEndsOrNever(1, 4, 2);
  }

  lemma Periodic(size: nat, align: nat, nop: nat, k: nat)
    requires nop > 0
    ensures EndsAfter(size, align, nop, k) == EndsAfter(size, align, nop, k % nop)
  {
    var q, r := k / nop, k % nop;
    assert align * k == align * r + nop * (align * q) by {
      assert k == nop * q + r;
      assert align * (nop * q) == nop * (align * q);
    }
    ModAddMultiple(size + align * r, nop, align * q);
  }

  /** The shortest nop sequences of 1 to 10 bytes. */
  const TRUE_NOPS: seq<seq<Byte>> := [
    [0x90],
    [0x66, 0x90],
    [0x0f, 0x1f, 0x00],
    [0x0f, 0x1f, 0x40, 0x00],
    [0x0f, 0x1f, 0x44, 0x00, 0x00],
    [0x66, 0x0f, 0x1f, 0x44, 0x00, 0x00],
    [0x0f, 0x1f, 0x80, 0x00, 0x00, 0x00, 0x00],
    [0x0f, 0x1f, 0x84, 0x00, 0x00, 0x00, 0x00, 0x00],
    [0x66, 0x0f, 0x1f, 0x84, 0x00, 0x00, 0x00, 0x00, 0x00],
    [0x66, 0x2e, 0x0f, 0x1f, 0x84, 0x00, 0x00, 0x00, 0x00, 0x00]
  ]

  /** What processors without long nops get, for 1 to 7 bytes. */
  const ALT_NOPS: seq<seq<Byte>> := [
    [0x90],
    [0x66, 0x90],
    [0x8d, 0x76, 0x00],
    [0x8d, 0x74, 0x26, 0x00],
    [0x90, 0x8d, 0x74, 0x26, 0x00],
    [0x8d, 0xb6, 0x00, 0x00, 0x00, 0x00],
    [0x8d, 0xb4, 0x26, 0x00, 0x00, 0x00, 0x00]
  ]

  function LongestNop(hasNopl: bool): nat {
    if hasNopl then 15 else 7
  }

  /** A nop of a given length: a table entry, behind prefixes when it is longer than any entry. */
  function Nop(hasNopl: bool, length: nat): (nop: seq<Byte>)
    requires 1 <= length <= LongestNop(hasNopl)
    ensures |nop| == length
  {
    var prefixes := if length <= 10 then 0 else length - 10;
    Repeat([0x66], prefixes) + (if hasNopl then TRUE_NOPS else ALT_NOPS)[length - prefixes - 1]
  }

  /** As many of the longest nops as fit, and one for the rest. */
  function NopSequence(hasNopl: bool, count: nat, longest: nat): (nops: seq<Byte>)
    requires 1 <= longest <= LongestNop(hasNopl)
    ensures |nops| == count
  {
    if count == 0 then []
    else if count <= longest then Nop(hasNopl, count)
    else Nop(hasNopl, longest) + NopSequence(hasNopl, count - longest, longest)
  }

  method WritePrefixes(prefixes: nat) returns (out: seq<Byte>)
    ensures out == Repeat([0x66], prefixes)
  {
    out := [];
    var i := 0;
    while i < prefixes
      invariant i <= prefixes && out == Repeat([0x66], i)
    {
      out := out + [0x66];
      i := i + 1;
    }
  }

  method WriteEntry(before: seq<Byte>, entry: seq<Byte>) returns (out: seq<Byte>)
    ensures out == before + entry
  {
    out := before;
    var i := 0;
    while i < |entry|
      invariant i <= |entry| && out == before + entry[..i]
    {
      out := out + [entry[i]];
      i := i + 1;
    }
  }

  method WriteNop(hasNopl: bool, length: nat) returns (out: seq<Byte>)
    requires length <= LongestNop(hasNopl)
    ensures out == if length == 0 then [] else Nop(hasNopl, length)
  {
    var prefixes: nat := if length <= 10 then 0 else length - 10;
    var rest := length - prefixes;
    out := WritePrefixes(prefixes);
    if rest > 0 {
      out := WriteEntry(out, if hasNopl then TRUE_NOPS[rest - 1] else ALT_NOPS[rest - 1]);
    }
  }

  /** The x86 nop writer: exactly `count` bytes, all of them nops. */
  method X86WriteNopData(hasNopl: bool, count: nat, longest: nat) returns (out: seq<Byte>)
    requires 1 <= longest <= LongestNop(hasNopl)
    ensures |out| == count && out == NopSequence(hasNopl, count, longest)
  {
    out := [];
    var left: nat := count;
    var again := true;
    while again
      invariant left <= count && out + NopSequence(hasNopl, left, longest) == NopSequence(hasNopl, count, longest)
      invariant !again ==> left == 0
      decreases left, again
    {
      var length := if left < longest then left else longest;
      var nop := WriteNop(hasNopl, length);
      Regroup(out, nop, NopSequence(hasNopl, left - length, longest));
      assert NopSequence(hasNopl, left, longest) == nop + NopSequence(hasNopl, left - length, longest);
      out := out + nop;
      left := left - length;
      again := left != 0;
    }
  }

  lemma Regroup(a: seq<Byte>, b: seq<Byte>, c: seq<Byte>)
    ensures (a + b) + c == a + (b + c)
  {
  }
}
