/**
 Bundles: with a bundle size that is a power of two, the padding the layout inserts keeps
 every instruction fragment inside one bundle, and is the least that does.
 */
module McBundle {
  import opened Arith
  import opened McModel
  import opened McEager
  import opened McImage

  /** Bytes at..at + size reach over a bundle boundary. */
  predicate Crosses(bundle: nat, at: nat, size: nat)
    requires bundle > 0
  {
    at % bundle + size > bundle
  }

  /** What the padding is for: the fragment ends with its bundle, or at least stays inside it. */
  predicate WellPlaced(bundle: nat, toEnd: bool, at: nat, size: nat)
    requires bundle > 0
  {
    if toEnd then at % bundle + size == bundle else !Crosses(bundle, at, size)
  }

  /** The remainder after a step of at most one modulus. */
  lemma ModStep(x: nat, d: nat, step: nat)
    requires d > 0 && step <= d
    ensures (x + step) % d == if x % d + step < d then x % d + step else x % d + step - d
  {
    var q, r := x / d, x % d;
    if r + step < d {
      DivModUnique(x + step, d, q, r + step);
    } else {
      assert d * (q + 1) == d * q + d;
      DivModUnique(x + step, d, q + 1, r + step - d);
    }
  }

  /** Masking by a power of two less one is what the code does to find the place in the bundle. */
  lemma PaddingByRemainder(bundle: nat, n: nat, toEnd: bool, start: nat, size: nat)
    requires bundle == Pow2(n)
    ensures BundlePadding(bundle, toEnd, start, size) == PaddingFrom(bundle, toEnd, start % bundle, size)
  {
    MaskIsMod(start, n);
  }

  /** From `inBundle`, `p` bytes of padding work exactly when they are all of `PaddingFrom`. */
  lemma OnlyThePadding(bundle: nat, toEnd: bool, inBundle: nat, size: nat, p: nat, after: nat)
    requires inBundle < bundle && 1 <= size <= bundle <= 0x4000_0000
    requires p <= PaddingFrom(bundle, toEnd, inBundle, size)
    requires after == if inBundle + p < bundle then inBundle + p else inBundle + p - bundle
    ensures PaddingFrom(bundle, toEnd, inBundle, size) < bundle
    ensures (if toEnd then after + size == bundle else after + size <= bundle)
            <==> p == PaddingFrom(bundle, toEnd, inBundle, size)
  {
  }

  lemma PaddedPlace(bundle: nat, n: nat, toEnd: bool, start: nat, size: nat, at: nat)
    requires bundle == Pow2(n) && 1 <= size <= bundle <= 0x4000_0000
    requires start <= at <= start + BundlePadding(bundle, toEnd, start, size)
    ensures BundlePadding(bundle, toEnd, start, size) < bundle
    ensures WellPlaced(bundle, toEnd, at, size) <==> at == start + BundlePadding(bundle, toEnd, start, size)
  {
    PaddingByRemainder(bundle, n, toEnd, start, size);
    OnlyThePadding(bundle, toEnd, start % bundle, size, 0, start % bundle);
    ModStep(start, bundle, at - start);
    OnlyThePadding(bundle, toEnd, start % bundle, size, at - start, at % bundle);
  }

  /** The padding works, and no smaller one would. */
  lemma PaddingIsLeast(bundle: nat, n: nat, toEnd: bool, start: nat, size: nat)
    requires bundle == Pow2(n) && 1 <= size <= bundle <= 0x4000_0000
    ensures var padding := BundlePadding(bundle, toEnd, start, size);
            && padding < bundle
            && WellPlaced(bundle, toEnd, start + padding, size)
            && forall at :: start <= at < start + padding ==> !WellPlaced(bundle, toEnd, at, size)
  {
    var padding := BundlePadding(bundle, toEnd, start, size);
    PaddedPlace(bundle, n, toEnd, start, size, start + padding);
    forall at | start <= at < start + padding
      ensures !WellPlaced(bundle, toEnd, at, size)
    {
      PaddedPlace(bundle, n, toEnd, start, size, at);
    }
  }

  /** The least p with which the fragment is well placed behind `start`. */
  ghost predicate LeastPadding(bundle: nat, toEnd: bool, start: nat, size: nat, p: nat)
    requires bundle > 0
  {
    && WellPlaced(bundle, toEnd, start + p, size)
    && forall at :: start <= at < start + p ==> !WellPlaced(bundle, toEnd, at, size)
  }

  lemma OneLeast(bundle: nat, toEnd: bool, start: nat, size: nat, p: nat, q: nat)
    requires bundle > 0 && LeastPadding(bundle, toEnd, start, size, p) && LeastPadding(bundle, toEnd, start, size, q)
    ensures p == q
  {
  }

  /** The layout pads by the least padding that works, if a byte can hold it; more is an error and no padding. */
  lemma PaddedOrError(env: Env, n: nat, f: Shape, start: nat, p: nat)
    requires env.bundle == Pow2(n) && f.HasInstructions() && 1 <= |f.contents| <= env.bundle <= 0x4000_0000
    requires LeastPadding(env.bundle, f.AlignToBundleEnd(), start, |f.contents|, p)
    ensures BundleError(env, f, start) <==> p > 255
    ensures PaddingAt(env, f, start) == if p > 255 then 0 else p
  {
    var toEnd, size := f.AlignToBundleEnd(), |f.contents|;
    PaddingIsLeast(env.bundle, n, toEnd, start, size);
    OneLeast(env.bundle, toEnd, start, size, p, BundlePadding(env.bundle, toEnd, start, size));
  }

  /** With bundling off, or without an instruction, there is none; what is larger than a bundle is an error. */
  lemma NoPadding(env: Env, f: Shape, start: nat)
    ensures env.bundle == 0 || !f.HasInstructions() ==> PaddingAt(env, f, start) == 0 && !BundleError(env, f, start)
    ensures env.bundle > 0 && f.HasInstructions() && |f.contents| > env.bundle && !env.relaxAll ==>
      BundleError(env, f, start) && PaddingAt(env, f, start) == 0
  {
  }

  /** Nop pieces written from `at` on: none of them crosses a bundle boundary. */
  predicate PiecesInside(bundle: nat, at: nat, pieces: seq<nat>)
    requires bundle > 0
    decreases |pieces|
  {
    pieces == [] || (!Crosses(bundle, at, pieces[0]) && PiecesInside(bundle, at + pieces[0], pieces[1..]))
  }

  lemma OnePieceInside(bundle: nat, at: nat, a: nat)
    requires bundle > 0 && !Crosses(bundle, at, a)
    ensures PiecesInside(bundle, at, [a]) && Sum([a]) == a
  {
    assert [a][1..] == [] && [a][..0] == [];
  }

  lemma TwoPiecesInside(bundle: nat, at: nat, a: nat, b: nat)
    requires bundle > 0 && !Crosses(bundle, at, a) && !Crosses(bundle, at + a, b)
    ensures PiecesInside(bundle, at, [a, b]) && Sum([a, b]) == a + b
  {
    OnePieceInside(bundle, at + a, b);
    assert [a, b][1..] == [b] && [a, b][..1] == [a] && [a][..0] == [];
    assert Sum([a]) == a;
  }

  /** A padding that reaches over a boundary is split there. */
  lemma SplitPadding(bundle: nat, start: nat, size: nat)
    requires 1 <= size <= bundle <= 0x4000_0000 && start % bundle + size > bundle
    ensures var padding := PaddingFrom(bundle, true, start % bundle, size);
            && padding + size > bundle
            && Sum(Pieces(bundle, true, size, padding)) == padding
            && PiecesInside(bundle, start, Pieces(bundle, true, size, padding))
  {
    var r := start % bundle;
    assert PaddingFrom(bundle, true, r, size) == 2 * bundle - (r + size);
    ModStep(start, bundle, bundle - r);
    TwoPiecesInside(bundle, start, bundle - r, bundle - size);
  }

  /** Any other padding is one piece. */
  lemma WholePadding(bundle: nat, toEnd: bool, start: nat, size: nat)
    requires 1 <= size <= bundle <= 0x4000_0000 && !(toEnd && start % bundle + size > bundle)
    ensures var padding := PaddingFrom(bundle, toEnd, start % bundle, size);
            && Sum(Pieces(bundle, toEnd, size, padding)) == padding
            && PiecesInside(bundle, start, Pieces(bundle, toEnd, size, padding))
  {
    var padding := PaddingFrom(bundle, toEnd, start % bundle, size);
    if padding > 0 {
      OnePieceInside(bundle, start, padding);
    }
  }

  /** The padding is written in pieces that add up to it and stay inside their bundles. */
  lemma PiecesAreThePadding(env: Env, n: nat, f: Shape, start: nat)
    requires env.bundle == Pow2(n) && f.HasInstructions() && FitsBundle(env, f)
    ensures var pieces := PaddingPieces(env, f, PaddingAt(env, f, start));
            Sum(pieces) == PaddingAt(env, f, start) && PiecesInside(env.bundle, start, pieces)
  {
    var bundle, toEnd, size := env.bundle, f.AlignToBundleEnd(), |f.contents|;
    NoErrorWhereItFits(env, f, start);
    PaddingByRemainder(bundle, n, toEnd, start, size);
    if toEnd && start % bundle + size > bundle {
      SplitPadding(bundle, start, size);
    } else {
      WholePadding(bundle, toEnd, start, size);
    }
  }

  /**
   In the layout of a section an instruction fragment crosses a bundle boundary exactly when
   it is larger than a bundle; the others are placed by the least padding that works.
   */
  lemma BundlesKept(env: Env, n: nat, fs: seq<Shape>, k: nat)
    requires env.bundle == Pow2(n) <= 0x100 && AllLookBack(fs)
    requires k < |Eager(env, fs)| && fs[k].HasInstructions() && |fs[k].contents| >= 1
    ensures var l, size, toEnd := Eager(env, fs)[k], |fs[k].contents|, fs[k].AlignToBundleEnd();
            && (Crosses(env.bundle, l.Offset(), size) <==> size > env.bundle)
            && (size <= env.bundle ==>
                  && WellPlaced(env.bundle, toEnd, l.Offset(), size)
                  && forall at :: l.start <= at < l.Offset() ==> !WellPlaced(env.bundle, toEnd, at, size))
  {
    var size := |fs[k].contents|;
    var laid := Eager(env, fs);
    EagerIsLayout(env, fs);
    assert LaidAt(env, fs, laid, k);
    if size <= env.bundle {
      NoErrorWhereItFits(env, fs[k], laid[k].start);
      PaddingIsLeast(env.bundle, n, fs[k].AlignToBundleEnd(), laid[k].start, size);
    }
  }
}
