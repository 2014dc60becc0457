/**
 Eager layout: where every fragment of a section goes, computed from the first fragment on
 with nothing cached. It is the reference the lazily extended cache is compared with.
 */
module McEager {
  import opened Arith
  import opened McModel

  /** A fragment put at `start + padding`; the bundle padding comes before its contents. */
  datatype Laid = Laid(start: nat, padding: nat) {
    function Offset(): nat {
      start + padding
    }
  }

  /** The padding that brings x to the next multiple of align. */
  function OffsetToAlignment(x: nat, align: nat): (pad: nat)
    requires align > 0
  {
    if x % align == 0 then 0 else align - x % align
  }

  /** It is what `alignTo` adds: rounding up by division and multiplication. */
  lemma AlignmentRoundsUp(x: nat, align: nat)
    requires align > 0
    ensures OffsetToAlignment(x, align) == (x + align - 1) / align * align - x
    ensures (x + OffsetToAlignment(x, align)) % align == 0
  {
    var q, r := x / align, x % align;
    var up := if r == 0 then q else q + 1;
    assert align * (q + 1) == align * q + align;
    DivModUnique(x + OffsetToAlignment(x, align), align, up, 0);
    DivModUnique(x + align - 1, align, up, if r == 0 then align - 1 else r - 1);
  }

  /**
   The size reached by adding `align` to `size` until `nop` divides it, None when no number
   of additions gets there.
   */
  function GrowToNop(size: nat, align: nat, nop: nat, tries: nat): (r: Option<nat>)
    requires nop > 0
    decreases tries
  {
    if size % nop == 0 then Some(size)
    else if tries == 0 then None
    else GrowToNop(size + align, align, nop, tries - 1)
  }

  function AlignSize(backend: Backend, f: Shape, offset: nat): (r: Option<nat>)
    requires f.Align?
  {
    if offset == OFFSET_UNSET || f.alignment == 0 || backend.minNopSize == 0 then None
    else
      var size := OffsetToAlignment(offset % TWO_32, f.alignment);
      var grown := if size > 0 && f.emitNops
        then GrowToNop(size, f.alignment, backend.minNopSize, backend.minNopSize) else Some(size);
      if grown.None? then None
      else if grown.value > f.maxBytes then Some(0)
      else grown
  }

  /** The offset of fragment k of a section, None where the layout cannot give it. */
  function OffsetIn(laid: seq<Laid>, k: nat): Option<nat> {
    if k < |laid| && laid[k].Offset() != OFFSET_UNSET then Some(laid[k].Offset()) else None
  }

  /** The location an `.org` names, None when its label has no offset. */
  function OrgLocation(target: OrgTarget, laid: seq<Laid>): Option<int> {
    match target.anchor
    case None => Some(target.constant)
    case Some((k, inside)) =>
      match OffsetIn(laid, k)
      case None => None
      case Some(offset) => Some(target.constant + offset + inside)
  }

  /** `here` is the index of the `.org` fragment itself. */
  function OrgSize(f: Shape, laid: seq<Laid>, here: nat): (r: Option<nat>)
    requires f.Org?
    ensures r.Some? ==> r.value < 0x4000_0000
  {
    if f.target.None? || OffsetIn(laid, here).None? || OrgLocation(f.target.value, laid).None? then None
    else
      var size := OrgLocation(f.target.value, laid).value - OffsetIn(laid, here).value;
      if size < 0 || size >= 0x4000_0000 then None else Some(size)
  }

  /** The size of fragment `here`, given the layout up to it. */
  function FragmentSize(backend: Backend, f: Shape, laid: seq<Laid>, here: nat): Option<nat> {
    match f
    case Align(_, _, _, _, _) =>
      if here < |laid| then AlignSize(backend, f, laid[here].Offset()) else None
    case Fill(_, count) => Some(count)
    case Org(_, _) => OrgSize(f, laid, here)
    case SafeSEH(_) => Some(4)
    case _ => Some(|f.contents|)
  }

  /** The padding an instruction fragment of `size` bytes needs, `inBundle` bytes into a bundle. */
  function PaddingFrom(bundle: nat, toEnd: bool, inBundle: nat, size: nat): nat
    requires inBundle < bundle
  {
    var end := inBundle + size;
    if toEnd then
      if end == bundle then 0
      else if end < bundle then bundle - end
      else Wrap64(2 * bundle - end)
    else if inBundle > 0 && end > bundle then bundle - inBundle
    else 0
  }

  function BundlePadding(bundle: nat, toEnd: bool, offset: nat, size: nat): nat
    requires bundle > 0
  {
    PaddingFrom(bundle, toEnd, BitAnd(offset, bundle - 1), size)
  }

  predicate Bundled(env: Env, f: Shape) {
    env.bundle > 0 && f.HasInstructions()
  }

  /** The error exits: a fragment larger than a bundle, or a padding that needs more than a byte. */
  predicate BundleError(env: Env, f: Shape, start: nat) {
    Bundled(env, f) &&
    (|| (!env.relaxAll && |f.contents| > env.bundle)
     || BundlePadding(env.bundle, f.AlignToBundleEnd(), start, |f.contents|) > 0xFF)
  }

  /** The padding the layout gives a fragment; an error exit leaves it out. */
  function PaddingAt(env: Env, f: Shape, start: nat): (p: nat)
    ensures p <= 0xFF
  {
    if Bundled(env, f) && !BundleError(env, f, start)
    then BundlePadding(env.bundle, f.AlignToBundleEnd(), start, |f.contents|)
    else 0
  }

  function Place(env: Env, f: Shape, start: nat): Laid {
    Laid(start, PaddingAt(env, f, start))
  }

  /** Where the fragment after `previous` starts. */
  function Following(previous: Laid, size: Option<nat>): Option<nat> {
    match size
    case None => None
    case Some(n) => Some(previous.Offset() + n)
  }

  /** Where fragment k starts, given the layout of those before it. */
  function StartOf(env: Env, fs: seq<Shape>, laid: seq<Laid>, k: nat): Option<nat>
    requires k <= |fs| && k <= |laid|
  {
    if k == 0 then Some(env.base)
    else Following(laid[k - 1], FragmentSize(env.backend, fs[k - 1], laid, k - 1))
  }

  /**
   The layout of a section, continued past the fragments already laid out as far as it goes: it
   stops at a fragment with no start. A fragment has the padding it needs as it is in `put`, and
   takes the room it does in `passed`; the two differ while a relaxation pass is under way.
   */
  function Onward(env: Env, put: seq<Shape>, passed: seq<Shape>, laid: seq<Laid>): (all: seq<Laid>)
    requires |laid| <= |put| == |passed|
    ensures |all| <= |put|
    decreases |put| - |laid|
  {
    if |laid| == |put| then laid
    else
      match StartOf(env, passed, laid, |laid|)
      case None => laid
      case Some(start) => Onward(env, put, passed, laid + [Place(env, put[|laid|], start)])
  }

  function Mixed(env: Env, put: seq<Shape>, passed: seq<Shape>): (laid: seq<Laid>)
    requires |put| == |passed|
    ensures |laid| <= |put|
  {
    Onward(env, put, passed, [])
  }

  /** The layout of a section from its first fragment on. */
  function Eager(env: Env, fs: seq<Shape>): (laid: seq<Laid>)
    ensures |laid| <= |fs|
  {
    Mixed(env, fs, fs)
  }

  /** A size depends on the layout up to its fragment only, unless an `.org` looks ahead. */
  lemma FragmentSizeLocal(backend: Backend, f: Shape, a: seq<Laid>, b: seq<Laid>, here: nat)
    requires here < |a| && here < |b| && a[..here + 1] == b[..here + 1]
    requires LooksBack(f, here)
    ensures FragmentSize(backend, f, a, here) == FragmentSize(backend, f, b, here)
  {
    assert a[here] == a[..here + 1][here] == b[here];
    if f.Org? && f.target.Some? && f.target.value.anchor.Some? {
      var k := f.target.value.anchor.value.0;
      assert a[k] == a[..here + 1][k] == b[k];
    }
  }

  /** An `.org` target is a constant or a label no later than the `.org` itself. */
  predicate LooksBack(f: Shape, here: nat) {
    f.Org? && f.target.Some? && f.target.value.anchor.Some? ==> f.target.value.anchor.value.0 <= here
  }

  predicate AllLookBack(fs: seq<Shape>) {
    forall k :: 0 <= k < |fs| ==> LooksBack(fs[k], k)
  }

  /** Fragment k starts and is padded as it should. */
  ghost predicate MixedAt(env: Env, put: seq<Shape>, passed: seq<Shape>, laid: seq<Laid>, k: nat)
    requires k < |put| && k <= |passed| && k < |laid|
  {
    StartOf(env, passed, laid, k) == Some(laid[k].start) && laid[k].padding == PaddingAt(env, put[k], laid[k].start)
  }

  /** Each entry is right, and the layout goes as far as it can. */
  ghost predicate IsMixed(env: Env, put: seq<Shape>, passed: seq<Shape>, laid: seq<Laid>) {
    && |laid| <= |put| == |passed|
    && (forall k :: 0 <= k < |laid| ==> MixedAt(env, put, passed, laid, k))
    && (|laid| < |put| ==> StartOf(env, passed, laid, |laid|) == None)
  }

  ghost predicate LaidAt(env: Env, fs: seq<Shape>, laid: seq<Laid>, k: nat)
    requires k < |fs| && k < |laid|
  {
    MixedAt(env, fs, fs, laid, k)
  }

  /** `laid` is the layout of fs. */
  ghost predicate IsLayout(env: Env, fs: seq<Shape>, laid: seq<Laid>) {
    IsMixed(env, fs, fs, laid)
  }

  lemma StartOfAgrees(env: Env, fs: seq<Shape>, a: seq<Laid>, b: seq<Laid>, k: nat)
    requires AllLookBack(fs) && k <= |fs| && k <= |a| && k <= |b| && a[..k] == b[..k]
    ensures StartOf(env, fs, a, k) == StartOf(env, fs, b, k)
  {
    if k > 0 {
      assert a[..k][k - 1] == b[..k][k - 1];
      FragmentSizeLocal(env.backend, fs[k - 1], a, b, k - 1);
    }
  }

  lemma {:induction false} OnwardIsMixed(env: Env, put: seq<Shape>, passed: seq<Shape>, laid: seq<Laid>)
    requires AllLookBack(passed) && |laid| <= |put| == |passed|
    requires forall k :: 0 <= k < |laid| ==> MixedAt(env, put, passed, laid, k)
    ensures IsMixed(env, put, passed, Onward(env, put, passed, laid))
    decreases |put| - |laid|
  {
    if |laid| < |put| && StartOf(env, passed, laid, |laid|).Some? {
      var next := laid + [Place(env, put[|laid|], StartOf(env, passed, laid, |laid|).value)];
      forall k | 0 <= k < |next|
        ensures MixedAt(env, put, passed, next, k)
      {
        assert next[..k] == laid[..k];
        StartOfAgrees(env, passed, laid, next, k);
        assert k < |laid| ==> MixedAt(env, put, passed, laid, k);
      }
      OnwardIsMixed(env, put, passed, next);
    }
  }

  lemma MixedIs(env: Env, put: seq<Shape>, passed: seq<Shape>)
    requires AllLookBack(passed) && |put| == |passed|
    ensures IsMixed(env, put, passed, Mixed(env, put, passed))
  {
    OnwardIsMixed(env, put, passed, []);
  }

  lemma EagerIsLayout(env: Env, fs: seq<Shape>)
    requires AllLookBack(fs)
    ensures IsLayout(env, fs, Eager(env, fs))
  {
    MixedIs(env, fs, fs);
  }

  /** The first n fragments are the same. */
  predicate SameTo(fs: seq<Shape>, gs: seq<Shape>, n: int) {
    n <= |fs| && n <= |gs| && forall k :: 0 <= k < n ==> fs[k] == gs[k]
  }

  lemma SameStart(env: Env, passed: seq<Shape>, passed': seq<Shape>, a: seq<Laid>, b: seq<Laid>, k: nat)
    requires AllLookBack(passed) && AllLookBack(passed') && SameTo(passed, passed', k)
    requires k <= |a| && k <= |b| && a[..k] == b[..k]
    ensures StartOf(env, passed, a, k) == StartOf(env, passed', b, k)
  {
    StartOfAgrees(env, passed, a, b, k);
  }

  lemma {:induction false} SameEntries(env: Env, put: seq<Shape>, passed: seq<Shape>, a: seq<Laid>, put': seq<Shape>,
                                       passed': seq<Shape>, b: seq<Laid>, k: nat)
    requires AllLookBack(passed) && AllLookBack(passed')
    requires IsMixed(env, put, passed, a) && IsMixed(env, put', passed', b)
    requires SameTo(put, put', k) && SameTo(passed, passed', k - 1) && k <= |a| && k <= |b|
    ensures a[..k] == b[..k]
  {
    if k > 0 {
      SameEntries(env, put, passed, a, put', passed', b, k - 1);
      SameStart(env, passed, passed', a, b, k - 1);
      assert MixedAt(env, put, passed, a, k - 1) && MixedAt(env, put', passed', b, k - 1);
    }
  }

  predicate AgreeTo(a: seq<Laid>, b: seq<Laid>, n: nat) {
    n <= |a| && n <= |b| && forall i :: 0 <= i < n ==> a[i] == b[i]
  }

  /** Where the first n fragments are the same, and all but the last take the same room, layouts agree. */
  lemma SameUpTo(env: Env, put: seq<Shape>, passed: seq<Shape>, a: seq<Laid>, put': seq<Shape>,
                 passed': seq<Shape>, b: seq<Laid>, n: nat)
    requires AllLookBack(passed) && AllLookBack(passed')
    requires IsMixed(env, put, passed, a) && IsMixed(env, put', passed', b)
    requires SameTo(put, put', n) && SameTo(passed, passed', n - 1)
    ensures n <= |a| ==> AgreeTo(a, b, n)
    ensures n > |a| ==> AgreeTo(a, b, |a|)
  {
    var m := if n <= |a| then n else |a|;
    assert |b| < |a| ==> MixedAt(env, put, passed, a, |b|);
    if |b| < m {
      SameEntries(env, put, passed, a, put', passed', b, |b|);
      SameStart(env, passed, passed', a, b, |b|);
      assert false;
    }
    SameEntries(env, put, passed, a, put', passed', b, m);
    assert forall i :: 0 <= i < m ==> a[i] == a[..m][i] && b[i] == b[..m][i];
  }

  /** There is no other such layout, so `IsMixed` is no weaker than the recursion. */
  lemma MixedUnique(env: Env, put: seq<Shape>, passed: seq<Shape>, laid: seq<Laid>)
    requires AllLookBack(passed) && IsMixed(env, put, passed, laid)
    ensures laid == Mixed(env, put, passed)
  {
    var mixed := Mixed(env, put, passed);
    MixedIs(env, put, passed);
    SameUpTo(env, put, passed, laid, put, passed, mixed, |put|);
    SameUpTo(env, put, passed, mixed, put, passed, laid, |put|);
  }

  lemma IsLayoutUnique(env: Env, fs: seq<Shape>, laid: seq<Laid>)
    requires AllLookBack(fs) && IsLayout(env, fs, laid)
    ensures laid == Eager(env, fs)
  {
    MixedUnique(env, fs, fs, laid);
  }

  /** The same fragment, relaxed or not. */
  predicate Like(f: Shape, g: Shape) {
    f == g || (f.Relaxable? && g.Relaxable?)
  }

  /** An instruction fragment of 1 up to `bundle` bytes, with bundles of at most 256 bytes. */
  predicate FitsBundle(env: Env, f: Shape) {
    Bundled(env, f) ==> 1 <= |f.contents| <= env.bundle <= 0x100
  }

  /** A fragment that fits a bundle takes none of the error exits, wherever it starts. */
  lemma NoErrorWhereItFits(env: Env, f: Shape, start: nat)
    ensures FitsBundle(env, f) ==> !BundleError(env, f, start)
  {
    if Bundled(env, f) && FitsBundle(env, f) {
      var size := |f.contents|;
      var end := BitAnd(start, env.bundle - 1) + size;
      assert 0 < end < 2 * env.bundle;
    }
  }
}
