/**
 The lazy layout of one section: fragment offsets are computed when asked for, and the
 section's last laid-out fragment is remembered. `Valid` says that what is cached is the layout
 of the fragments as they were when they were laid out and passed over; when none has changed
 since, that is eager layout.
 */
module McSection {
  import opened McModel
  import opened McEager
  import opened McPatch

  function OrZero(n: Option<nat>): nat {
    if n.Some? then n.value else 0
  }

  /** A section without fragments is given an empty data fragment. */
  function Filled(contents: seq<Shape>): (list: seq<Shape>)
    ensures |list| > 0
  {
    if contents == [] then [Data([], [], false, false)] else contents
  }

  class MCFragment {
    const section: nat
    const layoutOrder: nat
    var shape: Shape
    var offset: nat
    var bundlePadding: nat

    constructor (section: nat, layoutOrder: nat, shape: Shape)
      ensures this.section == section && this.layoutOrder == layoutOrder && this.shape == shape
      ensures offset == OFFSET_UNSET && bundlePadding == 0
    {
      this.section, this.layoutOrder, this.shape := section, layoutOrder, shape;
      offset, bundlePadding := OFFSET_UNSET, 0;
    }
  }

  /** How many fragments are valid once fragment k has been asked for, of n that can be. */
  function Reach(count: nat, k: nat, n: nat): nat {
    if k < count then count else if k < n then k + 1 else n
  }

  /** A section and its entry in the layout's map of last valid fragments (null when nothing is laid out). */
  class MCSection {
    const env: Env
    const ordinal: nat
    const fragments: seq<MCFragment>
    var lastValid: MCFragment?
    /** What the fragments hold. */
    ghost var shapes: seq<Shape>
    /** What each held when it was laid out, and when the next one was; then the layout this gives. */
    ghost var put: seq<Shape>
    ghost var passed: seq<Shape>
    ghost var laid: seq<Laid>

    /** A section with nothing laid out yet; an empty one gets a data fragment. */
    constructor (env: Env, ordinal: nat, contents: seq<Shape>)
      requires AllLookBack(contents) && AllSound(contents)
      ensures Valid() && fresh(fragments) && lastValid == null && Fresh()
      ensures this.env == env && this.ordinal == ordinal
      ensures shapes == Filled(contents)
    {
      var list := Filled(contents);
      var made: seq<MCFragment> := [];
      while |made| < |list|
        invariant |made| <= |list| && fresh(made)
        invariant forall k :: 0 <= k < |made| ==>
          && made[k].section == ordinal && made[k].layoutOrder == k
          && made[k].shape == list[k] && made[k].bundlePadding == 0
      {
        var f := new MCFragment(ordinal, |made|, list[|made|]);
        made := made + [f];
      }
      EagerIsLayout(env, list);
      this.env, this.ordinal, this.fragments := env, ordinal, made;
      lastValid := null;
      shapes, put, passed, laid := list, list, list, Eager(env, list);
    }

    ghost predicate Formed()
      reads this, fragments
    {
      && |shapes| == |fragments|
      && (forall k :: 0 <= k < |fragments| ==>
            && fragments[k].section == ordinal
            && fragments[k].layoutOrder == k
            && fragments[k].shape == shapes[k]
            && (!Bundled(env, shapes[k]) ==> fragments[k].bundlePadding == 0))
      && (lastValid != null ==> Owns(lastValid))
      && AllLookBack(shapes) && AllSound(shapes)
    }

    ghost predicate Wf()
      reads this, fragments
    {
      && Formed()
      && |put| == |passed| == |shapes|
      && (forall k :: 0 <= k < |shapes| ==> Kept(k))
      && AllLookBack(put) && AllSound(put) && AllLookBack(passed)
      && IsMixed(env, put, passed, laid)
    }

    /** Fragment k is what it was, but for relaxations since it was laid out or passed over. */
    ghost predicate Kept(k: nat)
      reads this
      requires k < |shapes| && k < |put| && k < |passed|
    {
      && Like(put[k], shapes[k]) && (Count() <= k ==> put[k] == shapes[k])
      && Like(passed[k], shapes[k]) && (Count() <= k + 1 ==> passed[k] == shapes[k])
    }

    /** No fragment has changed since it was laid out or passed over. */
    ghost predicate Fresh()
      reads this`shapes, this`put, this`passed
    {
      put == shapes && passed == shapes
    }

    ghost predicate Owns(f: MCFragment) {
      f.layoutOrder < |fragments| && fragments[f.layoutOrder] == f
    }

    /** The number of fragments with a valid offset. */
    function Count(): nat
      reads this
    {
      if lastValid == null then 0 else lastValid.layoutOrder + 1
    }

    /** The cached entry of f is the one of the layout. */
    ghost predicate EntryAgrees(f: MCFragment)
      reads this, f
    {
      var k := f.layoutOrder;
      && k < |laid| && k < |put|
      && f.offset == laid[k].Offset()
      && (!BundleError(env, put[k], laid[k].start) ==> f.bundlePadding == laid[k].padding)
    }

    ghost predicate Valid()
      reads this, fragments
    {
      Wf() && forall k :: 0 <= k < |fragments| && k < Count() ==> EntryAgrees(fragments[k])
    }

    ghost predicate Fits()
      reads this`shapes, this`put
    {
      && (forall k :: 0 <= k < |shapes| ==> FitsBundle(env, shapes[k]))
      && (forall k :: 0 <= k < |put| ==> FitsBundle(env, put[k]))
    }

    predicate IsFragmentValid(f: MCFragment)
      reads this
    {
      lastValid != null && f.layoutOrder <= lastValid.layoutOrder
    }

    /** The cache was only extended: entries already valid are as they were. */
    twostate predicate Extended()
      reads this, fragments
    {
      && Count() >= old(Count())
      && (forall k :: 0 <= k < |fragments| && k < old(Count()) ==>
            fragments[k].offset == old(fragments[k].offset) &&
            fragments[k].bundlePadding == old(fragments[k].bundlePadding))
    }

    twostate predicate Untouched()
      reads this, fragments
    {
      && lastValid == old(lastValid)
      && (forall f :: f in fragments ==> f.offset == old(f.offset) && f.bundlePadding == old(f.bundlePadding))
    }

    /** (size, valid) is the size of f in the layout. */
    ghost predicate SizeIs(f: MCFragment, size: nat, valid: bool)
      reads this`laid, f`shape
    {
      FragmentSize(env.backend, f.shape, laid, f.layoutOrder) == if valid then Some(size) else None
    }

    /** (offset, valid) is where the layout puts f. */
    ghost predicate OffsetIs(f: MCFragment, offset: nat, valid: bool)
      reads this`laid
    {
      OffsetIn(laid, f.layoutOrder) == if valid then Some(offset) else None
    }

    /** The computed size of a fragment; `valid` is false where it has none. */
    method ComputeFragmentSize(f: MCFragment) returns (size: nat, valid: bool)
      requires Valid() && Owns(f)
      modifies this`lastValid, fragments`offset, fragments`bundlePadding
      ensures Valid() && Extended()
      ensures old(IsFragmentValid(f)) || f.shape.HasInstructions() ==> Untouched()
      ensures old(IsFragmentValid(f)) || Fits() ==> SizeIs(f, size, valid)
      ensures !valid ==> size == 0
      decreases if IsFragmentValid(f) then 0 else 2, 3
    {
      valid := true;
      match f.shape
      case Align(_, _, _, _, _) =>
        size, valid := ComputeAlignSize(f);
      case Fill(_, count) =>
        size := count;
      case Org(_, _) =>
        size, valid := ComputeOrgSize(f);
      case SafeSEH(_) =>
        size := 4;
      case _ =>
        size := |f.shape.contents|;
    }

    /** Grows a padding until nops fill it; past `nop` steps the search would never end. */
    static method GrowSize(size: nat, align: nat, nop: nat) returns (grown: Option<nat>)
      requires nop > 0
      ensures grown == GrowToNop(size, align, nop, nop)
    {
      var reached: nat, tries: nat := size, nop;
      while reached % nop != 0 && tries > 0
        invariant GrowToNop(reached, align, nop, tries) == GrowToNop(size, align, nop, nop)
        decreases tries
      {
        reached, tries := reached + align, tries - 1;
      }
      return if reached % nop == 0 then Some(reached) else None;
    }

    method ComputeAlignSize(f: MCFragment) returns (size: nat, valid: bool)
      requires Valid() && Owns(f) && f.shape.Align?
      modifies this`lastValid, fragments`offset, fragments`bundlePadding
      ensures Valid() && Extended()
      ensures old(IsFragmentValid(f)) ==> Untouched()
      ensures old(IsFragmentValid(f)) || Fits() ==> SizeIs(f, size, valid)
      ensures !valid ==> size == 0
      decreases if IsFragmentValid(f) then 0 else 2, 2
    {
      var alignment := f.shape.alignment;
      var offset;
      offset, valid := GetFragmentOffset(f);
      if !valid || alignment == 0 || env.backend.minNopSize == 0 {
        return 0, false;
      }
      size := OffsetToAlignment(offset % TWO_32, alignment);
      if size > 0 && f.shape.emitNops {
        var grown := GrowSize(size, alignment, env.backend.minNopSize);
        if grown.None? {
          return 0, false;
        }
        size := grown.value;
      }
      if size > f.shape.maxBytes {
        size := 0;
      }
    }

    method ComputeOrgSize(f: MCFragment) returns (size: nat, valid: bool)
      requires Valid() && Owns(f) && f.shape.Org?
      modifies this`lastValid, fragments`offset, fragments`bundlePadding
      ensures Valid() && Extended()
      ensures old(IsFragmentValid(f)) ==> Untouched()
      ensures old(IsFragmentValid(f)) || Fits() ==> SizeIs(f, size, valid)
      ensures !valid ==> size == 0
      decreases if IsFragmentValid(f) then 0 else 2, 2
    {
      if f.shape.target.None? {
        return 0, false;
      }
      var offset, location;
      offset, location, valid := GetOrgParts(f);
      OrgDistance(f.shape, laid, f.layoutOrder, offset, location);
      var distance := location - offset;
      if !valid || distance < 0 || distance >= 0x4000_0000 {
        return 0, false;
      }
      size := distance;
    }

    /** Where the `.org` stands and where it leads. */
    method GetOrgParts(f: MCFragment) returns (offset: nat, location: int, valid: bool)
      requires Valid() && Owns(f) && f.shape.Org? && f.shape.target.Some?
      modifies this`lastValid, fragments`offset, fragments`bundlePadding
      ensures Valid() && Extended()
      ensures old(IsFragmentValid(f)) ==> Untouched()
      ensures old(IsFragmentValid(f)) || Fits() ==>
        if valid then OffsetIs(f, offset, true) && OrgLocation(f.shape.target.value, laid) == Some(location)
        else OffsetIn(laid, f.layoutOrder).None? || OrgLocation(f.shape.target.value, laid).None?
      decreases if IsFragmentValid(f) then 0 else 2, 1, 2
    {
      offset, valid := GetFragmentOffset(f);
      if !valid {
        return offset, 0, false;
      }
      location, valid := GetOrgLocation(f);
    }

    static lemma OrgDistance(f: Shape, laid: seq<Laid>, here: nat, offset: nat, location: int)
      requires f.Org? && f.target.Some?
      ensures OffsetIn(laid, here) == Some(offset) && OrgLocation(f.target.value, laid) == Some(location) ==>
                OrgSize(f, laid, here) ==
                if 0 <= location - offset < 0x4000_0000 then Some(location - offset) else None
    {
    }

    method GetOrgLocation(f: MCFragment) returns (location: int, valid: bool)
      requires Valid() && Owns(f) && f.shape.Org? && f.shape.target.Some?
      modifies this`lastValid, fragments`offset, fragments`bundlePadding
      ensures Valid() && Extended()
      ensures old(IsFragmentValid(f)) ==> Untouched()
      ensures old(IsFragmentValid(f)) || Fits() ==>
                OrgLocation(f.shape.target.value, laid) == if valid then Some(location) else None
      decreases if IsFragmentValid(f) then 0 else 2, 1, 1
    {
      var target := f.shape.target.value;
      if target.anchor.None? {
        return target.constant, true;
      }
      var (k, inside) := target.anchor.value;
      assert LooksBack(shapes[f.layoutOrder], f.layoutOrder);
      var anchor;
      anchor, valid := GetFragmentOffset(fragments[k]);
      return target.constant + anchor + inside, valid;
    }

    /** Lays out f when it is the next fragment to lay out; `stop` is true when it is not. */
    method LayoutFragment(f: MCFragment) returns (stop: bool)
      requires Valid() && Owns(f)
      modifies this`lastValid, fragments`offset, fragments`bundlePadding
      ensures Valid() && Extended()
      ensures old(Count()) != f.layoutOrder ==> stop && Count() == old(Count())
      ensures old(Count()) == f.layoutOrder ==>
                Count() == f.layoutOrder + 1 || (Count() == f.layoutOrder && !stop)
      ensures old(Count()) == f.layoutOrder ==> (Count() == f.layoutOrder + 1 <==> f.layoutOrder < |laid|)
      ensures old(Count()) == f.layoutOrder && stop ==> !FitsBundle(env, f.shape)
      decreases 1, 0
    {
      if IsFragmentValid(f) {
        return true;
      }
      if f.layoutOrder > 0 && !IsFragmentValid(fragments[f.layoutOrder - 1]) {
        return true;
      }
      assert forall k :: 0 <= k < f.layoutOrder ==> fragments[k] != f;
      var start, valid := NextStart(f);
      f.offset := start;
      if !valid {
        return false;
      }
      stop := PutNext(f);
    }

    /** f is the next fragment, and its offset says where it starts. */
    method PutNext(f: MCFragment) returns (stop: bool)
      requires Valid() && Owns(f) && f.layoutOrder == Count()
      requires f.layoutOrder < |laid| && f.offset == laid[f.layoutOrder].start
      modifies this`lastValid, f`offset, f`bundlePadding
      ensures Valid() && lastValid == f
      ensures stop ==> !FitsBundle(env, f.shape)
    {
      assert Kept(f.layoutOrder);
      lastValid := f;
      forall k | 0 <= k < |shapes|
        ensures Kept(k)
      {
        assert old(Kept(k));
      }
      stop := PadToBundle(f);
    }

    /** Where the next fragment to lay out starts: past its predecessor, or at the base address. */
    method NextStart(f: MCFragment) returns (start: nat, valid: bool)
      requires Valid() && Owns(f) && f.layoutOrder == Count()
      modifies this`lastValid, fragments`offset, fragments`bundlePadding
      ensures Valid() && Untouched()
      ensures valid <==> f.layoutOrder < |laid|
      ensures valid ==> start == laid[f.layoutOrder].start
      decreases 0, 4
    {
      assert f.layoutOrder > 0 ==> EntryAgrees(fragments[f.layoutOrder - 1]) && Kept(f.layoutOrder - 1);
      assert f.layoutOrder < |laid| ==> MixedAt(env, put, passed, laid, f.layoutOrder);
      if f.layoutOrder == 0 {
        return env.base, true;
      }
      var prev := fragments[f.layoutOrder - 1];
      var size;
      size, valid := ComputeFragmentSize(prev);
      start := prev.offset + size;
    }

    /** Adds the bundle padding of f, placed at its start; `stop` is true at an error exit. */
    method PadToBundle(f: MCFragment) returns (stop: bool)
      requires Wf() && Owns(f) && lastValid == f && put[f.layoutOrder] == f.shape
      requires forall k :: 0 <= k < f.layoutOrder ==> EntryAgrees(fragments[k])
      requires f.layoutOrder < |laid| && f.offset == laid[f.layoutOrder].start
      modifies f`offset, f`bundlePadding
      ensures Valid()
      ensures stop ==> !FitsBundle(env, f.shape)
    {
      var start := f.offset;
      NoErrorWhereItFits(env, f.shape, start);
      assert MixedAt(env, put, passed, laid, f.layoutOrder);
      if env.bundle == 0 || !f.shape.HasInstructions() {
        return false;
      }
      // The size of an instruction fragment is the length of its contents.
      var size := |f.shape.contents|;
      if !env.relaxAll && size > env.bundle {
        return true;
      }
      var padding := BundlePadding(env.bundle, f.shape.AlignToBundleEnd(), start, size);
      if padding > 0xFF {
        return true;
      }
      f.bundlePadding := padding;
      f.offset := f.offset + padding;
      return false;
    }

    method EnsureValid(f: MCFragment) returns (ok: bool)
      requires Valid() && Owns(f)
      modifies this`lastValid, fragments`offset, fragments`bundlePadding
      ensures Valid() && Extended()
      ensures ok ==> IsFragmentValid(f)
      ensures old(IsFragmentValid(f)) ==> ok && Untouched()
      ensures Fits() ==> (ok <==> f.layoutOrder < |laid|)
      ensures Fits() ==> Count() == Reach(old(Count()), f.layoutOrder, |laid|)
      decreases if IsFragmentValid(f) then 0 else 2, 0
    {
      var i := Count();
      CountWithin();
      while !IsFragmentValid(f)
        invariant Valid() && Extended() && Count() <= |laid|
        invariant i == Count() || (i == Count() + 1 && |laid| == Count())
        invariant i <= |fragments|
        invariant Count() <= Reach(old(Count()), f.layoutOrder, |laid|)
        invariant old(IsFragmentValid(f)) ==> Untouched()
        decreases |fragments| + 1 - i
      {
        if i == |fragments| {
          return false;
        }
        var stop := LayoutFragment(fragments[i]);
        CountWithin();
        if stop {
          return false;
        }
        i := i + 1;
      }
      assert EntryAgrees(f);
      return true;
    }

    /** The offset of a fragment, laid out first if need be. */
    method GetFragmentOffset(f: MCFragment) returns (offset: nat, valid: bool)
      requires Valid() && Owns(f)
      modifies this`lastValid, fragments`offset, fragments`bundlePadding
      ensures Valid() && Extended()
      ensures old(IsFragmentValid(f)) ==> Untouched()
      ensures !valid ==> offset == 0
      ensures old(IsFragmentValid(f)) || Fits() ==> OffsetIs(f, offset, valid)
      ensures Fits() ==> Count() == Reach(old(Count()), f.layoutOrder, |laid|)
      decreases if IsFragmentValid(f) then 0 else 2, 1, 0
    {
      var ok := EnsureValid(f);
      assert ok ==> EntryAgrees(f);
      if !ok || f.offset == OFFSET_UNSET {
        return 0, false;
      }
      return f.offset, true;
    }

    /** What is cached lies within the layout. */
    lemma CountWithin()
      requires Valid()
      ensures Count() <= |laid|
    {
      if lastValid != null {
        assert EntryAgrees(fragments[lastValid.layoutOrder]);
      }
    }

    /** Asks for the offset of the last fragment, which lays out the section as far as it goes. */
    method LayoutAll()
      requires Valid() && |fragments| > 0
      modifies this`lastValid, fragments`offset, fragments`bundlePadding
      ensures Valid()
      ensures Fits() ==> Count() == |laid|
    {
      var _, _ := GetFragmentOffset(fragments[|fragments| - 1]);
      CountWithin();
    }

    /** The end of the last fragment. The base address is counted in; what cannot be computed counts as 0. */
    method GetSectionAddressSize() returns (size: nat)
      requires Valid() && Fresh() && |fragments| > 0 && Fits()
      modifies this`lastValid, fragments`offset, fragments`bundlePadding
      ensures Valid() && Extended()
      ensures var k := |fragments| - 1;
              size == OrZero(OffsetIn(laid, k)) + OrZero(FragmentSize(env.backend, shapes[k], laid, k))
    {
      var f := fragments[|fragments| - 1];
      var offset, _ := GetFragmentOffset(f);
      var last, _ := ComputeFragmentSize(f);
      return offset + last;
    }

    /** What fragment k counts as once it is resized: as before where the cache has seen it. */
    ghost function PutAfter(k: nat, shape: Shape): seq<Shape>
      reads this
      requires k < |put|
    {
      if k < Count() then put else put[k := shape]
    }

    ghost function PassedAfter(k: nat, shape: Shape): seq<Shape>
      reads this
      requires k < |passed|
    {
      if k + 1 < Count() then passed else passed[k := shape]
    }

    /** Resizing fragment k leaves the layout as far as it is cached. */
    lemma ResizedLayout(k: nat, shape: Shape)
      requires Valid() && k < |shapes| && shapes[k].Relaxable? && shape.Relaxable?
      ensures var put', passed' := PutAfter(k, shape), PassedAfter(k, shape);
              && AllLookBack(shapes[k := shape]) && AllSound(shapes[k := shape])
              && AllLookBack(put') && AllSound(put') && AllLookBack(passed')
              && IsMixed(env, put', passed', Mixed(env, put', passed'))
              && AgreeTo(laid, Mixed(env, put', passed'), Count())
    {
      var put', passed' := PutAfter(k, shape), PassedAfter(k, shape);
      assert Kept(k);
      CountWithin();
      MixedIs(env, put', passed');
      SameUpTo(env, put, passed, laid, put', passed', Mixed(env, put', passed'), Count());
    }

    /** Gives a relaxable fragment new contents; the cache is untouched, and stale where it has seen the old ones. */
    method Resize(f: MCFragment, shape: Shape)
      requires Valid() && Owns(f) && f.shape.Relaxable? && shape.Relaxable?
      modifies f`shape, this`shapes, this`put, this`passed, this`laid
      ensures Valid() && f.shape == shape
      ensures shapes == old(shapes)[f.layoutOrder := shape]
      ensures put == old(PutAfter(f.layoutOrder, shape)) && passed == old(PassedAfter(f.layoutOrder, shape))
      ensures old(Fits()) && FitsBundle(env, shape) ==> Fits()
    {
      var k := f.layoutOrder;
      ResizedLayout(k, shape);
      f.shape := shape;
      shapes, put, passed := shapes[k := shape], PutAfter(k, shape), PassedAfter(k, shape);
      laid := Mixed(env, put, passed);
      forall i | 0 <= i < |shapes|
        ensures Kept(i)
      {
        assert old(Kept(i));
      }
      forall i | 0 <= i < |fragments| && i < Count()
        ensures EntryAgrees(fragments[i])
      {
        assert old(EntryAgrees(fragments[i]));
      }
    }

    /** Gives a fragment other bytes, no more and no fewer: everything cached stays right. */
    method Patch(f: MCFragment, contents: seq<Byte>)
      requires Valid() && Fresh() && Owns(f) && HasFixups(f.shape) && |contents| == |f.shape.contents|
      modifies f`shape, this`shapes, this`put, this`passed
      ensures Valid() && Fresh()
      ensures f.shape == WithContents(old(f.shape), contents)
      ensures shapes == old(shapes)[f.layoutOrder := f.shape]
      ensures old(Fits()) ==> Fits()
    {
      var k := f.layoutOrder;
      PatchKeepsLayout(env, shapes, laid, k, contents);
      f.shape := WithContents(f.shape, contents);
      shapes := shapes[k := f.shape];
      put, passed := shapes, shapes;
      forall i | 0 <= i < |fragments| && i < Count()
        ensures EntryAgrees(fragments[i])
      {
        assert old(EntryAgrees(fragments[i]));
      }
    }

    /** Where nothing has changed the cache is eager layout. */
    lemma UnchangedLayout(n: nat)
      requires Valid() && n <= Count() && SameTo(put, shapes, n) && SameTo(passed, shapes, n)
      ensures IsLayout(env, shapes, Eager(env, shapes))
      ensures AgreeTo(laid, Eager(env, shapes), n)
    {
      EagerIsLayout(env, shapes);
      CountWithin();
      SameUpTo(env, put, passed, laid, shapes, shapes, Eager(env, shapes), n);
    }

    /** Drops the cache from f on, the first fragment resized. */
    method InvalidateFragmentsFrom(f: MCFragment)
      requires Valid() && Owns(f)
      requires SameTo(put, shapes, f.layoutOrder) && SameTo(passed, shapes, f.layoutOrder)
      modifies this`lastValid, this`put, this`passed, this`laid
      ensures Valid() && Fresh()
      ensures Count() == if old(Count()) <= f.layoutOrder then old(Count()) else f.layoutOrder
    {
      UnchangedLayout(if Count() <= f.layoutOrder then Count() else f.layoutOrder);
      if IsFragmentValid(f) {
        lastValid := if f.layoutOrder == 0 then null else fragments[f.layoutOrder - 1];
      }
      Forget();
    }

    /** The fragments count as they are now. */
    ghost method Forget()
      requires Formed() && IsLayout(env, shapes, Eager(env, shapes)) && AgreeTo(laid, Eager(env, shapes), Count())
      requires SameTo(put, shapes, Count())
      requires forall i :: 0 <= i < Count() && i < |fragments| ==> EntryAgrees(fragments[i])
      modifies this`put, this`passed, this`laid
      ensures Valid() && Fresh()
    {
      put, passed, laid := shapes, shapes, Eager(env, shapes);
      forall i | 0 <= i < |fragments| && i < Count()
        ensures EntryAgrees(fragments[i])
      {
        assert old(EntryAgrees(fragments[i]));
      }
    }
  }
}
