/**
 The ELF streamer: appending encoded instructions to data fragments, merging a finished
 bundle group into the current fragment, and what both do to the fixups and the labels.
 */
module McStreamer {
  import opened McModel
  import opened McEager
  import opened McImage
  import opened McBundle
  import opened McWriter
  import opened McHeld
  import opened McRelax

  /** A fragment of encoded instructions; a data fragment grows at its end. */
  class EncodedFragment {
    const kind: FragmentKind
    var contents: seq<Byte>
    var fixups: seq<Fixup>
    var hasInstructions: bool
    var alignToBundleEnd: bool
    var bundlePadding: nat
    ghost var placed: seq<Placed>
    ghost var log: seq<Emission>
    ghost var groups: seq<Group>

    /** The instructions are where they were put, and the fixups are theirs. */
    ghost predicate Valid()
      reads this`contents, this`fixups, this`placed, this`log, this`hasInstructions
    {
      && AllHold(contents, placed)
      && InOrder(placed)
      && fixups == Rebased(placed)
      && log == Emissions(placed)
      && (placed != [] ==> hasInstructions)
    }

    ghost function Now(): Held
      reads this`contents, this`placed, this`log, this`groups, this`alignToBundleEnd, this`hasInstructions
    {
      Held(kind, contents, placed, log, groups, alignToBundleEnd, hasInstructions)
    }

    constructor (kind: FragmentKind)
      ensures Valid() && Now() == Nothing(kind) && bundlePadding == 0
    {
      this.kind := kind;
      contents, fixups, placed, log, groups := [], [], [], [], [];
      hasInstructions, alignToBundleEnd, bundlePadding := false, false, 0;
    }

    /** Appends bytes that are no instruction. */
    method AppendBytes(bytes: seq<Byte>)
      requires Valid()
      modifies this`contents
      ensures Valid() && Now() == WithBytes(old(Now()), bytes)
    {
      HoldsAfter(contents, bytes, placed);
      contents := contents + bytes;
    }

    method PushFixups(instFixups: seq<Fixup>, base: nat)
      modifies this`fixups
      ensures fixups == old(fixups) + RebaseAll(instFixups, base)
    {
      var i := 0;
      while i < |instFixups|
        invariant 0 <= i <= |instFixups|
        invariant fixups == old(fixups) + RebaseAll(instFixups, base)[..i]
      {
        fixups := fixups + [Rebase(instFixups[i], base)];
        i := i + 1;
      }
    }

    /** Appends an instruction. */
    method AppendInstruction(code: seq<Byte>, instFixups: seq<Fixup>)
      requires Valid()
      modifies this`contents, this`fixups, this`hasInstructions, this`placed, this`log
      ensures Valid() && Now() == WithInst(old(Now()), Emission(code, instFixups))
    {
      ghost var what := Emission(code, instFixups);
      AppendOne(contents, placed, what);
      placed, log := placed + [Placed(|contents|, what)], log + [what];
      PushFixups(instFixups, |contents|);
      hasInstructions := true;
      contents := contents + code;
    }
  }

  method MoveFixups(df: EncodedFragment, ef: EncodedFragment)
    requires df != ef
    modifies df`fixups, ef`fixups
    ensures df.fixups == old(df.fixups) + RebaseAll(old(ef.fixups), |df.contents|)
  {
    var i := 0;
    while i < |ef.fixups|
      invariant 0 <= i <= |ef.fixups| == |old(ef.fixups)|
      invariant ef.fixups[i..] == old(ef.fixups)[i..]
      invariant df.fixups == old(df.fixups) + RebaseAll(old(ef.fixups), |df.contents|)[..i]
    {
      assert ef.fixups[i] == old(ef.fixups)[i];
      ef.fixups := ef.fixups[i := Rebase(ef.fixups[i], |df.contents|)];
      df.fixups := df.fixups + [ef.fixups[i]];
      i := i + 1;
    }
  }

  /** Writes the padding that goes before `ef` when it is merged at offset `at`. */
  method PadForMerge(backend: Backend, bundle: nat, ghost power: nat, relaxAll: bool, ef: EncodedFragment, at: nat)
    returns (padding: Option<seq<Byte>>)
    requires ef.hasInstructions
    requires NopsExact(backend) && (bundle > 0 ==> power <= 30 && bundle == Pow2(power))
    modifies ef`bundlePadding
    ensures bundle > 0 && relaxAll && padding.Some? ==>
      MergedWell(bundle, ef.alignToBundleEnd, at + |padding.value|, |ef.contents|)
    ensures padding == MergePadding(backend, bundle, relaxAll, ef.contents, ef.alignToBundleEnd, at)
  {
    padding := Some([]);
    if bundle > 0 && relaxAll {
      var size := |ef.contents|;
      if size > bundle {
        return None;
      }
      var required := BundlePadding(bundle, ef.alignToBundleEnd, at, size);
      ghost var env := Env(backend, 0, bundle, relaxAll, []);
      assert PaddingPieces(env, MergeShape(ef.contents, ef.alignToBundleEnd), 0) == [];
      assert PaddingBytes(env, MergeShape(ef.contents, ef.alignToBundleEnd), 0) == Some([]);
      if required > 0xFF {
        return None;
      }
      if required > 0 {
        var writer := new MCObjectWriter();
        ef.bundlePadding := required;
        var ok := writer.WriteFragmentPadding(Env(backend, 0, bundle, relaxAll, []),
                                              MergeShape(ef.contents, ef.alignToBundleEnd), required);
        assert ok ==> writer.out == PaddingBytes(env, MergeShape(ef.contents, ef.alignToBundleEnd), required).value;
        padding := if ok then Some(writer.out) else None;
      }
      if padding.Some? && size >= 1 {
        MergePlaces(backend, bundle, power, ef.contents, ef.alignToBundleEnd, at);
      }
    }
  }

  /** A fragment holding one instruction. */
  method NewInstruction(kind: FragmentKind, code: seq<Byte>, fixups: seq<Fixup>) returns (f: EncodedFragment)
    ensures fresh(f) && f.Valid() && f.Now() == Alone(kind, Emission(code, fixups))
  {
    f := new EncodedFragment(kind);
    f.AppendInstruction(code, fixups);
  }

  /** Appends the merged group to `df`, whose padding is already there. */
  method AppendGroup(df: EncodedFragment, ef: EncodedFragment, ghost bundle: nat)
    requires df != ef && df.Valid() && ef.Valid() && GroupsPlaced(df.groups, bundle)
    requires MergedWell(bundle, ef.alignToBundleEnd, |df.contents|, |ef.contents|)
    modifies df`contents, df`fixups, df`placed, df`log, df`groups, df`hasInstructions, ef`fixups
    ensures df.Valid() && df.Now() == WithGroup(old(df.Now()), ef.Now())
    ensures GroupsPlaced(df.groups, bundle)
  {
    ghost var all := df.placed + Shift(ef.placed, |df.contents|);
    Merged(df.contents, df.placed, ef.contents, ef.placed);
    ghost var g := Group(|df.contents|, |ef.contents|, ef.alignToBundleEnd);
    GroupsPlacedAppend(df.groups, bundle, g);
    MoveFixups(df, ef);
    df.groups, df.placed, df.log := df.groups + [g], all, df.log + ef.log;
    df.hasInstructions := true;
    df.contents := df.contents + ef.contents;
  }

  datatype LockState = NotBundleLocked | BundleLocked | BundleLockedAlignToEnd

  /** The streamer at work on one section. */
  class MCELFStreamer {
    const backend: Backend
    const relaxAll: bool
    var bundle: nat
    var fragments: seq<EncodedFragment>
    var bundleGroups: seq<EncodedFragment>
    var lockState: LockState
    var lockDepth: nat
    var beforeFirstInst: bool
    var labels: map<nat, LabelPos>
    var pendingLabels: seq<nat>
    ghost var held: seq<Held>
    ghost var bundlePower: nat

    /** Fragment k holds what `held` says, and its groups are well placed. */
    ghost predicate FragmentOk(k: nat)
      reads this`fragments, this`held, this`bundle, fragments
      requires k < |fragments| && k < |held|
    {
      fragments[k].Valid() && fragments[k].Now() == held[k] && GroupsPlaced(held[k].groups, bundle)
    }

    ghost predicate LockOk()
      reads this`bundle, this`fragments, this`lockState, this`lockDepth, this`beforeFirstInst, this`bundlePower
    {
      && (lockDepth > 0 <==> lockState != NotBundleLocked)
      && (lockDepth > 0 ==> bundle > 0)
      && (lockDepth > 0 && !relaxAll && !beforeFirstInst ==> fragments != [] && Last().kind == DataKind)
      && (bundle > 0 ==> bundlePower <= 30 && bundle == Pow2(bundlePower))
    }

    /** With every relaxation done, a group is open exactly when the section is locked. */
    predicate Settled()
      reads this`bundleGroups, this`lockDepth
    {
      |bundleGroups| == if relaxAll && lockDepth > 0 then 1 else 0
    }

    /** The open bundle group is apart from the fragments. */
    ghost predicate GroupOk()
      reads this`fragments, this`bundleGroups, this`beforeFirstInst, bundleGroups
    {
      forall g :: g in bundleGroups ==>
        g.Valid() && g.kind == DataKind && g !in fragments && (!beforeFirstInst ==> g.hasInstructions)
    }

    function Last(): EncodedFragment
      reads this`fragments
      requires fragments != []
    {
      fragments[|fragments| - 1]
    }

    /** What the open bundle group holds. */
    ghost function GroupNow(): Option<Held>
      reads this`bundleGroups, bundleGroups
    {
      if bundleGroups != [] then Some(bundleGroups[0].Now()) else None
    }


    /** Every instruction emitted so far, in order. */
    ghost function Emitted(): seq<Emission>
      reads this`held, this`bundleGroups, bundleGroups
    {
      Log(held) + LogOf(GroupNow())
    }

    ghost predicate Distinct()
      reads this`fragments
    {
      forall i, j :: 0 <= i < j < |fragments| ==> fragments[i] != fragments[j]
    }

    ghost predicate FragmentsOk()
      reads this`fragments, this`held, this`bundle, fragments
    {
      |held| == |fragments| && forall k :: 0 <= k < |fragments| ==> FragmentOk(k)
    }

    /** The instructions are in the fragments where `held` says, with their fixups. */
    ghost predicate Valid()
      reads this`bundle, this`fragments, this`bundleGroups, this`lockState, this`lockDepth, this`beforeFirstInst
      reads this`held, this`bundlePower, fragments, bundleGroups
    {
      LockOk() && GroupOk() && Distinct() && FragmentsOk()
    }

    /** No byte, no instruction and no group of a fragment has moved or gone. */
    twostate predicate Extends()
      reads this`fragments, this`held
    {
      Adds() && AllLonger(old(held), held)
    }

    /** Groups that were not there are new. */
    twostate predicate GroupsNew()
      reads this`bundleGroups
    {
      forall k :: 0 <= k < |bundleGroups| ==> bundleGroups[k] in old(bundleGroups) || fresh(bundleGroups[k])
    }

    /** Fragments have come only at the end, and they are new. */
    twostate predicate Adds()
      reads this`fragments
    {
      old(fragments) <= fragments && forall k :: |old(fragments)| <= k < |fragments| ==> fresh(fragments[k])
    }

    /** With every relaxation done and bundling on, every instruction stays part of a well-placed group. */
    twostate predicate KeepsGroups()
      reads this`held, this`bundle
    {
      relaxAll && bundle > 0 && AllInGroups(old(held)) ==> AllInGroups(held)
    }

    constructor (backend: Backend, relaxAll: bool)
      ensures Valid() && Settled() && AllInGroups(held) && Emitted() == []
      ensures fragments == [] && bundle == 0 && pendingLabels == []
      ensures this.backend == backend && this.relaxAll == relaxAll
    {
      this.backend, this.relaxAll := backend, relaxAll;
      bundle, fragments, bundleGroups, lockState, lockDepth := 0, [], [], NotBundleLocked, 0;
      beforeFirstInst, labels, pendingLabels := false, map[], [];
      held, bundlePower := [], 0;
    }

    method FlushPendingLabels(fragment: int, offset: nat)
      modifies this`labels, this`pendingLabels
      ensures labels == Bind(old(labels), old(pendingLabels), LabelPos(fragment, offset))
      ensures pendingLabels == []
    {
      var i := 0;
      while i < |pendingLabels|
        invariant 0 <= i <= |pendingLabels| && pendingLabels == old(pendingLabels)
        invariant labels == BindFirst(old(labels), pendingLabels, i, LabelPos(fragment, offset))
      {
        labels := labels[pendingLabels[i] := LabelPos(fragment, offset)];
        i := i + 1;
      }
      pendingLabels := [];
    }

    /** Puts a fragment at the end of the section; waiting labels point at its first byte. */
    method Insert(f: EncodedFragment)
      requires Valid()
      requires f !in fragments && f !in bundleGroups && f.Valid() && f.groups == []
      requires lockDepth > 0 && !beforeFirstInst ==> f.kind == DataKind
      modifies this`fragments, this`labels, this`pendingLabels, this`held
      ensures Valid()
      ensures fragments == old(fragments) + [f] && held == old(held) + [f.Now()]
      ensures labels == Bind(old(labels), old(pendingLabels), LabelPos(|old(fragments)|, 0))
      ensures pendingLabels == []
    {
      FlushPendingLabels(|fragments|, 0);
      AddFragment(f);
    }

    method AddFragment(f: EncodedFragment)
      requires Valid()
      requires f !in fragments && f !in bundleGroups && f.Valid() && f.groups == []
      requires lockDepth > 0 && !beforeFirstInst ==> f.kind == DataKind
      modifies this`fragments, this`held
      ensures Valid()
      ensures fragments == old(fragments) + [f] && held == old(held) + [f.Now()]
    {
      fragments := fragments + [f];
      held := held + [f.Now()];
      Added(f);
      assert LockOk() && GroupOk();
    }

    twostate lemma Added(f: EncodedFragment)
      requires old(Valid()) && f !in old(fragments) && fragments == old(fragments) + [f] && bundle == old(bundle)
      requires held == old(held) + [f.Now()]
      requires forall g <- old(fragments) :: unchanged(g)
      requires f.Valid() && f.groups == []
      ensures FragmentsOk() && Distinct()
    {
      forall k | 0 <= k < |fragments|
        ensures FragmentOk(k)
      {
        if k < |old(fragments)| {
          var g := old(fragments)[k];
          assert g == fragments[k] && g in old(fragments) && unchanged(g) && held[k] == old(held)[k];
          assert old(FragmentOk(k));
        }
      }
    }

    /** Data goes on in the last fragment; otherwise a new one is made for it. */
    predicate Keeps()
      reads this`fragments, this`bundle, fragments
    {
      fragments != [] && Last().kind == DataKind && !(bundle > 0 && !relaxAll && Last().hasInstructions)
    }

    /** What the fragment that data goes to holds already. */
    ghost function DataHeld(): Held
      reads this`fragments, this`bundle, this`held, fragments
    {
      if Keeps() && held != [] then held[|held| - 1] else Nothing(DataKind)
    }

    /** Where the next byte of data goes. */
    function DataPlace(): LabelPos
      reads this`fragments, this`bundle, fragments
    {
      if Keeps() then LabelPos(|fragments| - 1, |Last().contents|) else LabelPos(|fragments|, 0)
    }

    /** The labels waiting are bound to one place, or go on waiting. */
    twostate predicate LabelsGo(wait: bool, place: LabelPos)
      reads this`labels, this`pendingLabels
    {
      if wait then labels == old(labels) && pendingLabels == old(pendingLabels)
      else labels == Bind(old(labels), old(pendingLabels), place) && pendingLabels == []
    }

    /** The data fragment that data goes to, a new one when the last fragment will not do. */
    method GetOrCreateDataFragment() returns (df: EncodedFragment)
      requires Valid()
      modifies this`fragments, this`labels, this`pendingLabels, this`held
      ensures Valid() && fragments != [] && Last() == df && df.kind == DataKind
      ensures if old(Keeps()) then fragments == old(fragments)
              else fresh(df) && fragments == old(fragments) + [df]
      ensures df in old(fragments) || fresh(df)
      ensures held == AtEnd(old(held), old(Keeps()), old(DataHeld())) && df.Now() == old(DataHeld())
      ensures LabelsGo(old(Keeps()), LabelPos(|old(fragments)|, 0))
    {
      if Keeps() {
        df := Last();
        LastIs();
      } else {
        df := new EncodedFragment(DataKind);
        Insert(df);
      }
    }

    /** What is known of the last fragment. */
    lemma LastIs()
      requires FragmentsOk() && fragments != []
      ensures held != [] && held[|held| - 1] == Last().Now()
      ensures Last().Valid() && GroupsPlaced(Last().groups, bundle)
    {
      assert FragmentOk(|fragments| - 1);
    }

    /** Growing the last fragment leaves the others as they are. */
    twostate lemma LastGrown(df: EncodedFragment)
      requires old(FragmentsOk()) && old(Distinct()) && fragments == old(fragments) != [] && df == Last()
      requires bundle == old(bundle)
      requires forall f <- old(fragments) :: f != df ==> unchanged(f)
      requires df.Valid() && GroupsPlaced(df.groups, bundle)
      requires held == AtEnd(old(held), true, df.Now())
      ensures FragmentsOk()
    {
      forall k | 0 <= k < |fragments|
        ensures FragmentOk(k)
      {
        assert old(FragmentOk(k));
        if k < |fragments| - 1 {
          assert fragments[k] in old(fragments) && fragments[k] != df && unchanged(fragments[k]);
        }
      }
    }

    /** Takes note of what the last fragment holds now. */
    ghost method Note(df: EncodedFragment)
      requires held != []
      modifies this`held
      ensures held == AtEnd(old(held), true, df.Now())
    {
      held := held[|held| - 1 := df.Now()];
    }

    /** Appends an instruction to the last fragment. */
    method AppendToLast(df: EncodedFragment, code: seq<Byte>, fixups: seq<Fixup>)
      requires Valid() && fragments != [] && Last() == df
      modifies this`held, df`contents, df`fixups, df`hasInstructions, df`placed, df`log
      ensures Valid() && held == AtEnd(old(held), true, WithInst(old(held)[|old(held)| - 1], Emission(code, fixups)))
    {
      LastIs();
      df.AppendInstruction(code, fixups);
      Note(df);
      LastGrown(df);
    }

    /** What a fragment of a group marked align_to_end carries. */
    function Mark(h: Held): Held
      reads this`lockState
    {
      h.(toEnd := h.toEnd || lockState == BundleLockedAlignToEnd)
    }

    method AppendGroupCode(df: EncodedFragment, code: seq<Byte>, fixups: seq<Fixup>)
      requires Valid() && bundleGroups == [df]
      modifies df`contents, df`fixups, df`hasInstructions, df`placed, df`log
      ensures Valid() && df.hasInstructions && df.Now() == WithInst(old(df.Now()), Emission(code, fixups))
    {
      df.AppendInstruction(code, fixups);
      GroupGrown(df);
    }

    /** Appends an instruction to the open bundle group. */
    method AppendToGroup(df: EncodedFragment, code: seq<Byte>, fixups: seq<Fixup>)
      requires Valid() && bundleGroups == [df] && relaxAll
      modifies this`beforeFirstInst, df`contents, df`fixups, df`hasInstructions, df`placed, df`log
      ensures Valid() && !beforeFirstInst && df.Now() == WithInst(old(df.Now()), Emission(code, fixups))
    {
      AppendGroupCode(df, code, fixups);
      beforeFirstInst := false;
      assert FragmentsOk();
    }

    /** A group marked align_to_end carries the mark. */
    method MarkGroup(df: EncodedFragment)
      requires Valid() && bundleGroups == [df]
      modifies df`alignToBundleEnd
      ensures Valid() && df.Now() == Mark(old(df.Now()))
    {
      if lockState == BundleLockedAlignToEnd {
        df.alignToBundleEnd := true;
        GroupGrown(df);
      }
    }

    /** Growing the open group leaves the fragments as they are. */
    twostate lemma GroupGrown(df: EncodedFragment)
      requires old(Valid()) && fragments == old(fragments) && old(bundleGroups) == [df] && bundle == old(bundle)
      requires forall f <- fragments :: unchanged(f)
      requires held == old(held)
      ensures FragmentsOk()
    {
      forall k | 0 <= k < |fragments|
        ensures FragmentOk(k)
      {
        assert old(FragmentOk(k)) && fragments[k] in fragments;
      }
    }

    /** Appends bytes that are no instruction to the last fragment. */
    method GrowLast(df: EncodedFragment, bytes: seq<Byte>)
      requires Valid() && fragments != [] && df == Last()
      modifies this`held, df`contents
      ensures Valid() && df.contents == old(df.contents) + bytes
      ensures held == AtEnd(old(held), true, WithBytes(old(held)[|old(held)| - 1], bytes))
    {
      LastIs();
      df.AppendBytes(bytes);
      Note(df);
      LastGrown(df);
    }

    /** Appends a finished group to the last fragment, behind the padding. */
    method TakeGroup(df: EncodedFragment, ef: EncodedFragment)
      requires Valid() && fragments != [] && df == Last()
      requires ef !in fragments && ef.Valid()
      requires MergedWell(bundle, ef.alignToBundleEnd, |df.contents|, |ef.contents|)
      modifies df`contents, df`fixups, df`placed, df`log, df`groups, df`hasInstructions, ef`fixups, this`held
      ensures FragmentsOk()
      ensures held == AtEnd(old(held), true, WithGroup(old(held)[|old(held)| - 1], ef.Now()))
    {
      LastIs();
      AppendGroup(df, ef, bundle);
      Note(df);
      LastGrown(df);
    }

    /** Merges `ef` into the last fragment, behind padding that places it well. */
    method MergePadded(df: EncodedFragment, ef: EncodedFragment, padding: seq<Byte>)
      requires Valid() && fragments != [] && df == Last()
      requires ef !in fragments && ef.Valid()
      requires MergedWell(bundle, ef.alignToBundleEnd, |df.contents| + |padding|, |ef.contents|)
      modifies df`contents, df`fixups, df`placed, df`log, df`groups, df`hasInstructions, ef`fixups
      modifies this`labels, this`pendingLabels, this`held
      ensures FragmentsOk()
      ensures held == AtEnd(old(held), true, Behind(old(held)[|old(held)| - 1], padding, ef.Now()))
      ensures LabelsGo(false, LabelPos(|fragments| - 1, |old(df.contents)| + |padding|))
    {
      GrowLast(df, padding);
      FlushPendingLabels(|fragments| - 1, |df.contents|);
      TakeGroup(df, ef);
    }

    /** The padding a group needs behind h. */
    function PaddingBehind(h: Held, g: Held): Option<seq<Byte>>
      reads this`bundle
    {
      MergePadding(backend, bundle, true, g.contents, g.toEnd, |h.contents|)
    }

    /** The padding for merging `ef` behind the last fragment. */
    method PadGroup(df: EncodedFragment, ef: EncodedFragment) returns (padding: Option<seq<Byte>>)
      requires LockOk() && NopsExact(backend) && bundle > 0 && relaxAll && ef.hasInstructions
      modifies ef`bundlePadding
      ensures padding == PaddingBehind(df.Now(), ef.Now())
      ensures padding.Some? ==>
        MergedWell(bundle, ef.alignToBundleEnd, |df.contents| + |padding.value|, |ef.contents|)
    {
      padding := PadForMerge(backend, bundle, bundlePower, relaxAll, ef, |df.contents|);
    }

    /** Merges `ef` into the last fragment, behind the padding its bundle asks for. */
    method MergeFragment(df: EncodedFragment, ef: EncodedFragment) returns (fatal: bool, ghost padding: seq<Byte>)
      requires Valid() && NopsExact(backend) && bundle > 0 && relaxAll
      requires fragments != [] && df == Last()
      requires ef !in fragments && ef.Valid() && ef.hasInstructions
      modifies df`contents, df`fixups, df`placed, df`log, df`groups, df`hasInstructions, ef`bundlePadding, ef`fixups
      modifies this`labels, this`pendingLabels, this`held
      ensures PaddingBehind(old(df.Now()), ef.Now()) == if fatal then None else Some(padding)
      ensures !fatal ==>
        && FragmentsOk()
        && held == AtEnd(old(held), true, Behind(old(df.Now()), padding, ef.Now()))
      ensures !fatal ==> LabelsGo(false, LabelPos(|fragments| - 1, |old(df.contents)| + |padding|))
    {
      LastIs();
      var bytes := PadGroup(df, ef);
      if bytes.None? {
        return true, [];
      }
      padding := bytes.value;
      MergePadded(df, ef, bytes.value);
      fatal := false;
    }

    /** How much the fragment that data goes to holds already, when all instructions are relaxed. */
    function EndOfData(): nat
      reads this`fragments, fragments
    {
      if fragments != [] && Last().kind == DataKind then |Last().contents| else 0
    }

    /**
     What labels waiting for these bytes name once they are merged: their first byte in the
     current data fragment, or offset 0 of a new one.
     */
    function PlaceOf(code: seq<Byte>, toEnd: bool): LabelPos
      reads this`fragments, this`bundle, fragments
    {
      if fragments != [] && Last().kind == DataKind
      then LabelPos(|fragments| - 1, MergeStart(backend, bundle, code, toEnd, EndOfData()))
      else LabelPos(|fragments|, 0)
    }

    /** What the fragments hold once the group has been merged into the current data fragment. */
    ghost function WithMerged(group: Held): seq<Held>
      reads this`fragments, this`bundle, this`held, fragments
    {
      AtEnd(held, Keeps(), Merge(backend, bundle, DataHeld(), group))
    }

    /** Where a group behind so much padding starts. */
    ghost function PlaceBehind(padding: seq<Byte>): LabelPos
      reads this`fragments, this`bundle, this`held, fragments
    {
      if Keeps() then LabelPos(|fragments| - 1, |DataHeld().contents| + |padding|) else LabelPos(|fragments|, 0)
    }

    /** In the words of the padding. */
    lemma MergedIs(g: Held)
      requires Valid() && bundle > 0 && relaxAll
      ensures MergePadding(backend, bundle, true, g.contents, g.toEnd, EndOfData()) == PaddingBehind(DataHeld(), g)
      ensures PaddingBehind(DataHeld(), g).Some? ==>
        var padding := PaddingBehind(DataHeld(), g).value;
        && WithMerged(g) == AtEnd(held, Keeps(), Behind(DataHeld(), padding, g))
        && PlaceOf(g.contents, g.toEnd) == PlaceBehind(padding)
    {
      if Keeps() {
        LastIs();
      }
    }

    /** What opening the current data fragment has done to the labels. */
    ghost predicate Opened(kept: bool, was: map<nat, LabelPos>, waiting: seq<nat>, first: LabelPos)
      reads this`labels, this`pendingLabels
    {
      if kept then labels == was && pendingLabels == waiting
      else labels == Bind(was, waiting, first) && pendingLabels == []
    }

    /** Merges `ef` into `df`, which holds `begun` at its end or is new. */
    method MergeAt(df: EncodedFragment, ef: EncodedFragment, ghost begun: seq<Held>, ghost kept: bool,
                   ghost was: map<nat, LabelPos>, ghost waiting: seq<nat>, ghost first: LabelPos)
      returns (fatal: bool, ghost padding: seq<Byte>)
      requires Valid() && NopsExact(backend) && bundle > 0 && relaxAll
      requires fragments != [] && df == Last()
      requires ef !in fragments && ef.Valid() && ef.hasInstructions
      requires held == AtEnd(begun, kept, df.Now()) && Opened(kept, was, waiting, first)
      modifies df`contents, df`fixups, df`placed, df`log, df`groups, df`hasInstructions, ef`bundlePadding, ef`fixups
      modifies this`labels, this`pendingLabels, this`held
      ensures PaddingBehind(old(df.Now()), ef.Now()) == if fatal then None else Some(padding)
      ensures !fatal ==> FragmentsOk() && held == AtEnd(begun, kept, Behind(old(df.Now()), padding, ef.Now()))
      ensures !fatal ==> pendingLabels == [] && labels == Bind(was, waiting,
        if kept then LabelPos(|fragments| - 1, |old(df.contents)| + |padding|) else first)
    {
      fatal, padding := MergeFragment(df, ef);
      if !fatal {
        AtEndTwice(begun, kept, old(df.Now()), Behind(old(df.Now()), padding, ef.Now()));
        BindThrough(was, waiting, old(labels), old(pendingLabels), kept, first,
          LabelPos(|fragments| - 1, |old(df.contents)| + |padding|));
      }
    }

    /** Merges `ef`, which is in no fragment yet, into the current data fragment `df` or a new one. */
    method MergeIn(ef: EncodedFragment) returns (df: EncodedFragment, fatal: bool, ghost padding: seq<Byte>)
      requires Valid() && NopsExact(backend) && bundle > 0 && relaxAll
      requires ef !in fragments && ef.Valid() && ef.hasInstructions
      modifies this`fragments, this`labels, this`pendingLabels, this`held, fragments
      modifies ef`bundlePadding, ef`fixups
      ensures PaddingBehind(old(DataHeld()), ef.Now()) == if fatal then None else Some(padding)
      ensures fragments != [] && Last() == df && df.kind == DataKind && (df in old(fragments) || fresh(df))
      ensures if old(Keeps()) then fragments == old(fragments) else fresh(df) && fragments == old(fragments) + [df]
      ensures !fatal ==> LockOk() && Distinct() && FragmentsOk()
      ensures !fatal ==> held == AtEnd(old(held), old(Keeps()), Behind(old(DataHeld()), padding, ef.Now()))
      ensures !fatal ==> LabelsGo(false, old(PlaceBehind(padding)))
    {
      ghost var kept, n := Keeps(), |fragments|;
      df := GetOrCreateDataFragment();
      fatal, padding := MergeAt(df, ef, old(held), kept, old(labels), old(pendingLabels), LabelPos(n, 0));
    }

    /** Merges an instruction on its own into the current data fragment. */
    method MergeInst(code: seq<Byte>, fixups: seq<Fixup>) returns (fatal: bool)
      requires Valid() && NopsExact(backend) && bundle > 0 && relaxAll && bundleGroups == []
      modifies this`fragments, this`labels, this`pendingLabels, this`held, fragments
      ensures !fatal ==> Valid() && Adds() && held == old(WithMerged(Alone(DataKind, Emission(code, fixups))))
      ensures !fatal ==> LabelsGo(false, old(PlaceOf(code, false)))
      ensures fatal == MergePadding(backend, bundle, true, code, false, old(EndOfData())).None?
    {
      MergedIs(Alone(DataKind, Emission(code, fixups)));
      var ef := NewInstruction(DataKind, code, fixups);
      var df;
      ghost var padding;
      df, fatal, padding := MergeIn(ef);
    }

    /** An instruction on its own with every relaxation done: merged into the last fragment at once. */
    method EmitAlone(code: seq<Byte>, fixups: seq<Fixup>) returns (fatal: bool)
      requires Valid() && Settled() && NopsExact(backend) && bundle > 0 && relaxAll && lockDepth == 0
      modifies this`fragments, this`labels, this`pendingLabels, this`held, this`beforeFirstInst, fragments
      ensures !fatal ==> Valid() && Adds() && held == old(WithMerged(Alone(DataKind, Emission(code, fixups))))
      ensures !fatal ==> LabelsGo(false, old(PlaceOf(code, false)))
      ensures fatal == MergePadding(backend, bundle, true, code, false, old(EndOfData())).None?
    {
      fatal := MergeInst(code, fixups);
      if !fatal {
        NotFirst();
      }
    }

    method NotFirst()
      requires Valid() && bundleGroups == [] && lockDepth == 0
      modifies this`beforeFirstInst
      ensures Valid()
    {
      beforeFirstInst := false;
    }

    /** A fragment of its own for an instruction. */
    method EmitApart(kind: FragmentKind, code: seq<Byte>, fixups: seq<Fixup>)
      requires Valid() && bundleGroups == []
      requires lockDepth > 0 && !beforeFirstInst ==> kind == DataKind
      modifies this`fragments, this`labels, this`pendingLabels, this`held
      ensures Valid()
      ensures |fragments| == |old(fragments)| + 1 && Adds() && fresh(Last()) && Last().kind == kind
      ensures held == old(held) + [Alone(kind, Emission(code, fixups))]
      ensures LabelsGo(false, LabelPos(|old(fragments)|, 0))
    {
      var f := NewInstruction(kind, code, fixups);
      Insert(f);
    }

    /** Inside a locked group with every relaxation done: the open group is used again. */
    method EmitToGroup(code: seq<Byte>, fixups: seq<Fixup>)
      requires Valid() && Settled() && relaxAll && lockDepth > 0
      modifies this`beforeFirstInst, bundleGroups
      ensures Valid()
      ensures GroupNow() == Some(WithInst(Mark(old(GroupNow()).value), Emission(code, fixups)))
    {
      var df := bundleGroups[|bundleGroups| - 1];
      MarkGroup(df);
      AppendToGroup(df, code, fixups);
    }

    /** The first instruction of a locked group, or one outside that has fixups. */
    method EmitFirst(code: seq<Byte>, fixups: seq<Fixup>)
      requires Valid() && Settled() && !relaxAll
      modifies this`fragments, this`labels, this`pendingLabels, this`held, this`beforeFirstInst
      ensures Valid() && Adds()
      ensures held == old(held) + [Mark(Alone(DataKind, Emission(code, fixups)))]
      ensures LabelsGo(false, LabelPos(|old(fragments)|, 0))
    {
      EmitApart(DataKind, code, fixups);
      MarkEnd(Last());
      beforeFirstInst := false;
    }

    /** Inside a locked group the current fragment is used again. */
    method EmitInGroup(code: seq<Byte>, fixups: seq<Fixup>)
      requires Valid() && Settled() && !relaxAll && lockDepth > 0 && !beforeFirstInst
      modifies this`held, fragments
      ensures Valid() && old(held) != []
      ensures held == AtEnd(old(held), true, WithInst(Mark(old(held)[|old(held)| - 1]), Emission(code, fixups)))
    {
      MarkEnd(Last());
      AppendToLast(Last(), code, fixups);
    }

    /** An instruction goes behind another one, so that labels waiting go on waiting. */
    predicate JoinsOn()
      reads this`fragments, this`bundle, this`lockDepth, this`beforeFirstInst, fragments
    {
      if bundle > 0 then lockDepth > 0 && (relaxAll || !beforeFirstInst) else Keeps()
    }

    /** What labels waiting for an instruction of these bytes name otherwise. */
    function InstPlace(code: seq<Byte>): LabelPos
      reads this`fragments, this`bundle, fragments
    {
      if bundle > 0 && relaxAll then PlaceOf(code, false) else LabelPos(|fragments|, 0)
    }

    /** What the fragments hold once the instruction is emitted as data. */
    ghost function WithEmitted(what: Emission): seq<Held>
      reads this`fragments, this`bundle, this`held, this`lockState, this`lockDepth, this`beforeFirstInst, fragments
    {
      if bundle == 0 then AtEnd(held, Keeps(), WithInst(DataHeld(), what))
      else if relaxAll then if lockDepth > 0 then held else WithMerged(Alone(DataKind, what))
      else if lockDepth > 0 && !beforeFirstInst && held != []
      then AtEnd(held, true, WithInst(Mark(held[|held| - 1]), what))
      else if lockDepth == 0 && |what.fixups| == 0 then held + [Alone(CompactKind, what)]
      else held + [Mark(Alone(DataKind, what))]
    }

    /** What the open group holds then. */
    ghost function GroupWith(what: Emission): Option<Held>
      reads this`bundleGroups, this`lockState, bundleGroups
    {
      if bundleGroups == [] then None else Some(WithInst(Mark(GroupNow().value), what))
    }

    /** An instruction outside any group cannot be merged. */
    predicate WontMerge(code: seq<Byte>)
      reads this`fragments, this`bundle, this`lockDepth, fragments
    {
      bundle > 0 && relaxAll && lockDepth == 0 && MergePadding(backend, bundle, true, code, false, EndOfData()).None?
    }

    /** Bundling on: the fragment depends on the lock and on whether everything is relaxed. */
    method EmitBundled(code: seq<Byte>, fixups: seq<Fixup>) returns (fatal: bool)
      requires Valid() && Settled() && NopsExact(backend) && bundle > 0
      modifies this`fragments, this`labels, this`pendingLabels, this`held, this`beforeFirstInst
      modifies fragments, bundleGroups
      ensures !fatal ==> Valid() && Adds()
      ensures !fatal ==>
        held == old(WithEmitted(Emission(code, fixups))) && GroupNow() == old(GroupWith(Emission(code, fixups)))
      ensures !fatal ==> LabelsGo(old(JoinsOn()), old(InstPlace(code)))
      ensures fatal == old(WontMerge(code))
    {
      fatal := false;
      if relaxAll && lockDepth > 0 {
        EmitToGroup(code, fixups);
      } else if relaxAll {
        fatal := EmitAlone(code, fixups);
      } else if lockDepth > 0 && !beforeFirstInst {
        EmitInGroup(code, fixups);
      } else if lockDepth == 0 && |fixups| == 0 {
        EmitApart(CompactKind, code, []);
      } else {
        EmitFirst(code, fixups);
      }
    }

    /** The instruction's code and fixups, with bundling on or off. */
    method EmitCode(code: seq<Byte>, fixups: seq<Fixup>) returns (fatal: bool)
      requires Valid() && Settled() && NopsExact(backend)
      modifies this`fragments, this`labels, this`pendingLabels, this`held, this`beforeFirstInst
      modifies fragments, bundleGroups
      ensures !fatal ==> Valid() && Adds()
      ensures !fatal ==>
        held == old(WithEmitted(Emission(code, fixups))) && GroupNow() == old(GroupWith(Emission(code, fixups)))
      ensures !fatal ==> LabelsGo(old(JoinsOn()), old(InstPlace(code)))
      ensures fatal == old(WontMerge(code))
    {
      if bundle > 0 {
        fatal := EmitBundled(code, fixups);
      } else {
        EmitPlain(code, fixups);
        fatal := false;
      }
    }

    /** Emits an encoded instruction. */
    method EmitInstToData(inst: Inst) returns (fatal: bool)
      requires Valid() && Settled() && NopsExact(backend)
      modifies this`fragments, this`labels, this`pendingLabels, this`held, this`beforeFirstInst
      modifies fragments, bundleGroups
      ensures !fatal ==> Valid() && Settled() && Extends() && Emitted() == old(Emitted()) + [Encoded(inst)]
      ensures !fatal ==> held == old(WithEmitted(Encoded(inst))) && GroupNow() == old(GroupWith(Encoded(inst)))
      ensures !fatal ==> KeepsGroups()
      ensures !fatal ==> LabelsGo(old(JoinsOn()), old(InstPlace(Encoded(inst).code)))
      ensures fatal == old(WontMerge(Encoded(inst).code))
    {
      ghost var what := Encoded(inst);
      EmittedWell(what);
      var (code, fixups) := backend.encode(inst);
      assert Emission(code, fixups) == what;
      fatal := EmitCode(code, fixups);
    }

    /** Emitting an instruction moves nothing. */
    lemma EmittedLonger(what: Emission)
      requires Valid()
      ensures AllLonger(held, WithEmitted(what))
    {
      if Keeps() {
        LastIs();
        MergeLonger(backend, bundle, DataHeld(), Alone(DataKind, what));
      }
    }

    lemma LastInGroups()
      requires Valid() && AllInGroups(held)
      ensures InGroups(DataHeld())
    {
      if Keeps() {
        LastIs();
      }
    }

    /** It is part of a group, or on its own one. */
    lemma EmittedInGroups(what: Emission)
      requires Valid() && Settled() && bundle > 0 && relaxAll && AllInGroups(held)
      ensures AllInGroups(WithEmitted(what))
    {
      if lockDepth == 0 {
        LastInGroups();
        assert Holds(what.code, Placed(0, what));
        MergeInGroups(backend, bundle, DataHeld(), Alone(DataKind, what));
      }
    }

    /** It comes last, in the fragments or in the open group. */
    lemma EmittedLast(what: Emission)
      requires Valid() && Settled() && !WontMerge(what.code)
      ensures Log(WithEmitted(what)) + LogOf(GroupWith(what)) == Emitted() + [what]
    {
      if bundle > 0 && relaxAll {
        MergedIs(Alone(DataKind, what));
      } else if Keeps() {
        LastIs();
      }
      var kept := if bundle > 0 && !relaxAll then lockDepth > 0 && !beforeFirstInst else Keeps();
      if bundle > 0 && relaxAll && lockDepth > 0 {
        assert (Log(held) + LogOf(GroupNow())) + [what] == Log(held) + (LogOf(GroupNow()) + [what]);
      } else {
        var all := WithEmitted(what);
        LogLonger(held, kept, all[|all| - 1], [what]);
        assert Log(held) + [] == Log(held) && Log(all) + [] == Log(all);
      }
    }

    /** All together. */
    lemma EmittedWell(what: Emission)
      requires Valid() && Settled()
      ensures AllLonger(held, WithEmitted(what))
      ensures !WontMerge(what.code) ==> Log(WithEmitted(what)) + LogOf(GroupWith(what)) == Emitted() + [what]
      ensures bundle > 0 && relaxAll && AllInGroups(held) ==> AllInGroups(WithEmitted(what))
    {
      EmittedLonger(what);
      if !WontMerge(what.code) {
        EmittedLast(what);
      }
      if bundle > 0 && relaxAll && AllInGroups(held) {
        EmittedInGroups(what);
      }
    }

    /** Labels bound by an instruction name its first byte. */
    lemma InstructionNamed(what: Emission)
      requires Valid() && Settled() && NopsExact(backend) && !JoinsOn() && !WontMerge(what.code)
      ensures var all, at := WithEmitted(what), InstPlace(what.code);
              && |all| == at.fragment + 1 && all[|all| - 1].placed != []
              && all[|all| - 1].placed[|all[|all| - 1].placed| - 1] == Placed(at.offset, what)
              && at.offset + |what.code| == |all[|all| - 1].contents|
              && all[|all| - 1].contents[at.offset..] == what.code
    {
      if bundle > 0 && relaxAll {
        MergedIs(Alone(DataKind, what));
        if !Keeps() {
          LabelsOfNewFragment(backend, bundle, bundlePower, what.code, false);
        }
      }
    }

    /** Bundling off: the current data fragment, whatever is in it. */
    method EmitPlain(code: seq<Byte>, fixups: seq<Fixup>)
      requires Valid() && Settled() && bundle == 0
      modifies this`fragments, this`labels, this`pendingLabels, this`held, fragments
      ensures Valid() && Adds()
      ensures held == AtEnd(old(held), old(Keeps()), WithInst(old(DataHeld()), Emission(code, fixups)))
      ensures LabelsGo(old(JoinsOn()), LabelPos(|old(fragments)|, 0))
    {
      var df := GetOrCreateDataFragment();
      AppendToLast(df, code, fixups);
    }

    function Encoded(inst: Inst): Emission {
      Emission(backend.encode(inst).0, backend.encode(inst).1)
    }

    /** A fragment of a group marked align_to_end carries the mark. */
    method MarkEnd(df: EncodedFragment)
      requires Valid() && fragments != [] && df == Last()
      modifies this`held, df`alignToBundleEnd
      ensures Valid() && held == AtEnd(old(held), true, Mark(old(held)[|old(held)| - 1]))
    {
      LastIs();
      if lockState == BundleLockedAlignToEnd {
        df.alignToBundleEnd := true;
        Note(df);
        LastGrown(df);
      }
    }

    /** Emits an instruction that may still be relaxed, into a fragment of its own. */
    method EmitInstToFragment(inst: Inst)
      requires Valid() && Settled() && !(bundle > 0 && (relaxAll || lockDepth > 0))
      modifies this`fragments, this`labels, this`pendingLabels, this`held
      ensures Valid() && Settled() && Extends() && Emitted() == old(Emitted()) + [Encoded(inst)]
      ensures |fragments| == |old(fragments)| + 1 && Last().kind == RelaxableKind
      ensures held == old(held) + [Alone(RelaxableKind, Encoded(inst))]
      ensures LabelsGo(false, LabelPos(|old(fragments)|, 0))
    {
      LogLonger(held, false, Alone(RelaxableKind, Encoded(inst)), [Encoded(inst)]);
      var (code, fixups) := backend.encode(inst);
      EmitApart(RelaxableKind, code, fixups);
      assert Log(held) + [] == Log(held) && Log(old(held)) + [] == Log(old(held));
    }

    /** What is emitted for an instruction: its relaxed form when everything is relaxed or a group is open. */
    function Chosen(inst: Inst, ghost rank: Inst -> nat): Inst
      requires RelaxationLowers(backend, rank)
      reads this`bundle, this`lockDepth
    {
      if relaxAll || (bundle > 0 && lockDepth > 0) then FullyRelaxed(backend, rank, inst) else inst
    }

    /** What the fragments hold once the instruction is emitted; one that may need relaxation is on its own. */
    ghost function WithChosen(inst: Inst): seq<Held>
      reads this`fragments, this`bundle, this`held, this`lockState, this`lockDepth, this`beforeFirstInst, fragments
    {
      if backend.mayNeedRelaxation(inst) then held + [Alone(RelaxableKind, Encoded(inst))]
      else WithEmitted(Encoded(inst))
    }

    /** Emits an instruction: as data unless it may need relaxation later. */
    method EmitInstruction(inst: Inst, ghost rank: Inst -> nat) returns (fatal: bool)
      requires Valid() && Settled() && NopsExact(backend) && RelaxationLowers(backend, rank)
      modifies this`fragments, this`labels, this`pendingLabels, this`held, this`beforeFirstInst
      modifies fragments, bundleGroups
      ensures !fatal ==>
        Valid() && Settled() && Extends() && Emitted() == old(Emitted()) + [Encoded(Chosen(inst, rank))]
      ensures !fatal ==>
        && held == old(WithChosen(Chosen(inst, rank))) && GroupNow() == old(GroupWith(Encoded(Chosen(inst, rank))))
        && KeepsGroups()
      ensures var code := Encoded(Chosen(inst, rank)).code;
              && fatal == old(WontMerge(code))
              && (!fatal ==> LabelsGo(old(JoinsOn()) && !backend.mayNeedRelaxation(Chosen(inst, rank)),
                               old(InstPlace(code))))
    {
      if !backend.mayNeedRelaxation(inst) {
        fatal := EmitInstToData(inst);
      } else if relaxAll || (bundle > 0 && lockDepth > 0) {
        var relaxed := backend.relaxInstruction(inst);
        while backend.mayNeedRelaxation(relaxed)
          invariant FullyRelaxed(backend, rank, relaxed) == FullyRelaxed(backend, rank, inst)
          decreases rank(relaxed)
        {
          relaxed := backend.relaxInstruction(relaxed);
        }
        fatal := EmitInstToData(relaxed);
      } else {
        EmitInstToFragment(inst);
        fatal := false;
      }
    }

    /** A label points at the end of the current data fragment, or waits for the next fragment. */
    method EmitLabel(symbol: nat)
      requires Valid()
      modifies this`labels, this`pendingLabels
      ensures Valid()
      ensures
        if fragments != [] && Last().kind == DataKind && !(bundle > 0 && relaxAll) then
          && labels == old(labels)[symbol := LabelPos(|fragments| - 1, |Last().contents|)]
          && pendingLabels == old(pendingLabels)
        else labels == old(labels) && pendingLabels == old(pendingLabels) + [symbol]
    {
      if fragments != [] && Last().kind == DataKind && !(bundle > 0 && relaxAll) {
        labels := labels[symbol := LabelPos(|fragments| - 1, |Last().contents|)];
      } else {
        pendingLabels := pendingLabels + [symbol];
      }
    }

    /** What the fragments hold once bytes are emitted. */
    ghost function WithData(bytes: seq<Byte>): seq<Held>
      reads this`fragments, this`bundle, this`held, fragments
    {
      AtEnd(held, Keeps(), WithBytes(DataHeld(), bytes))
    }

    lemma DataInGroups(bytes: seq<Byte>)
      requires Valid() && AllInGroups(held)
      ensures AllInGroups(WithData(bytes))
    {
      LastInGroups();
      BytesInGroups(DataHeld(), bytes);
    }

    /** Bytes move nothing and are no instruction. */
    lemma DataIsNoInstruction(bytes: seq<Byte>)
      requires Valid()
      ensures AllLonger(held, WithData(bytes)) && Log(WithData(bytes)) == Log(held)
      ensures AllInGroups(held) ==> AllInGroups(WithData(bytes))
    {
      if AllInGroups(held) {
        DataInGroups(bytes);
      }
      if Keeps() {
        LastIs();
      }
      LogLonger(held, Keeps(), WithBytes(DataHeld(), bytes), []);
    }

    /** Emits bytes that are no instruction. */
    method EmitBytes(bytes: seq<Byte>)
      requires Valid() && Settled()
      modifies this`fragments, this`labels, this`pendingLabels, this`held, fragments`contents
      ensures Valid() && Settled() && Extends() && Emitted() == old(Emitted())
      ensures held == old(WithData(bytes)) && GroupNow() == old(GroupNow())
      ensures AllInGroups(old(held)) ==> AllInGroups(held)
      ensures LabelsGo(false, old(DataPlace()))
    {
      DataIsNoInstruction(bytes);
      PutData(bytes);
    }

    method PutData(bytes: seq<Byte>)
      requires Valid()
      modifies this`fragments, this`labels, this`pendingLabels, this`held, fragments`contents
      ensures Valid() && Adds()
      ensures held == old(WithData(bytes)) && LabelsGo(false, old(DataPlace()))
    {
      ghost var kept, place, h := Keeps(), DataPlace(), DataHeld();
      if kept {
        LastIs();
      }
      var df := GetOrCreateDataFragment();
      BindThrough(old(labels), old(pendingLabels), labels, pendingLabels, kept, place, place);
      AtEndTwice(old(held), kept, h, WithBytes(h, bytes));
      AppendData(df, bytes);
    }

    method AppendData(df: EncodedFragment, bytes: seq<Byte>)
      requires Valid() && fragments != [] && df == Last()
      modifies this`labels, this`pendingLabels, this`held, df`contents
      ensures Valid() && held == AtEnd(old(held), true, WithBytes(old(held)[|old(held)| - 1], bytes))
      ensures LabelsGo(false, LabelPos(|fragments| - 1, |old(df.contents)|))
    {
      FlushPendingLabels(|fragments| - 1, |df.contents|);
      GrowLast(df, bytes);
    }

    /** The bundle size is a power of two and never changes once it is set. */
    method EmitBundleAlignMode(power: nat) returns (fatal: bool)
      requires Valid() && Settled() && power <= 30
      modifies this`bundle, this`bundlePower
      ensures Valid() && Settled()
      ensures fatal <==> power == 0 || (old(bundle) != 0 && old(bundle) != Pow2(power))
      ensures bundle == if fatal then old(bundle) else Pow2(power)
    {
      if power > 0 && (bundle == 0 || bundle == Pow2(power)) {
        if bundle == 0 {
          bundle, bundlePower := Pow2(power), power;
          forall k | 0 <= k < |fragments|
            ensures FragmentOk(k)
          {
            assert old(FragmentOk(k));
          }
        }
        fatal := false;
      } else {
        fatal := true;
      }
    }

    /** Opens a group, or nests in the open one. */
    method EmitBundleLock(alignToEnd: bool) returns (fatal: bool)
      requires Valid() && Settled()
      modifies this`lockState, this`lockDepth, this`beforeFirstInst, this`bundleGroups
      ensures fatal <==> bundle == 0
      ensures Valid() && Settled() && Emitted() == old(Emitted())
      ensures !fatal ==>
        && lockDepth == old(lockDepth) + 1
        && lockState == (if alignToEnd || old(lockState) == BundleLockedAlignToEnd then BundleLockedAlignToEnd
            else BundleLocked)
        && (if old(lockDepth) > 0 then beforeFirstInst == old(beforeFirstInst) && bundleGroups == old(bundleGroups)
            else beforeFirstInst && GroupNow() == (if relaxAll then Some(Nothing(DataKind)) else None) && GroupsNew())
    {
      if bundle == 0 {
        return true;
      }
      if lockDepth == 0 {
        OpenGroup();
      }
      if lockState != BundleLockedAlignToEnd {
        lockState := if alignToEnd then BundleLockedAlignToEnd else BundleLocked;
      }
      lockDepth := lockDepth + 1;
      fatal := false;
    }

    method OpenGroup()
      requires Valid() && Settled() && lockDepth == 0
      modifies this`beforeFirstInst, this`bundleGroups
      ensures Valid() && beforeFirstInst && |bundleGroups| == if relaxAll then 1 else 0
      ensures GroupNow() == (if relaxAll then Some(Nothing(DataKind)) else None) && GroupsNew()
    {
      beforeFirstInst := true;
      if relaxAll {
        var df := new EncodedFragment(DataKind);
        bundleGroups := bundleGroups + [df];
      }
    }

    method CloseLock()
      requires Valid() && lockDepth > 0
      modifies this`lockState, this`lockDepth
      ensures Valid() && lockDepth == old(lockDepth) - 1
      ensures lockState == if lockDepth == 0 then NotBundleLocked else old(lockState)
    {
      lockDepth := lockDepth - 1;
      if lockDepth == 0 {
        lockState := NotBundleLocked;
      }
    }

    /** The group cannot be merged into the current data fragment. */
    predicate WontFit(ef: EncodedFragment)
      reads this`fragments, this`bundle, fragments, ef`contents, ef`alignToBundleEnd
    {
      MergePadding(backend, bundle, relaxAll, ef.contents, ef.alignToBundleEnd, EndOfData()).None?
    }

    /** Merges the open group into the current data fragment and drops it. */
    method CloseGroup(ef: EncodedFragment) returns (df: EncodedFragment, fatal: bool)
      requires Valid() && NopsExact(backend) && bundle > 0 && relaxAll
      requires bundleGroups == [ef] && ef.hasInstructions
      modifies this`fragments, this`labels, this`pendingLabels, this`held, this`bundleGroups
      modifies fragments, ef`bundlePadding, ef`fixups
      ensures fatal == old(WontFit(ef))
      ensures fragments != [] && Last() == df && df.kind == DataKind && (df in old(fragments) || fresh(df))
      ensures !fatal ==> Valid() && bundleGroups == [] && Adds()
      ensures !fatal ==> held == old(WithMerged(ef.Now()))
      ensures !fatal ==> LabelsGo(false, old(PlaceOf(ef.contents, ef.alignToBundleEnd)))
    {
      MergedIs(ef.Now());
      ghost var padding;
      assert ef in bundleGroups;
      df, fatal, padding := MergeIn(ef);
      if !fatal {
        DropGroup();
      }
    }

    /** The open group is gone, once its instructions are in the fragments. */
    method DropGroup()
      requires LockOk() && Distinct() && FragmentsOk()
      modifies this`bundleGroups
      ensures Valid() && bundleGroups == []
    {
      bundleGroups := [];
    }

    /** What the fragments hold once the current data fragment is no longer marked align_to_end. */
    ghost function WithUnmarked(): seq<Held>
      reads this`fragments, this`bundle, this`held, fragments
    {
      AtEnd(held, Keeps(), DataHeld().(toEnd := false))
    }

    /** The current data fragment is no longer marked align_to_end. */
    method Unmark()
      requires Valid()
      modifies this`fragments, this`labels, this`pendingLabels, this`held
      modifies (if fragments != [] then {Last()} else {})`alignToBundleEnd
      ensures Valid() && Adds()
      ensures held == old(WithUnmarked())
      ensures LabelsGo(old(Keeps()), LabelPos(|old(fragments)|, 0))
    {
      var df := GetOrCreateDataFragment();
      ResetEnd(df);
    }

    method ResetEnd(df: EncodedFragment)
      requires Valid() && fragments != [] && df == Last()
      modifies this`held, df`alignToBundleEnd
      ensures Valid() && held == AtEnd(old(held), true, old(held)[|old(held)| - 1].(toEnd := false))
    {
      LastIs();
      df.alignToBundleEnd := false;
      Note(df);
      LastGrown(df);
    }

    /** The last lock closed when every relaxation is done: the group is merged. */
    method UnlockLast(ef: EncodedFragment) returns (fatal: bool)
      requires Valid() && NopsExact(backend) && bundle > 0 && relaxAll && lockDepth == 0
      requires bundleGroups == [ef] && ef.hasInstructions
      modifies this`fragments, this`labels, this`pendingLabels, this`held, this`bundleGroups
      modifies fragments, ef
      ensures fatal == old(WontFit(ef))
      ensures !fatal ==> Valid() && bundleGroups == [] && Adds()
      ensures !fatal ==> held == AtEnd(old(held), old(Keeps()),
                                       Merge(backend, bundle, old(DataHeld()), old(ef.Now())).(toEnd := false))
      ensures !fatal ==> LabelsGo(false, old(PlaceOf(ef.contents, ef.alignToBundleEnd)))
    {
      ghost var kept, h := Keeps(), Merge(backend, bundle, DataHeld(), ef.Now());
      var df;
      df, fatal := CloseGroup(ef);
      if !fatal {
        AtEndTwice(old(held), kept, h, h.(toEnd := false));
        Unmark();
      }
    }

    /** What the fragments hold once a lock is closed while every relaxation is done. */
    ghost function WithUnlocked(): seq<Held>
      reads this`fragments, this`bundle, this`bundleGroups, this`held, this`lockState, this`lockDepth
      reads fragments, bundleGroups
    {
      if lockDepth == 1 && bundleGroups != [] then
        AtEnd(held, Keeps(), Merge(backend, bundle, DataHeld(), GroupNow().value).(toEnd := false))
      else if lockState == BundleLockedAlignToEnd then held
      else WithUnmarked()
    }

    /** What labels waiting name when a lock is closed: the group's place, or a new fragment. */
    function UnlockPlace(): LabelPos
      reads this`fragments, this`bundle, this`bundleGroups, this`lockDepth, fragments, bundleGroups
    {
      if lockDepth == 1 && bundleGroups != [] then PlaceOf(bundleGroups[0].contents, bundleGroups[0].alignToBundleEnd)
      else LabelPos(|fragments|, 0)
    }

    /** A lock that is not the last one closed when every relaxation is done. */
    method UnlockInner()
      requires Valid() && relaxAll && lockDepth > 0
      modifies this`fragments, this`labels, this`pendingLabels, this`held
      modifies (if fragments != [] then {Last()} else {})`alignToBundleEnd
      ensures Valid() && Adds()
      ensures held == if lockState == BundleLockedAlignToEnd then old(held) else old(WithUnmarked())
      ensures LabelsGo(lockState == BundleLockedAlignToEnd || old(Keeps()), LabelPos(|old(fragments)|, 0))
    {
      if lockState != BundleLockedAlignToEnd {
        Unmark();
      }
    }

    /** Closes one lock when every relaxation is done. */
    method UnlockGroup(ef: EncodedFragment) returns (fatal: bool)
      requires Valid() && NopsExact(backend) && bundle > 0 && relaxAll && lockDepth > 0
      requires bundleGroups == [ef] && ef.hasInstructions
      modifies this`fragments, this`labels, this`pendingLabels, this`held, this`bundleGroups
      modifies this`lockState, this`lockDepth, fragments, ef
      ensures fatal <==> old(lockDepth) == 1 && old(WontFit(ef))
      ensures !fatal ==> Valid() && Settled() && Adds()
      ensures !fatal ==> held == old(WithUnlocked())
      ensures !fatal ==> lockDepth == old(lockDepth) - 1
      ensures !fatal ==> lockState == if lockDepth == 0 then NotBundleLocked else old(lockState)
      ensures !fatal ==> (if lockDepth == 0 then bundleGroups == []
                          else bundleGroups == old(bundleGroups) && ef.Now() == old(ef.Now()))
      ensures !fatal ==> LabelsGo(lockDepth > 0 && (lockState == BundleLockedAlignToEnd || old(Keeps())),
                           old(UnlockPlace()))
    {
      CloseLock();
      fatal := false;
      if lockDepth == 0 {
        fatal := UnlockLast(ef);
      } else {
        assert fragments != [] ==> Last() in fragments;
        UnlockInner();
      }
    }

    /** Closing a lock moves nothing. */
    lemma UnlockedLonger()
      requires Valid()
      ensures AllLonger(held, WithUnlocked())
    {
      if Keeps() {
        assert FragmentOk(|fragments| - 1);
        if GroupNow().Some? {
          MergeLonger(backend, bundle, DataHeld(), GroupNow().value);
        }
      }
    }

    /** Closing a lock leaves the instructions in order. */
    lemma UnlockedLog()
      requires Valid() && Settled() && relaxAll && lockDepth > 0
      requires lockDepth == 1 ==> PaddingBehind(DataHeld(), GroupNow().value).Some?
      ensures Log(WithUnlocked()) == if lockDepth == 1 then Emitted() else Log(held)
    {
      if Keeps() {
        LastIs();
      }
      var all := WithUnlocked();
      if lockDepth == 1 {
        LogLonger(held, Keeps(), all[|all| - 1], GroupNow().value.log);
      } else if lockState != BundleLockedAlignToEnd {
        LogLonger(held, Keeps(), all[|all| - 1], []);
      }
    }

    /** The instructions of the group stay part of it. */
    lemma UnlockedInGroups()
      requires Valid() && AllInGroups(held)
      ensures AllInGroups(WithUnlocked())
    {
      LastInGroups();
      if GroupNow().Some? {
        assert bundleGroups[0] in bundleGroups;
        MergeInGroups(backend, bundle, DataHeld(), GroupNow().value);
      }
    }

    /** All together. */
    lemma UnlockedWell()
      requires Valid() && Settled() && bundle > 0 && relaxAll && lockDepth > 0
      ensures AllLonger(held, WithUnlocked()) && (AllInGroups(held) ==> AllInGroups(WithUnlocked()))
      ensures !(lockDepth == 1 && WontFit(bundleGroups[0])) ==>
        Log(WithUnlocked()) + LogOf(if lockDepth == 1 then None else GroupNow()) == Emitted()
    {
      UnlockedLonger();
      if AllInGroups(held) {
        UnlockedInGroups();
      }
      if !(lockDepth == 1 && WontFit(bundleGroups[0])) {
        MergedIs(GroupNow().value);
        UnlockedLog();
      }
    }

    /** Where the last unlock puts the group: behind `h` and the padding it needs, or in a fragment of its own. */
    lemma GroupGoes() returns (kept: bool, h: Held, padding: seq<Byte>)
      requires Valid() && Settled() && NopsExact(backend) && bundle > 0 && relaxAll && lockDepth == 1
      requires !WontFit(bundleGroups[0])
      ensures kept == Keeps() && h == DataHeld() && (kept ==> held != []) && (!kept ==> h == Nothing(DataKind))
      ensures PaddingBehind(h, GroupNow().value) == Some(padding)
      ensures WithUnlocked() == AtEnd(held, kept, Behind(h, padding, GroupNow().value).(toEnd := false))
      ensures UnlockPlace() == PlaceIn(held, kept, h, padding)
    {
      MergedIs(GroupNow().value);
      if Keeps() {
        LastIs();
      }
      kept, h, padding := Keeps(), DataHeld(), PaddingBehind(DataHeld(), GroupNow().value).value;
    }

    /** The group ends the fragment; labels bound by it name its first byte, or the padding of a new fragment. */
    lemma GroupNamed()
      requires Valid() && Settled() && NopsExact(backend) && bundle > 0 && relaxAll && lockDepth == 1
      requires !WontFit(bundleGroups[0])
      ensures var all, at, group := WithUnlocked(), UnlockPlace(), GroupNow().value;
              && |all| == at.fragment + 1 && EndsWith(all[at.fragment], group)
              && var g := all[at.fragment].groups[|all[at.fragment].groups| - 1];
                 (at.offset == g.pos <==> Keeps() || !(group.toEnd && |group.contents| < bundle))
    {
      var kept, h, padding := GroupGoes();
      GroupAtEnd(held, kept, h, padding, GroupNow().value);
      if !kept {
        LabelsOfNewFragment(backend, bundle, bundlePower, GroupNow().value.contents, GroupNow().value.toEnd);
      }
    }

    /**
     A label between two instructions of a group waits for the end of the group with the others,
     and then names the first instruction, not the second.
     */
    lemma LabelBetween(a: Emission, b: Emission)
      requires Valid() && Settled() && NopsExact(backend) && bundle > 0 && relaxAll && lockDepth == 1
      requires GroupNow() == Some(WithInst(Alone(DataKind, a), b)) && !WontFit(bundleGroups[0])
      ensures JoinsOn()
      ensures var all, at := WithUnlocked(), UnlockPlace();
              && |all| == at.fragment + 1
              && var placed := all[at.fragment].placed;
                 |placed| >= 2 && placed[|placed| - 2..] == [Placed(at.offset, a), Placed(at.offset + |a.code|, b)]
    {
      var kept, h, padding := GroupGoes();
      GroupAtEnd(held, kept, h, padding, GroupNow().value);
      if !kept {
        LabelsOfNewFragment(backend, bundle, bundlePower, GroupNow().value.contents, false);
      }
      TwoShifted(h.placed, GroupNow().value.placed, UnlockPlace().offset, a, b);
    }

    /** Closes one lock; the last one ends the group. */
    method EmitBundleUnlock() returns (fatal: bool)
      requires Valid() && Settled() && NopsExact(backend)
      modifies this`fragments, this`labels, this`pendingLabels, this`held, this`bundleGroups
      modifies this`lockState, this`lockDepth, fragments, bundleGroups
      ensures !fatal ==> Valid() && Settled() && Extends() && Emitted() == old(Emitted())
      ensures !fatal ==> lockDepth == old(lockDepth) - 1
      ensures !fatal ==> lockState == if lockDepth == 0 then NotBundleLocked else old(lockState)
      ensures !fatal ==> held == (if relaxAll then old(WithUnlocked()) else old(held)) && KeepsGroups()
      ensures !fatal ==> GroupNow() == (if lockDepth == 0 then None else old(GroupNow())) && GroupsNew()
      ensures !fatal ==> LabelsGo(!relaxAll || (lockDepth > 0 && (lockState == BundleLockedAlignToEnd || old(Keeps()))),
                           old(UnlockPlace()))
      ensures fatal <==>
        || bundle == 0 || old(lockDepth) == 0 || beforeFirstInst
        || (relaxAll && old(lockDepth) == 1 && old(bundleGroups) != [] && old(WontFit(bundleGroups[0])))
    {
      if bundle == 0 || lockDepth == 0 || beforeFirstInst {
        return true;
      }
      if relaxAll {
        UnlockedWell();
        fatal := UnlockGroup(bundleGroups[|bundleGroups| - 1]);
      } else {
        CloseLock();
        fatal := false;
      }
    }

    /** In a section laid out with these fragments no instruction crosses a bundle boundary. */
    lemma BundlesHold(env: Env, n: nat, fs: seq<Shape>, k: nat, j: nat, p: Placed)
      requires Valid() && relaxAll && AllInGroups(held) && j < |held| && p in held[j].placed && |p.what.code| >= 1
      requires env.bundle == bundle == Pow2(n) <= 0x100 && env.relaxAll && AllLookBack(fs)
      requires k < |Eager(env, fs)| && fs[k] == ShapeOf(held[j])
      ensures !Crosses(bundle, Eager(env, fs)[k].Offset() + p.pos, |p.what.code|)
    {
      assert FragmentOk(j);
      NoInstructionCrosses(env, n, fs, k, held[j], p);
    }

    /** A directive that gives no instruction. */
    method DoOther(op: Directive) returns (fatal: bool)
      requires Valid() && Settled() && NopsExact(backend)
      requires !op.Instruction? && (op.AlignMode? ==> op.power <= 30)
      modifies this, fragments, bundleGroups
      ensures !fatal ==> Valid() && Settled() && Extends() && GroupsNew() && Emitted() == old(Emitted())
      ensures !fatal ==> KeepsGroups() && (old(bundle) > 0 ==> bundle == old(bundle))
    {
      fatal := false;
      match op
      case LabelHere(symbol) => EmitLabel(symbol);
      case Bytes(bytes) => EmitBytes(bytes);
      case AlignMode(power) => fatal := EmitBundleAlignMode(power);
      case Lock(toEnd) => fatal := EmitBundleLock(toEnd);
      case Unlock => fatal := EmitBundleUnlock();
    }

    /** One directive. */
    method Do(op: Directive, ghost rank: Inst -> nat) returns (fatal: bool)
      requires Valid() && Settled() && NopsExact(backend) && RelaxationLowers(backend, rank)
      requires op.AlignMode? ==> op.power <= 30
      modifies this, fragments, bundleGroups
      ensures !fatal ==> Valid() && Settled() && Extends() && GroupsNew()
      ensures !fatal ==> Emitted() == old(Emitted()) + old(Given(op, rank))
      ensures !fatal ==> KeepsGroups() && (old(bundle) > 0 ==> bundle == old(bundle))
    {
      if op.Instruction? {
        fatal := EmitInstruction(op.inst, rank);
      } else {
        assert Emitted() + [] == Emitted();
        fatal := DoOther(op);
      }
    }

    /** The instruction a directive gives. */
    function Given(op: Directive, ghost rank: Inst -> nat): seq<Emission>
      requires RelaxationLowers(backend, rank)
      reads this`bundle, this`lockDepth
    {
      if op.Instruction? then [Encoded(Chosen(op.inst, rank))] else []
    }

    /** The instructions given come out as they are or fully relaxed, and always so when everything is relaxed. */
    ghost predicate ComeOut(rank: Inst -> nat, given: seq<Inst>, out: seq<Emission>)
      requires RelaxationLowers(backend, rank)
    {
      |given| == |out| && forall i :: 0 <= i < |given| ==>
        out[i] == Encoded(FullyRelaxed(backend, rank, given[i])) || (!relaxAll && out[i] == Encoded(given[i]))
    }

    /** How things stand after i directives of a run that began like this. */
    ghost predicate RunAt(rank: Inst -> nat, parts: seq<EncodedFragment>, before: seq<Held>, log: seq<Emission>,
                          size: nat, given: seq<Inst>, out: seq<Emission>)
      requires RelaxationLowers(backend, rank)
      reads this, fragments, bundleGroups
    {
      && Valid() && Settled() && parts <= fragments && AllLonger(before, held)
      && Emitted() == log + out && ComeOut(rank, given, out)
      && (size > 0 ==> bundle == size && (relaxAll && AllInGroups(before) ==> AllInGroups(held)))
    }

    lemma LongerChain(a: seq<Held>, b: seq<Held>, c: seq<Held>)
      requires AllLonger(a, b) && AllLonger(b, c)
      ensures AllLonger(a, c)
    {
    }

    /** The next directive of a run. */
    method RunNext(op: Directive, ghost rank: Inst -> nat, ghost parts: seq<EncodedFragment>, ghost before: seq<Held>,
                   ghost log: seq<Emission>, ghost size: nat, ghost given: seq<Inst>, ghost out: seq<Emission>)
      returns (fatal: bool, ghost out': seq<Emission>)
      requires RelaxationLowers(backend, rank) && RunAt(rank, parts, before, log, size, given, out)
      requires NopsExact(backend) && (op.AlignMode? ==> op.power <= 30)
      modifies this, fragments, bundleGroups
      ensures !fatal ==>
        RunAt(rank, parts, before, log, size, if op.Instruction? then given + [op.inst] else given, out')
      ensures !fatal ==> GroupsNew() && forall k :: 0 <= k < |fragments| ==>
        fragments[k] in old(fragments) || fresh(fragments[k])
    {
      ghost var more, middle := Given(op, rank), held;
      fatal := Do(op, rank);
      out' := out + more;
      if !fatal {
        assert Emitted() == log + out' by {
          assert (log + out) + more == log + (out + more);
        }
        LongerChain(before, middle, held);
      }
    }

    /** The rest of a run, from directive i on. */
    method RunFrom(ops: seq<Directive>, i: nat, ghost rank: Inst -> nat, ghost parts: seq<EncodedFragment>,
                   ghost before: seq<Held>, ghost log: seq<Emission>, ghost size: nat, ghost out: seq<Emission>)
      returns (fatal: bool, ghost out': seq<Emission>)
      requires RelaxationLowers(backend, rank) && NopsExact(backend) && i <= |ops|
      requires forall i :: 0 <= i < |ops| && ops[i].AlignMode? ==> ops[i].power <= 30
      requires RunAt(rank, parts, before, log, size, Instructions(ops, i), out)
      modifies this, fragments, bundleGroups
      ensures !fatal ==> RunAt(rank, parts, before, log, size, Instructions(ops, |ops|), out')
      decreases |ops| - i
    {
      fatal, out' := false, out;
      if i < |ops| {
        fatal, out' := RunNext(ops[i], rank, parts, before, log, size, Instructions(ops, i), out);
        if !fatal {
          fatal, out' := RunFrom(ops, i + 1, rank, parts, before, log, size, out');
        }
      }
    }

    /** Any run of directives: every instruction comes out once and in order, and nothing moves. */
    method Run(ops: seq<Directive>, ghost rank: Inst -> nat) returns (fatal: bool, ghost out: seq<Emission>)
      requires Valid() && Settled() && NopsExact(backend) && RelaxationLowers(backend, rank)
      requires forall i :: 0 <= i < |ops| && ops[i].AlignMode? ==> ops[i].power <= 30
      modifies this, fragments, bundleGroups
      ensures !fatal ==> Valid() && Settled() && old(fragments) <= fragments && AllLonger(old(held), held)
      ensures !fatal ==> Emitted() == old(Emitted()) + out && ComeOut(rank, Instructions(ops, |ops|), out)
      ensures !fatal && old(bundle) > 0 ==> bundle == old(bundle) && KeepsGroups()
    {
      assert Emitted() + [] == Emitted();
      fatal, out := RunFrom(ops, 0, rank, fragments, held, Emitted(), bundle, []);
    }
  }

  datatype Directive =
    | Instruction(inst: Inst)
    | LabelHere(symbol: nat)
    | Bytes(bytes: seq<Byte>)
    | AlignMode(power: nat)
    | Lock(toEnd: bool)
    | Unlock

  /** The instructions among the first n directives. */
  function Instructions(ops: seq<Directive>, n: nat): seq<Inst>
    requires n <= |ops|
  {
    if n == 0 then []
    else if ops[n - 1].Instruction? then Instructions(ops, n - 1) + [ops[n - 1].inst]
    else Instructions(ops, n - 1)
  }

  /** The instruction once it can no longer need relaxation. */
  function FullyRelaxed(backend: Backend, ghost rank: Inst -> nat, inst: Inst): Inst
    requires RelaxationLowers(backend, rank)
    decreases rank(inst)
  {
    if backend.mayNeedRelaxation(inst) then FullyRelaxed(backend, rank, backend.relaxInstruction(inst)) else inst
  }

  /** It is the instruction relaxed in turn for as long as it may need it, and no longer. */
  lemma {:induction false} RelaxedOut(backend: Backend, rank: Inst -> nat, inst: Inst) returns (m: nat)
    requires RelaxationLowers(backend, rank)
    ensures FullyRelaxed(backend, rank, inst) == RelaxedTimes(backend, inst, m)
    ensures !backend.mayNeedRelaxation(RelaxedTimes(backend, inst, m))
    ensures forall i :: 0 <= i < m ==> backend.mayNeedRelaxation(RelaxedTimes(backend, inst, i))
    decreases rank(inst)
  {
    if backend.mayNeedRelaxation(inst) {
      var n := RelaxedOut(backend, rank, backend.relaxInstruction(inst));
      m := n + 1;
      RelaxedFirst(backend, inst, n);
      forall i | 0 <= i < m
        ensures backend.mayNeedRelaxation(RelaxedTimes(backend, inst, i))
      {
        if i > 0 {
          RelaxedFirst(backend, inst, i - 1);
        }
      }
    } else {
      m := 0;
    }
  }
}
