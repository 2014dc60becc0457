/**
 Fixups applied once the layout is final: the value of each is put into the contents of its
 fragment, which keeps its size, so that no fragment moves.
 */
module McPatch {
  import opened McModel
  import opened McEager
  import opened McFixup

  /** What is applied for a fixup: Refused is an error, Unset a value the code reads without having set it. */
  datatype Applied = Refused | Unset | Apply(value: Word64, pcRel: bool)

  /** The value applied for a fixup of fragment k: one not resolved is given to the object writer first. */
  function AppliedValue(env: Env, lays: seq<seq<Laid>>, section: nat, k: nat, fixup: Fixup): Applied {
    match EvalFixup(env, lays, section, k, fixup)
    case Error => Refused
    case Indeterminate => Unset
    case Evaluated(value, true) => Apply(value, env.backend.isPCRel(fixup.kind))
    case Evaluated(value, false) =>
      if fixup.value.None? || NamedSymB(fixup.value.value) then Refused
      else
        var (adjusted, pcRel) :=
          env.backend.recordRelocation(Loc(section, k, 0), fixup, value, env.backend.isPCRel(fixup.kind));
        Apply(adjusted, pcRel)
  }

  /** A subtracted symbol with a modifier can be in no relocation. */
  predicate NamedSymB(target: Target) {
    target.symB.Some? && !target.symB.value.plain
  }

  /** Applying the fixup turns `before` into `after`, or fails; a value that is unset may be any. */
  ghost predicate Fixes(env: Env, lays: seq<seq<Laid>>, section: nat, k: nat, fixup: Fixup, before: seq<Byte>,
                        after: Option<seq<Byte>>)
  {
    match AppliedValue(env, lays, section, k, fixup)
    case Refused => after.None?
    case Unset => after.None? || exists value, pcRel :: env.backend.applyFixup(fixup, before, value, pcRel) == after
    case Apply(value, pcRel) => env.backend.applyFixup(fixup, before, value, pcRel) == after
  }

  ghost function Fixing(env: Env, lays: seq<seq<Laid>>, section: nat, k: nat): (Fixup, seq<Byte>, seq<Byte>) -> bool {
    (fixup, before, after) => Fixes(env, lays, section, k, fixup, before, Some(after))
  }

  /** One step for each of the first n fixups, one after the other, turns `before` into `after`. */
  ghost predicate Chain(step: (Fixup, seq<Byte>, seq<Byte>) -> bool, fixups: seq<Fixup>, n: nat, before: seq<Byte>,
                        after: seq<Byte>)
    requires n <= |fixups|
  {
    if n == 0 then before == after
    else
      var last := fixups[n - 1];
      exists mid :: step(last, mid, after) && Chain(step, fixups, n - 1, before, mid)
  }

  /** What the contents are before the last step. */
  lemma LastStep(step: (Fixup, seq<Byte>, seq<Byte>) -> bool, fixups: seq<Fixup>, n: nat, before: seq<Byte>,
                 after: seq<Byte>)
    returns (mid: seq<Byte>)
    requires 0 < n <= |fixups| && Chain(step, fixups, n, before, after)
    ensures step(fixups[n - 1], mid, after) && Chain(step, fixups, n - 1, before, mid)
  {
    var last := fixups[n - 1];
    mid :| step(last, mid, after) && Chain(step, fixups, n - 1, before, mid);
  }

  predicate HasFixups(f: Shape) {
    f.Data? || f.Relaxable?
  }

  function WithContents(f: Shape, contents: seq<Byte>): Shape
    requires HasFixups(f)
  {
    f.(contents := contents)
  }

  /** `g` is `f` with the first n of its fixups applied. */
  ghost predicate PatchedBy(env: Env, lays: seq<seq<Laid>>, section: nat, k: nat, f: Shape, n: nat, g: Shape) {
    && HasFixups(f) && HasFixups(g) && n <= |f.fixups|
    && g == WithContents(f, g.contents) && |g.contents| == |f.contents|
    && Chain(Fixing(env, lays, section, k), f.fixups, n, f.contents, g.contents)
  }

  /** `g` is `f` with all its fixups applied. */
  ghost predicate Patched(env: Env, lays: seq<seq<Laid>>, section: nat, k: nat, f: Shape, g: Shape) {
    if HasFixups(f) then PatchedBy(env, lays, section, k, f, |f.fixups|, g) else g == f
  }

  /** The first n fragments of a section are patched, the others as they were. */
  ghost predicate SectionPatched(env: Env, lays: seq<seq<Laid>>, section: nat, fs: seq<Shape>, gs: seq<Shape>, n: nat)
  {
    |gs| == |fs| && forall k :: 0 <= k < |fs| ==>
      if k < n then Patched(env, lays, section, k, fs[k], gs[k]) else gs[k] == fs[k]
  }

  /** The first n sections of a file are patched, the others as they were. */
  ghost predicate FilePatched(env: Env, lays: seq<seq<Laid>>, before: seq<seq<Shape>>, after: seq<seq<Shape>>, n: nat)
  {
    |after| == |before| && forall s :: 0 <= s < |before| ==>
      if s < n then SectionPatched(env, lays, s, before[s], after[s], |before[s]|) else after[s] == before[s]
  }

  /** A fixup of `f` cannot be applied. */
  ghost predicate CannotPatch(env: Env, lays: seq<seq<Laid>>, section: nat, k: nat, f: Shape) {
    HasFixups(f) && exists n: nat, g ::
      && PatchedBy(env, lays, section, k, f, n, g) && n < |f.fixups|
      && Fixes(env, lays, section, k, f.fixups[n], g.contents, None)
  }

  ghost predicate FileCannotBePatched(env: Env, lays: seq<seq<Laid>>, all: seq<seq<Shape>>) {
    exists s, k :: 0 <= s < |all| && 0 <= k < |all[s]| && CannotPatch(env, lays, s, k, all[s][k])
  }

  /** Applying a fixup leaves the number of bytes as it is. */
  ghost predicate FixupsKeepLength(backend: Backend) {
    forall fixup, contents, value, pcRel ::
      var r := backend.applyFixup(fixup, contents, value, pcRel);
      r.Some? ==> |r.value| == |contents|
  }

  lemma NothingPatched(env: Env, lays: seq<seq<Laid>>, section: nat, k: nat, f: Shape)
    requires HasFixups(f)
    ensures PatchedBy(env, lays, section, k, f, 0, f)
  {
  }

  lemma OneMorePatched(env: Env, lays: seq<seq<Laid>>, section: nat, k: nat, f: Shape, n: nat, g: Shape,
                       contents: seq<Byte>)
    requires PatchedBy(env, lays, section, k, f, n, g) && n < |f.fixups| && |contents| == |f.contents|
    requires Fixes(env, lays, section, k, f.fixups[n], g.contents, Some(contents))
    ensures PatchedBy(env, lays, section, k, f, n + 1, WithContents(g, contents))
  {
    assert Fixing(env, lays, section, k)(f.fixups[n], g.contents, contents);
  }

  /** One more fragment of a section patched. */
  lemma OneMoreFragment(env: Env, lays: seq<seq<Laid>>, section: nat, fs: seq<Shape>, gs: seq<Shape>, n: nat, h: Shape)
    requires n < |fs| && SectionPatched(env, lays, section, fs, gs, n) && Patched(env, lays, section, n, fs[n], h)
    ensures SectionPatched(env, lays, section, fs, gs[n := h], n + 1)
  {
  }

  /** One more section of a file patched. */
  lemma OneMoreSection(env: Env, lays: seq<seq<Laid>>, before: seq<seq<Shape>>, after: seq<seq<Shape>>, n: nat,
                       gs: seq<Shape>)
    requires n < |before| && FilePatched(env, lays, before, after, n)
    requires SectionPatched(env, lays, n, before[n], gs, |before[n]|)
    ensures FilePatched(env, lays, before, after[n := gs], n + 1)
  {
  }

  /** The same bytes in other places are laid out alike, whatever the bytes are. */
  lemma PatchKeepsLayout(env: Env, fs: seq<Shape>, laid: seq<Laid>, k: nat, contents: seq<Byte>)
    requires AllLookBack(fs) && AllSound(fs) && IsLayout(env, fs, laid)
    requires k < |fs| && HasFixups(fs[k]) && |contents| == |fs[k].contents|
    ensures var gs := fs[k := WithContents(fs[k], contents)];
            AllLookBack(gs) && AllSound(gs) && IsLayout(env, gs, laid)
  {
    var gs := fs[k := WithContents(fs[k], contents)];
    forall i | 0 <= i <= |laid| && i < |fs|
      ensures StartOf(env, gs, laid, i) == StartOf(env, fs, laid, i)
    {
    }
    forall i | 0 <= i < |laid|
      ensures MixedAt(env, gs, gs, laid, i)
    {
      assert MixedAt(env, fs, fs, laid, i);
    }
  }
}
