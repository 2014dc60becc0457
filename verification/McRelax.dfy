/** What relaxation may do to a file: instructions are relaxed step by step, and nothing else changes. */
module McRelax {
  import opened McModel

  /** Nothing of the file has changed but fragment k of section s, which is `g` now. */
  predicate OneChanged(before: seq<seq<Shape>>, after: seq<seq<Shape>>, s: nat, k: nat, g: Shape) {
    s < |before| && k < |before[s]| && after == before[s := before[s][k := g]]
  }

  lemma NoneChanged(all: seq<seq<Shape>>, s: nat, k: nat)
    requires s < |all| && k < |all[s]|
    ensures OneChanged(all, all, s, k, all[s][k])
  {
    assert all[s][k := all[s][k]] == all[s];
  }

  lemma ChangedAgain(a: seq<seq<Shape>>, b: seq<seq<Shape>>, c: seq<seq<Shape>>, s: nat, k: nat, g: Shape, h: Shape)
    requires OneChanged(a, b, s, k, g) && OneChanged(b, c, s, k, h)
    ensures OneChanged(a, c, s, k, h)
  {
    assert a[s][k := g][k := h] == a[s][k := h];
  }

  /** The shape of a relaxable fragment once its instruction is relaxed and encoded again. */
  function RelaxedShape(backend: Backend, f: Shape): Shape
    requires f.Relaxable?
  {
    var relaxed := backend.relaxInstruction(f.inst);
    var (code, fixups) := backend.encode(relaxed);
    Relaxable(relaxed, code, fixups)
  }

  /** `g` is `f` after m relaxations, each of an instruction that may need one. */
  predicate RelaxesTo(backend: Backend, f: Shape, g: Shape, m: nat)
    decreases m
  {
    if m == 0 then f == g
    else f.Relaxable? && backend.mayNeedRelaxation(f.inst) && RelaxesTo(backend, RelaxedShape(backend, f), g, m - 1)
  }

  ghost predicate FragmentFrom(backend: Backend, f: Shape, g: Shape) {
    exists m: nat :: RelaxesTo(backend, f, g, m)
  }

  ghost predicate SectionFrom(backend: Backend, before: seq<Shape>, after: seq<Shape>) {
    |before| == |after| && forall k :: 0 <= k < |before| ==> FragmentFrom(backend, before[k], after[k])
  }

  /** The same sections, with the same fragments in the same places, some of them relaxed. */
  ghost predicate RelaxedFrom(backend: Backend, before: seq<seq<Shape>>, after: seq<seq<Shape>>) {
    |before| == |after| && forall s :: 0 <= s < |before| ==> SectionFrom(backend, before[s], after[s])
  }

  lemma {:induction false} RelaxesAgain(backend: Backend, f: Shape, g: Shape, h: Shape, m: nat, n: nat)
    requires RelaxesTo(backend, f, g, m) && RelaxesTo(backend, g, h, n)
    ensures RelaxesTo(backend, f, h, m + n)
    decreases m
  {
    if m > 0 {
      RelaxesAgain(backend, RelaxedShape(backend, f), g, h, m - 1, n);
    }
  }

  lemma FragmentFromChain(backend: Backend, f: Shape, g: Shape, h: Shape)
    requires FragmentFrom(backend, f, g) && FragmentFrom(backend, g, h)
    ensures FragmentFrom(backend, f, h)
  {
    var m: nat :| RelaxesTo(backend, f, g, m);
    var n: nat :| RelaxesTo(backend, g, h, n);
    RelaxesAgain(backend, f, g, h, m, n);
  }

  lemma FragmentFromSelf(backend: Backend, f: Shape)
    ensures FragmentFrom(backend, f, f)
  {
    assert RelaxesTo(backend, f, f, 0);
  }

  lemma RelaxedFromSelf(backend: Backend, all: seq<seq<Shape>>)
    ensures RelaxedFrom(backend, all, all)
  {
    forall s | 0 <= s < |all|
      ensures SectionFrom(backend, all[s], all[s])
    {
      forall k | 0 <= k < |all[s]|
        ensures FragmentFrom(backend, all[s][k], all[s][k])
      {
        FragmentFromSelf(backend, all[s][k]);
      }
    }
  }

  lemma RelaxedFromChain(backend: Backend, a: seq<seq<Shape>>, b: seq<seq<Shape>>, c: seq<seq<Shape>>)
    requires RelaxedFrom(backend, a, b) && RelaxedFrom(backend, b, c)
    ensures RelaxedFrom(backend, a, c)
  {
    forall s | 0 <= s < |a|
      ensures SectionFrom(backend, a[s], c[s])
    {
      assert SectionFrom(backend, a[s], b[s]) && SectionFrom(backend, b[s], c[s]);
      forall k | 0 <= k < |a[s]|
        ensures FragmentFrom(backend, a[s][k], c[s][k])
      {
        FragmentFromChain(backend, a[s][k], b[s][k], c[s][k]);
      }
    }
  }

  /** One relaxation of one fragment. */
  lemma OneRelaxed(backend: Backend, all: seq<seq<Shape>>, s: nat, k: nat)
    requires s < |all| && k < |all[s]| && all[s][k].Relaxable? && backend.mayNeedRelaxation(all[s][k].inst)
    ensures RelaxedFrom(backend, all, all[s := all[s][k := RelaxedShape(backend, all[s][k])]])
  {
    var f := all[s][k];
    var after := all[s := all[s][k := RelaxedShape(backend, f)]];
    RelaxedFromSelf(backend, all);
    assert RelaxesTo(backend, RelaxedShape(backend, f), RelaxedShape(backend, f), 0);
    assert RelaxesTo(backend, f, RelaxedShape(backend, f), 1);
    forall t | 0 <= t < |all|
      ensures SectionFrom(backend, all[t], after[t])
    {
      assert SectionFrom(backend, all[t], all[t]);
    }
  }

  /** A fragment that is not relaxable, or whose instruction cannot need it, is as it was. */
  lemma OthersUnchanged(backend: Backend, before: seq<seq<Shape>>, after: seq<seq<Shape>>, s: nat, k: nat)
    requires RelaxedFrom(backend, before, after) && s < |before| && k < |before[s]|
    ensures k < |after[s]|
    ensures !before[s][k].Relaxable? || !backend.mayNeedRelaxation(before[s][k].inst) ==> after[s][k] == before[s][k]
    ensures before[s][k].Relaxable? <==> after[s][k].Relaxable?
  {
    assert SectionFrom(backend, before[s], after[s]) && FragmentFrom(backend, before[s][k], after[s][k]);
    var m: nat :| RelaxesTo(backend, before[s][k], after[s][k], m);
    RelaxedKind(backend, before[s][k], after[s][k], m);
  }

  lemma {:induction false} RelaxedKind(backend: Backend, f: Shape, g: Shape, m: nat)
    requires RelaxesTo(backend, f, g, m)
    ensures f.Relaxable? <==> g.Relaxable?
    decreases m
  {
    if m > 0 {
      RelaxedKind(backend, RelaxedShape(backend, f), g, m - 1);
    }
  }

  function RelaxedTimes(backend: Backend, inst: Inst, m: nat): Inst {
    if m == 0 then inst else backend.relaxInstruction(RelaxedTimes(backend, inst, m - 1))
  }

  lemma {:induction false} RelaxedFirst(backend: Backend, inst: Inst, m: nat)
    ensures RelaxedTimes(backend, backend.relaxInstruction(inst), m) == RelaxedTimes(backend, inst, m + 1)
  {
    if m > 0 {
      RelaxedFirst(backend, inst, m - 1);
    }
  }

  /** The instruction in `g` is that in `f` relaxed m times, and `g` holds its encoding. */
  ghost predicate HoldsRelaxed(backend: Backend, f: Shape, g: Shape, m: nat) {
    && f.Relaxable? && g.Relaxable? && g.inst == RelaxedTimes(backend, f.inst, m)
    && (m == 0 ==> g == f) && (m > 0 ==> (g.contents, g.fixups) == backend.encode(g.inst))
    && forall i :: 0 <= i < m ==> backend.mayNeedRelaxation(RelaxedTimes(backend, f.inst, i))
  }

  lemma {:induction false} Relaxations(backend: Backend, f: Shape, g: Shape, m: nat)
    requires f.Relaxable? && RelaxesTo(backend, f, g, m)
    ensures HoldsRelaxed(backend, f, g, m)
    decreases m
  {
    if m > 0 {
      var h := RelaxedShape(backend, f);
      Relaxations(backend, h, g, m - 1);
      RelaxedFirst(backend, f.inst, m - 1);
      forall i | 0 <= i < m
        ensures backend.mayNeedRelaxation(RelaxedTimes(backend, f.inst, i))
      {
        if i > 0 {
          RelaxedFirst(backend, f.inst, i - 1);
        }
      }
    }
  }

  /**
   A relaxable fragment ends up with the encoding of its instruction, relaxed so many times in turn,
   and was only relaxed where it might need it.
   */
  lemma RelaxedCode(backend: Backend, before: seq<seq<Shape>>, after: seq<seq<Shape>>, s: nat, k: nat)
    requires RelaxedFrom(backend, before, after) && s < |before| && k < |before[s]| && before[s][k].Relaxable?
    ensures k < |after[s]| && exists m: nat :: HoldsRelaxed(backend, before[s][k], after[s][k], m)
  {
    assert SectionFrom(backend, before[s], after[s]) && FragmentFrom(backend, before[s][k], after[s][k]);
    var m: nat :| RelaxesTo(backend, before[s][k], after[s][k], m);
    Relaxations(backend, before[s][k], after[s][k], m);
  }
}
