/**
 What a file must be like at its start for relaxation to come to the same at two base addresses:
 no state of the run is asked about.
 */
module McBothBases {
  import opened McModel
  import opened McEager
  import opened McFixup
  import opened McRelax
  import opened McSection
  import opened McAssembler
  import opened McTrace
  import opened McShift

  /** How far the base moves, how long an encoding is at most, and the instructions that may come up. */
  datatype Limits = Limits(env: Env, d: nat, size: nat, good: Inst -> bool)

  predicate Steady(env: Env, fixups: seq<Fixup>, d: nat) {
    forall j :: 0 <= j < |fixups| && fixups[j].value.Some? ==> FixupDrift(env, fixups[j], d) == 0
  }

  /** Relaxing a good instruction gives a good one, with a short encoding and fixups that do not drift. */
  ghost predicate Closed(l: Limits) {
    forall inst :: l.good(inst) && l.env.backend.mayNeedRelaxation(inst) ==>
      var relaxed := l.env.backend.relaxInstruction(inst);
      && l.good(relaxed) && |l.env.backend.encode(relaxed).0| <= l.size
      && Steady(l.env, l.env.backend.encode(relaxed).1, l.d)
  }

  /** A fragment the move does not disturb, now or later. */
  ghost predicate Tame(l: Limits, f: Shape) {
    && !f.Org? && Movable(f, l.d)
    && (f.Relaxable? ==> l.good(f.inst) && |f.contents| <= l.size && Steady(l.env, f.fixups, l.d))
  }

  /** The most bytes a fragment may ever have. */
  function Most(l: Limits, f: Shape): nat {
    match f
    case Align(alignment, _, _, _, _) => alignment
    case Fill(_, count) => count
    case Org(_, _) => 0
    case SafeSEH(_) => 4
    case Relaxable(_, _, _) => l.size
    case _ => |f.contents|
  }

  /** The most bytes of padding before a fragment. */
  function Slack(env: Env): nat {
    if env.bundle > 0 then 0xFF else 0
  }

  /** The most bytes the first n fragments may ever take. */
  function Room(l: Limits, fs: seq<Shape>, n: nat): nat
    requires n <= |fs|
  {
    if n == 0 then 0 else Room(l, fs, n - 1) + Slack(l.env) + Most(l, fs[n - 1])
  }

  ghost predicate TameSection(l: Limits, fs: seq<Shape>, start: seq<Shape>) {
    |fs| == |start| && forall k :: 0 <= k < |fs| ==> Tame(l, fs[k]) && Most(l, fs[k]) == Most(l, start[k])
  }

  ghost predicate TameAll(l: Limits, all: seq<seq<Shape>>, start: seq<seq<Shape>>) {
    |all| == |start| && forall s :: 0 <= s < |all| ==> TameSection(l, all[s], start[s])
  }

  /** A state that relaxation can get to from a tame file. */
  ghost predicate TameFile(l: Limits, file: File, start: seq<seq<Shape>>) {
    file.Sized() && TameAll(l, file.all, start) && TameAll(l, file.put, start) && TameAll(l, file.passed, start)
  }

  /**
   There is room for the move below the value that means "not laid out", no section is without a
   fragment, and labels lie in fragments.
   */
  ghost predicate Roomy(l: Limits, start: seq<seq<Shape>>) {
    && l.env.backend.minNopSize == 1 && l.d % 4 == 0 && BundlesMove(l.env, l.d)
    && (forall s :: 0 <= s < |start| ==> l.env.base + Room(l, start[s], |start[s]|) + l.d < OFFSET_UNSET)
    && (forall s :: 0 <= s < |start| ==> start[s] != [])
    && (forall id :: 0 <= id < |l.env.symbols| ==> SymbolIn(start, l.env.symbols[id]))
  }

  lemma {:induction false} RoomGrows(l: Limits, fs: seq<Shape>, m: nat, n: nat)
    requires m <= n <= |fs|
    ensures Room(l, fs, m) <= Room(l, fs, n)
  {
    if m < n {
      RoomGrows(l, fs, m, n - 1);
    }
  }

  /** A fragment that is laid out has a size, and no more than it may have. */
  lemma SizeWithin(l: Limits, f: Shape, laid: seq<Laid>, k: nat)
    requires Tame(l, f) && l.env.backend.minNopSize == 1
    requires k < |laid| && laid[k].Offset() < OFFSET_UNSET
    ensures FragmentSize(l.env.backend, f, laid, k).Some? && FragmentSize(l.env.backend, f, laid, k).value <= Most(l, f)
  {
    if f.Align? {
      var n: nat :| n <= 32 && f.alignment == Pow2(n) && l.d % f.alignment == 0;
      assert OffsetToAlignment(laid[k].Offset() % TWO_32, f.alignment) <= f.alignment;
    }
  }

  /** Fragment k of a tame section is laid out, within the room before it. */
  lemma {:induction false} StartsWithin(l: Limits, put: seq<Shape>, passed: seq<Shape>, start: seq<Shape>, k: nat)
    requires TameSection(l, put, start) && TameSection(l, passed, start) && k < |start|
    requires l.env.backend.minNopSize == 1 && l.env.base + Room(l, start, |start|) < OFFSET_UNSET
    ensures var laid := Mixed(l.env, put, passed);
            && k < |laid| && laid[k].start <= l.env.base + Room(l, start, k)
            && laid[k].Offset() <= l.env.base + Room(l, start, k) + Slack(l.env) < OFFSET_UNSET
  {
    var laid := Mixed(l.env, put, passed);
    assert AllLookBack(passed);
    MixedIs(l.env, put, passed);
    RoomGrows(l, start, k + 1, |start|);
    if k > 0 {
      StartsWithin(l, put, passed, start, k - 1);
      SizeWithin(l, passed[k - 1], laid, k - 1);
    }
    assert k < |laid|;
    assert MixedAt(l.env, put, passed, laid, k);
  }

  lemma SectionWithin(l: Limits, put: seq<Shape>, passed: seq<Shape>, start: seq<Shape>)
    requires TameSection(l, put, start) && TameSection(l, passed, start)
    requires l.env.backend.minNopSize == 1 && l.env.base + Room(l, start, |start|) + l.d < OFFSET_UNSET
    ensures |Mixed(l.env, put, passed)| == |start| && NoWrap(Mixed(l.env, put, passed), l.d)
    ensures AllMovable(passed, l.d)
  {
    var laid := Mixed(l.env, put, passed);
    forall k | 0 <= k < |start|
      ensures k < |laid| && laid[k].Offset() + l.d < OFFSET_UNSET
    {
      StartsWithin(l, put, passed, start, k);
      RoomGrows(l, start, k + 1, |start|);
    }
    if |start| > 0 {
      StartsWithin(l, put, passed, start, |start| - 1);
    }
  }

  /** In a tame state every fragment is laid out, clear of the bound. */
  lemma LaysWithin(l: Limits, file: File, start: seq<seq<Shape>>)
    requires TameFile(l, file, start) && Roomy(l, start)
    ensures AllClear(Lays(l.env, file), l.d)
    ensures forall s :: 0 <= s < |start| ==> |Lays(l.env, file)[s]| == |start[s]| && AllMovable(file.passed[s], l.d)
  {
    forall s | 0 <= s < |start|
      ensures NoWrap(Lays(l.env, file)[s], l.d) && |Lays(l.env, file)[s]| == |start[s]|
      ensures AllMovable(file.passed[s], l.d)
    {
      assert TameSection(l, file.put[s], start[s]) && TameSection(l, file.passed[s], start[s]);
      SectionWithin(l, file.put[s], file.passed[s], start[s]);
    }
  }

  lemma LabelLaid(l: Limits, file: File, start: seq<seq<Shape>>, loc: Loc)
    requires TameFile(l, file, start) && Roomy(l, start) && LabelIn(start, loc)
    ensures LabelOffset(Lays(l.env, file), loc).Some?
  {
    LaysWithin(l, file, start);
    assert NoWrap(Lays(l.env, file)[loc.section], l.d);
  }

  /** Every symbol has its value, but for one whose expression has none. */
  lemma SymbolLaid(l: Limits, file: File, start: seq<seq<Shape>>, id: nat)
    requires TameFile(l, file, start) && Roomy(l, start) && id < |l.env.symbols|
    ensures McShift.Placed(Lays(l.env, file), l.env.symbols[id])
    ensures !l.env.symbols[id].Undefined? ==> !OffsetOfSymbol(Lays(l.env, file), l.env.symbols[id]).Garbage?
  {
    assert SymbolIn(start, l.env.symbols[id]);
    match l.env.symbols[id]
    case Undefined =>
    case Label(loc) =>
      LabelLaid(l, file, start, loc);
    case Variable(None, _) =>
    case Variable(Some(v), _) =>
      if v.symA.Some? {
        LabelLaid(l, file, start, v.symA.value);
      }
      if v.symB.Some? {
        LabelLaid(l, file, start, v.symB.value);
      }
  }

  lemma FixupDecided(l: Limits, file: File, start: seq<seq<Shape>>, s: nat, k: nat, fixup: Fixup)
    requires TameFile(l, file, start) && Roomy(l, start)
    ensures !EvalFixup(l.env, Lays(l.env, file), s, k, fixup).Indeterminate?
  {
    if fixup.value.Some? {
      var target := fixup.value.value;
      if target.symA.Some? && target.symA.value.symbol < |l.env.symbols| {
        SymbolLaid(l, file, start, target.symA.value.symbol);
      }
      if target.symB.Some? && target.symB.value.symbol < |l.env.symbols| {
        SymbolLaid(l, file, start, target.symB.value.symbol);
      }
    }
  }

  /** A tame state has all that its next step needs to be the same at the two bases. */
  lemma TameIsCalm(l: Limits, file: File, start: seq<seq<Shape>>)
    requires TameFile(l, file, start) && Roomy(l, start)
    ensures Calm(l.env, file, l.d) && Decided(l.env, file)
  {
    LaysWithin(l, file, start);
    forall id | 0 <= id < |l.env.symbols|
      ensures McShift.Placed(Lays(l.env, file), l.env.symbols[id])
    {
      SymbolLaid(l, file, start, id);
    }
    forall s, k | 0 <= s < |file.all| && 0 <= k < |file.all[s]|
      ensures Balanced(l.env, file.all[s][k], l.d) && ShapeDecided(l.env, Lays(l.env, file), s, k, file.all[s][k])
    {
      assert TameSection(l, file.all[s], start[s]) && Tame(l, file.all[s][k]);
      var f := file.all[s][k];
      if f.Relaxable? {
        forall j | 0 <= j < |f.fixups|
          ensures !EvalFixup(l.env, Lays(l.env, file), s, k, f.fixups[j]).Indeterminate?
        {
          FixupDecided(l, file, start, s, k, f.fixups[j]);
        }
      }
    }
  }

  lemma TameUpdate(l: Limits, all: seq<seq<Shape>>, start: seq<seq<Shape>>, s: nat, fs: seq<Shape>)
    requires TameAll(l, all, start) && s < |all| && TameSection(l, fs, start[s])
    ensures TameAll(l, all[s := fs], start)
  {
  }

  /** A relaxed fragment in the place of one that is relaxable. */
  lemma TameRelaxed(l: Limits, all: seq<seq<Shape>>, start: seq<seq<Shape>>, s: nat, k: nat, f: Shape)
    requires TameAll(l, all, start) && s < |all| && k < |all[s]|
    requires f.Relaxable? && Tame(l, f) && Most(l, f) == Most(l, start[s][k])
    ensures TameAll(l, all[s := all[s][k := f]], start)
  {
    assert TameSection(l, all[s], start[s]);
    assert TameSection(l, all[s][k := f], start[s]);
    TameUpdate(l, all, start, s, all[s][k := f]);
  }

  lemma TameTurn(l: Limits, a: File, start: seq<seq<Shape>>, s: nat, k: nat, b: File, relaxed: bool)
    requires TameFile(l, a, start) && Closed(l) && s < |a.all| && k < |a.all[s]|
    requires Turn(l.env, a, s, k, b, relaxed)
    ensures TameFile(l, b, start)
  {
    var f := a.all[s][k];
    assert TameSection(l, a.all[s], start[s]) && Tame(l, f);
    if f.Relaxable? && l.env.backend.mayNeedRelaxation(f.inst) && relaxed {
      var g := RelaxedShape(l.env.backend, f);
      assert Tame(l, g) && Most(l, g) == Most(l, f);
      TameRelaxed(l, a.all, start, s, k, g);
      TameRelaxed(l, a.put, start, s, k, g);
      TameRelaxed(l, a.passed, start, s, k, g);
    }
  }

  lemma TameStep(l: Limits, a: State, b: State, start: seq<seq<Shape>>)
    requires TameFile(l, a.file, start) && Closed(l) && Step(l.env, a, b)
    ensures TameFile(l, b.file, start)
  {
    var At(s, k, first, was) := a.at;
    if s < |a.file.all| {
      if k < |a.file.all[s]| {
        var relaxed :| Turn(l.env, a.file, s, k, b.file, relaxed) && b.at == AfterTurn(s, k, first, was, relaxed);
        TameTurn(l, a.file, start, s, k, b.file, relaxed);
      } else if first.Some? {
        assert TameSection(l, a.file.all[s], start[s]);
        TameUpdate(l, a.file.put, start, s, a.file.all[s]);
        TameUpdate(l, a.file.passed, start, s, a.file.all[s]);
      }
    }
  }

  lemma {:induction false} TameRun(l: Limits, run: seq<State>, start: seq<seq<Shape>>, i: nat)
    requires IsRun(l.env, run) && i < |run| && TameFile(l, run[0].file, start) && Closed(l)
    ensures TameFile(l, run[i].file, start)
  {
    if i > 0 {
      TameRun(l, run, start, i - 1);
      assert Step(l.env, run[i - 1], run[i]);
      TameStep(l, run[i - 1], run[i], start);
    }
  }

  /**
   Relaxing a file that is tame at its start: at either base it goes through the same states and
   ends with the same contents, every fragment laid out d further on.
   */
  lemma SameFromTheStart(l: Limits, run: seq<State>, other: seq<State>, all: seq<seq<Shape>>, counts: seq<nat>, f: File,
                         g: File)
    requires TameAll(l, all, all) && Roomy(l, all) && Closed(l) && |counts| == |all|
    requires Gets(l.env, run, State(File(all, all, all, counts), At(0, 0, None, false)), State(f, Done))
    requires Gets(Rebased(l.env, l.d), other, State(File(all, all, all, counts), At(0, 0, None, false)), State(g, Done))
    ensures run == other && f == g
    ensures f.Sized() && Lays(Rebased(l.env, l.d), g) == AllMoved(Lays(l.env, f), l.d)
  {
    forall i | 0 <= i < |run|
      ensures Calm(l.env, run[i].file, l.d) && Decided(l.env, run[i].file)
    {
      TameRun(l, run, all, i);
      TameIsCalm(l, run[i].file, all);
    }
    SameAtBothBases(l.env, run, other, State(File(all, all, all, counts), At(0, 0, None, false)), f, g, l.d);
  }

  /** Every section with a fragment in it. */
  function FilledAll(contents: seq<seq<Shape>>): (all: seq<seq<Shape>>)
    ensures |all| == |contents| && forall s :: 0 <= s < |all| ==> all[s] == Filled(contents[s])
  {
    seq(|contents|, s requires 0 <= s < |contents| => Filled(contents[s]))
  }

  /** The final layout of a tame file, in the words of `Eager`. */
  lemma TameMoved(l: Limits, all: seq<seq<Shape>>, start: seq<seq<Shape>>, s: nat)
    requires TameAll(l, all, start) && Roomy(l, start) && s < |all|
    ensures Eager(Rebased(l.env, l.d), all[s]) == Moved(Eager(l.env, all[s]), l.d)
  {
    assert TameSection(l, all[s], start[s]);
    SectionWithin(l, all[s], all[s], start[s]);
    LayoutMoved(l.env, all[s], l.d);
  }

  /** Where a run from a tame file ends is tame. */
  lemma TameEnd(l: Limits, run: seq<State>, all: seq<seq<Shape>>, counts: seq<nat>, f: File)
    requires TameAll(l, all, all) && Closed(l) && |counts| == |all|
    requires Gets(l.env, run, State(File(all, all, all, counts), At(0, 0, None, false)), State(f, Done))
    ensures TameAll(l, f.all, all)
  {
    TameRun(l, run, all, |run| - 1);
  }

  /** A file made from these contents and laid out. */
  method LaidOutFile(env: Env, contents: seq<seq<Shape>>, ghost rank: Inst -> nat)
    returns (asm: MCAssembler, ghost run: seq<State>, ghost last: File)
    requires forall s :: 0 <= s < |contents| ==> AllLookBack(contents[s]) && AllSound(contents[s])
    requires forall id :: 0 <= id < |env.symbols| ==> SymbolIn(contents, env.symbols[id])
    requires RelaxationLowers(env.backend, rank) && AllShort(env, FilledAll(contents))
    ensures fresh(asm) && asm.env == env && last.all == asm.shapes
    ensures |asm.shapes| == |asm.lays| && forall s :: 0 <= s < |asm.lays| ==> asm.lays[s] == Eager(env, asm.shapes[s])
    ensures var all := FilledAll(contents);
            Gets(env, run, State(File(all, all, all, seq(|contents|, _ => 0)), At(0, 0, None, false)),
                 State(last, Done))
  {
    asm := new MCAssembler(env, contents);
    assert asm.shapes == FilledAll(contents);
    run, last := asm.Layout(rank);
  }

  /** Every fragment fits a bundle, and every encoding will. */
  ghost predicate AllShort(env: Env, all: seq<seq<Shape>>) {
    && (forall s, k :: 0 <= s < |all| && 0 <= k < |all[s]| ==> FitsBundle(env, all[s][k]))
    && (env.bundle > 0 ==> forall inst :: EncodingFits(env, inst))
  }

  lemma ShortMoved(env: Env, all: seq<seq<Shape>>, d: nat)
    requires AllShort(env, all)
    ensures AllShort(Rebased(env, d), all)
  {
    forall inst | env.bundle > 0
      ensures EncodingFits(Rebased(env, d), inst)
    {
      assert EncodingFits(env, inst);
    }
  }

  /** One file, made and laid out at two bases: the same contents, every fragment d further on. */
  method LayoutAtBothBases(env: Env, contents: seq<seq<Shape>>, d: nat, ghost l: Limits, ghost rank: Inst -> nat)
    returns (a: MCAssembler, b: MCAssembler)
    requires forall s :: 0 <= s < |contents| ==> AllLookBack(contents[s]) && AllSound(contents[s])
    requires forall id :: 0 <= id < |env.symbols| ==> SymbolIn(contents, env.symbols[id])
    requires RelaxationLowers(env.backend, rank) && AllShort(env, FilledAll(contents))
    requires l.env == env && l.d == d && Closed(l)
    requires TameAll(l, FilledAll(contents), FilledAll(contents)) && Roomy(l, FilledAll(contents))
    ensures a.env == env && b.env == Rebased(env, d) && a.shapes == b.shapes && |a.lays| == |b.lays| == |a.shapes|
    ensures forall s :: 0 <= s < |a.lays| ==> a.lays[s] == Eager(env, a.shapes[s]) && b.lays[s] == Moved(a.lays[s], d)
  {
    ghost var all, counts := FilledAll(contents), seq(|contents|, _ => 0);
    ghost var run, f, other, g;
    ShortMoved(env, all, d);
    a, run, f := LaidOutFile(env, contents, rank);
    b, other, g := LaidOutFile(Rebased(env, d), contents, rank);
    SameFromTheStart(l, run, other, all, counts, f, g);
    TameEnd(l, run, all, counts, f);
    forall s | 0 <= s < |all|
      ensures Eager(Rebased(env, d), f.all[s]) == Moved(Eager(env, f.all[s]), d)
    {
      TameMoved(l, f.all, all, s);
    }
  }
}
