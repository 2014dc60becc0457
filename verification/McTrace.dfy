/**
 Relaxation step by step, as a machine: what asking for offsets does to the cache, what one
 fragment's turn does to the file, and in which order the turns come. The cache of a section is
 known from how many of its fragments are laid out, what each was when it was, and what it was
 when the next one followed.
 */
module McTrace {
  import opened McModel
  import opened McEager
  import opened McFixup
  import opened McRank
  import opened McRelax
  import opened McSection

  datatype File = File(all: seq<seq<Shape>>, put: seq<seq<Shape>>, passed: seq<seq<Shape>>, counts: seq<nat>)
  {
    predicate Sized() {
      && |all| == |put| == |passed| == |counts|
      && forall s :: 0 <= s < |all| ==> |all[s]| == |put[s]| == |passed[s]|
    }
  }

  /** The layouts the caches hold. */
  function Lays(env: Env, file: File): (lays: seq<seq<Laid>>)
    requires file.Sized()
    ensures |lays| == |file.all|
    ensures forall s :: 0 <= s < |lays| ==> lays[s] == Mixed(env, file.put[s], file.passed[s])
  {
    seq(|file.all|, s requires 0 <= s < |file.all| => Mixed(env, file.put[s], file.passed[s]))
  }

  /** The counts of valid fragments once a label has been asked for. */
  function Asked(lays: seq<seq<Laid>>, counts: seq<nat>, loc: Loc): (r: seq<nat>)
    requires |counts| == |lays|
    ensures |r| == |counts|
  {
    if loc.section < |counts|
    then counts[loc.section := Reach(counts[loc.section], loc.fragment, |lays[loc.section]|)] else counts
  }

  function AskedLabel(lays: seq<seq<Laid>>, counts: seq<nat>, loc: Option<Loc>): (r: seq<nat>)
    requires |counts| == |lays|
    ensures |r| == |counts|
  {
    if loc.Some? then Asked(lays, counts, loc.value) else counts
  }

  /** A variable asks for its first label, and for its second unless the first has no offset. */
  function AskedSymbol(lays: seq<seq<Laid>>, counts: seq<nat>, symbol: Symbol): (r: seq<nat>)
    requires |counts| == |lays|
    ensures |r| == |counts|
  {
    match symbol
    case Label(loc) => Asked(lays, counts, loc)
    case Variable(Some(v), _) =>
      var c := AskedLabel(lays, counts, v.symA);
      if v.symA.Some? && LabelOffset(lays, v.symA.value).None? then c else AskedLabel(lays, c, v.symB)
    case _ => counts
  }

  function AskedRef(env: Env, lays: seq<seq<Laid>>, counts: seq<nat>, ref: Option<SymRef>): (r: seq<nat>)
    requires |counts| == |lays|
    ensures |r| == |counts|
  {
    if ref.None? then counts else AskedSymbol(lays, counts, SymbolOf(env, ref.value.symbol))
  }

  /** A symbol that is defined has no value. */
  predicate RefFails(env: Env, lays: seq<seq<Laid>>, ref: Option<SymRef>) {
    && ref.Some? && !SymbolOf(env, ref.value.symbol).Undefined?
    && OffsetOfSymbol(lays, SymbolOf(env, ref.value.symbol)).NoOffset?
  }

  /** Evaluation ends with an error at the first symbol, or at one of the two. */
  predicate FailsA(env: Env, lays: seq<seq<Laid>>, section: nat, fixup: Fixup)
    requires fixup.value.Some?
  {
    AfterSymA(env, lays, section, fixup).Failed?
  }

  predicate FailsB(env: Env, lays: seq<seq<Laid>>, section: nat, fixup: Fixup)
    requires fixup.value.Some?
  {
    FailsA(env, lays, section, fixup) || RefFails(env, lays, fixup.value.value.symB)
  }

  function AskedB(env: Env, lays: seq<seq<Laid>>, section: nat, fixup: Fixup, counts: seq<nat>): (r: seq<nat>)
    requires |counts| == |lays| && fixup.value.Some?
    ensures |r| == |counts|
  {
    var a := AskedRef(env, lays, counts, fixup.value.value.symA);
    if FailsA(env, lays, section, fixup) then a else AskedRef(env, lays, a, fixup.value.value.symB)
  }

  /** Evaluating a fixup asks for its symbols and then for its fragment, up to the first error. */
  function AskedFixup(env: Env, lays: seq<seq<Laid>>, section: nat, k: nat, fixup: Fixup, counts: seq<nat>)
    : (r: seq<nat>)
    requires |counts| == |lays|
    ensures |r| == |counts|
  {
    if fixup.value.None? then counts
    else
      var b := AskedB(env, lays, section, fixup, counts);
      if FailsB(env, lays, section, fixup) || !env.backend.isPCRel(fixup.kind) then b
      else Asked(lays, b, Loc(section, k, 0))
  }

  function AskedFirst(env: Env, lays: seq<seq<Laid>>, section: nat, k: nat, fixups: seq<Fixup>, n: nat,
                      counts: seq<nat>): (r: seq<nat>)
    requires |counts| == |lays| && n <= |fixups|
    ensures |r| == |counts|
  {
    if n == 0 then counts
    else AskedFixup(env, lays, section, k, fixups[n - 1], AskedFirst(env, lays, section, k, fixups, n - 1, counts))
  }

  /** The first j fixups do not call for relaxation; a value that is unset may or may not. */
  predicate NoneCalls(env: Env, lays: seq<seq<Laid>>, section: nat, k: nat, fixups: seq<Fixup>, j: nat)
    requires j <= |fixups|
  {
    forall i :: 0 <= i < j ==> !FixupOverflows(env, lays, section, k, fixups[i])
  }

  /** Fixup j is the first to call for relaxation, or one whose value is unset. */
  predicate CallsAt(env: Env, lays: seq<seq<Laid>>, section: nat, k: nat, fixups: seq<Fixup>, j: nat, counts: seq<nat>,
                    counts': seq<nat>)
    requires |counts| == |lays|
  {
    && j < |fixups| && NoneCalls(env, lays, section, k, fixups, j)
    && FixupMayOverflow(env, lays, section, k, fixups[j])
    && counts' == AskedFirst(env, lays, section, k, fixups, j + 1, counts)
  }

  /** Asking whether a fragment needs relaxing may have this answer and leave these counts. */
  ghost predicate Decides(env: Env, lays: seq<seq<Laid>>, section: nat, k: nat, fixups: seq<Fixup>, counts: seq<nat>,
                          needs: bool, counts': seq<nat>)
    requires |counts| == |lays|
  {
    if needs then exists j: nat :: CallsAt(env, lays, section, k, fixups, j, counts, counts')
    else
      && NoneCalls(env, lays, section, k, fixups, |fixups|)
      && counts' == AskedFirst(env, lays, section, k, fixups, |fixups|, counts)
  }

  /** Fragment k of section s relaxed: the cache has seen the old one where it had got that far. */
  function ResizedFile(backend: Backend, file: File, s: nat, k: nat): File
    requires file.Sized() && s < |file.all| && k < |file.all[s]| && file.all[s][k].Relaxable?
  {
    var shape := RelaxedShape(backend, file.all[s][k]);
    File(file.all[s := file.all[s][k := shape]],
         if k < file.counts[s] then file.put else file.put[s := file.put[s][k := shape]],
         if k + 1 < file.counts[s] then file.passed else file.passed[s := file.passed[s][k := shape]],
         file.counts)
  }

  lemma IsResized(backend: Backend, a: File, s: nat, k: nat, b: File, put: seq<Shape>, passed: seq<Shape>)
    requires a.Sized() && s < |a.all| && k < |a.all[s]| && a.all[s][k].Relaxable?
    requires b.all == a.all[s := a.all[s][k := RelaxedShape(backend, a.all[s][k])]] && b.counts == a.counts
    requires put == if k < a.counts[s] then a.put[s] else a.put[s][k := RelaxedShape(backend, a.all[s][k])]
    requires passed == if k + 1 < a.counts[s] then a.passed[s] else a.passed[s][k := RelaxedShape(backend, a.all[s][k])]
    requires b.put == a.put[s := put] && b.passed == a.passed[s := passed]
    ensures b == ResizedFile(backend, a, s, k)
  {
    assert a.put[s := a.put[s]] == a.put && a.passed[s := a.passed[s]] == a.passed;
  }

  /** The turn of fragment k of section s. */
  ghost predicate Turn(env: Env, a: File, s: nat, k: nat, b: File, relaxed: bool)
    requires a.Sized() && s < |a.all| && k < |a.all[s]|
  {
    var f := a.all[s][k];
    if !f.Relaxable? || !env.backend.mayNeedRelaxation(f.inst) then !relaxed && b == a
    else
      && Decides(env, Lays(env, a), s, k, f.fixups, a.counts, relaxed, b.counts)
      && |b.counts| == |a.counts|
      && b == if relaxed then ResizedFile(env.backend, a.(counts := b.counts), s, k) else a.(counts := b.counts)
  }

  /** The end of a pass over section s that relaxed fragment `first` first. */
  function Dropped(file: File, s: nat, first: nat): File
    requires file.Sized() && s < |file.all|
  {
    File(file.all, file.put[s := file.all[s]], file.passed[s := file.all[s]],
         file.counts[s := if file.counts[s] <= first then file.counts[s] else first])
  }

  /**
   Where the loops are: at fragment k of section s, with the first fragment relaxed in this pass
   and whether a pass of this sweep over the sections has relaxed one.
   */
  datatype Control = At(s: nat, k: nat, first: Option<nat>, was: bool) | Done

  datatype State = State(file: File, at: Control)

  /** One step of the loops. */
  ghost predicate Step(env: Env, a: State, b: State) {
    && a.file.Sized() && a.at.At?
    && var At(s, k, first, was) := a.at;
    if s >= |a.file.all| then b == State(a.file, AfterSweep(was))
    else if k >= |a.file.all[s]| then
      b == State(if first.Some? then Dropped(a.file, s, first.value) else a.file, AfterPass(s, first, was))
    else exists relaxed ::
        && Turn(env, a.file, s, k, b.file, relaxed)
        && b.at == AfterTurn(s, k, first, was, relaxed)
  }

  ghost predicate IsRun(env: Env, run: seq<State>) {
    forall i :: 0 <= i < |run| - 1 ==> Step(env, run[i], run[i + 1])
  }

  /** A run from one state to another. */
  ghost predicate Gets(env: Env, run: seq<State>, a: State, b: State) {
    run != [] && run[0] == a && run[|run| - 1] == b && IsRun(env, run)
  }

  lemma NoStep(env: Env, a: State)
    ensures Gets(env, [a], a, a)
  {
  }

  lemma OneMoreStep(env: Env, run: seq<State>, a: State, b: State, c: State)
    requires Gets(env, run, a, b) && Step(env, b, c)
    ensures Gets(env, run + [c], a, c)
  {
    var more := run + [c];
    forall i | 0 <= i < |more| - 1
      ensures Step(env, more[i], more[i + 1])
    {
      if i < |run| - 1 {
        assert Step(env, run[i], run[i + 1]);
      }
    }
  }

  /** Where the loops are after the turn of fragment k. */
  function AfterTurn(s: nat, k: nat, first: Option<nat>, was: bool, relaxed: bool): Control {
    At(s, k + 1, if relaxed && first.None? then Some(k) else first, was)
  }

  lemma TurnTaken(env: Env, run: seq<State>, start: State, a: File, s: nat, k: nat, first: Option<nat>, was: bool,
                  b: File, relaxed: bool)
    requires Gets(env, run, start, State(a, At(s, k, first, was)))
    requires a.Sized() && s < |a.all| && k < |a.all[s]| && Turn(env, a, s, k, b, relaxed)
    ensures Gets(env, run + [State(b, AfterTurn(s, k, first, was, relaxed))], start,
                 State(b, AfterTurn(s, k, first, was, relaxed)))
  {
    OneMoreStep(env, run, start, State(a, At(s, k, first, was)), State(b, AfterTurn(s, k, first, was, relaxed)));
  }

  /** The end of a pass, and of a sweep. */
  function AfterPass(s: nat, first: Option<nat>, was: bool): Control {
    if first.Some? then At(s, 0, None, true) else At(s + 1, 0, None, was)
  }

  lemma PassOver(env: Env, run: seq<State>, start: State, a: File, s: nat, first: Option<nat>, was: bool, b: File)
    requires a.Sized() && s < |a.all| && b == if first.Some? then Dropped(a, s, first.value) else a
    requires Gets(env, run, start, State(a, At(s, |a.all[s]|, first, was)))
    ensures Gets(env, run + [State(b, AfterPass(s, first, was))], start, State(b, AfterPass(s, first, was)))
  {
    OneMoreStep(env, run, start, State(a, At(s, |a.all[s]|, first, was)), State(b, AfterPass(s, first, was)));
  }

  function AfterSweep(was: bool): Control {
    if was then At(0, 0, None, false) else Done
  }

  lemma SweepOver(env: Env, run: seq<State>, start: State, a: File, was: bool)
    requires a.Sized() && Gets(env, run, start, State(a, At(|a.all|, 0, None, was)))
    ensures Gets(env, run + [State(a, AfterSweep(was))], start, State(a, AfterSweep(was)))
  {
    OneMoreStep(env, run, start, State(a, At(|a.all|, 0, None, was)), State(a, AfterSweep(was)));
  }

  /** A fragment left as it is does not need relaxing, and one relaxed may. */
  lemma TurnDecides(env: Env, a: File, s: nat, k: nat, b: File, relaxed: bool)
    requires a.Sized() && s < |a.all| && k < |a.all[s]| && Turn(env, a, s, k, b, relaxed)
    ensures !relaxed ==> !NeedsRelaxation(env, Lays(env, a), s, k, a.all[s][k])
    ensures relaxed ==> MayNeedRelaxation(env, Lays(env, a), s, k, a.all[s][k])
  {
    if relaxed {
      var j: nat :| CallsAt(env, Lays(env, a), s, k, a.all[s][k].fixups, j, a.counts, b.counts);
    }
  }

  /** A pass over section s and how it began: the file, the layouts, and whether all fits its bundles. */
  datatype Pass =
    Pass(s: nat, before: seq<seq<Shape>>, laid: seq<seq<Laid>>, wasSnug: bool, fits: bool, rank: Inst -> nat)

  /**
   The first i fragments have had their turn in the pass, and `first` is the first one relaxed.
   Up to it nothing has changed; if there is none, nothing has changed at all, and none of
   the i fragments needs relaxing.
   */
  ghost predicate PassAt(env: Env, p: Pass, i: nat, first: Option<nat>, now: File, lays: seq<seq<Laid>>, snug: bool) {
    && now.Sized() && p.s < |now.all| == |p.before| && |now.all[p.s]| == |p.before[p.s]|
    && (forall t :: 0 <= t < |now.all| && t != p.s ==> now.put[t] == now.all[t] && now.passed[t] == now.all[t])
    && RelaxedFrom(env.backend, p.before, now.all) && (p.wasSnug && p.fits ==> snug)
    && match first
       case None =>
         && now.all == p.before && now.put == now.all && now.passed == now.all && lays == p.laid && snug == p.wasSnug
         && (snug ==> NoneNeeded(env, lays, p.s, now.all[p.s], i))
       case Some(j) =>
         && j < i && SameTo(now.put[p.s], now.all[p.s], j) && SameTo(now.passed[p.s], now.all[p.s], j)
         && TotalRank(p.rank, now.all) < TotalRank(p.rank, p.before)
         && (p.wasSnug ==> MayNeedOneIn(env, p.laid, p.s, p.before[p.s]))
  }

  lemma PassBegins(env: Env, p: Pass, now: File)
    requires now.Sized() && p.s < |now.all| && p.before == now.put == now.passed == now.all
    ensures PassAt(env, p, 0, None, now, p.laid, p.wasSnug)
  {
    RelaxedFromSelf(env.backend, now.all);
  }

  /** A turn that relaxes nothing. */
  lemma PassLeaves(env: Env, p: Pass, i: nat, first: Option<nat>, a: File, lays: seq<seq<Laid>>, snug: bool, b: File)
    requires PassAt(env, p, i, first, a, lays, snug) && i < |a.all[p.s]|
    requires |b.counts| == |a.counts| && b == a.(counts := b.counts)
    requires snug ==> !NeedsRelaxation(env, lays, p.s, i, a.all[p.s][i])
    ensures PassAt(env, p, i + 1, first, b, lays, snug)
  {
  }

  /** A turn that relaxes its fragment. */
  lemma PassRelaxes(env: Env, p: Pass, i: nat, first: Option<nat>, a: File, lays: seq<seq<Laid>>, snug: bool, b: File,
                    lays': seq<seq<Laid>>, snug': bool)
    requires PassAt(env, p, i, first, a, lays, snug) && i < |a.all[p.s]| && a.all[p.s][i].Relaxable?
    requires |b.counts| == |a.counts| && b == ResizedFile(env.backend, a.(counts := b.counts), p.s, i)
    requires RelaxedFrom(env.backend, a.all, b.all) && TotalRank(p.rank, b.all) < TotalRank(p.rank, a.all)
    requires snug && p.fits ==> snug'
    requires snug ==> MayNeedRelaxation(env, lays, p.s, i, a.all[p.s][i])
    requires p.wasSnug && first.None? ==> snug
    ensures PassAt(env, p, i + 1, if first.None? then Some(i) else first, b, lays', snug')
  {
    RelaxedFromChain(env.backend, p.before, a.all, b.all);
    assert first.None? && snug ==> MayNeedOneIn(env, p.laid, p.s, p.before[p.s]);
  }

  /** What one turn may do to the file, apart from whether it should. */
  ghost predicate Turned(backend: Backend, rank: Inst -> nat, a: File, s: nat, i: nat, b: File, relaxed: bool)
    requires a.Sized() && s < |a.all| && i < |a.all[s]|
  {
    && |b.counts| == |a.counts|
    && if relaxed then
         && a.all[s][i].Relaxable? && b == ResizedFile(backend, a.(counts := b.counts), s, i)
         && RelaxedFrom(backend, a.all, b.all) && TotalRank(rank, b.all) < TotalRank(rank, a.all)
       else b == a.(counts := b.counts)
  }

  /** The pass and the run after one more turn. */
  lemma TurnOver(env: Env, p: Pass, i: nat, first: Option<nat>, run: seq<State>, start: State, was: bool, a: File,
                 lays: seq<seq<Laid>>, snug: bool, b: File, lays': seq<seq<Laid>>, snug': bool, relaxed: bool)
    requires PassAt(env, p, i, first, a, lays, snug) && i < |a.all[p.s]| && lays == Lays(env, a)
    requires Turned(env.backend, p.rank, a, p.s, i, b, relaxed) && (!relaxed ==> lays' == lays && snug' == snug)
    requires snug ==> Gets(env, run, start, State(a, At(p.s, i, first, was))) && Turn(env, a, p.s, i, b, relaxed)
    requires (snug' ==> snug) && (snug && p.fits ==> snug')
    ensures PassAt(env, p, i + 1, if relaxed && first.None? then Some(i) else first, b, lays', snug')
    ensures snug' ==> Gets(env, run + [State(b, AfterTurn(p.s, i, first, was, relaxed))], start,
                           State(b, AfterTurn(p.s, i, first, was, relaxed)))
  {
    if snug {
      TurnDecides(env, a, p.s, i, b, relaxed);
      TurnTaken(env, run, start, a, p.s, i, first, was, b, relaxed);
    }
    if relaxed {
      PassRelaxes(env, p, i, first, a, lays, snug, b, lays', snug');
    } else {
      PassLeaves(env, p, i, first, a, lays, snug, b);
    }
  }

  // Runs do not branch, where no value is unset.

  /** No fixup of the fragment has a value that the code reads without having set it. */
  ghost predicate ShapeDecided(env: Env, lays: seq<seq<Laid>>, section: nat, k: nat, f: Shape) {
    f.Relaxable? ==>
      forall j :: 0 <= j < |f.fixups| ==> !EvalFixup(env, lays, section, k, f.fixups[j]).Indeterminate?
  }

  ghost predicate Decided(env: Env, file: File) {
    && file.Sized()
    && forall s, k :: 0 <= s < |file.all| && 0 <= k < |file.all[s]| ==>
         ShapeDecided(env, Lays(env, file), s, k, file.all[s][k])
  }

  lemma DecidesOnce(env: Env, lays: seq<seq<Laid>>, section: nat, k: nat, f: Shape, counts: seq<nat>,
                    a: bool, x: seq<nat>, b: bool, y: seq<nat>)
    requires |counts| == |lays| && f.Relaxable? && ShapeDecided(env, lays, section, k, f)
    requires Decides(env, lays, section, k, f.fixups, counts, a, x)
    requires Decides(env, lays, section, k, f.fixups, counts, b, y)
    ensures a == b && x == y
  {
    if a && b {
      var i: nat :| CallsAt(env, lays, section, k, f.fixups, i, counts, x);
      var j: nat :| CallsAt(env, lays, section, k, f.fixups, j, counts, y);
    }
  }

  lemma TurnOnce(env: Env, a: File, s: nat, k: nat, b: File, r: bool, c: File, q: bool)
    requires Decided(env, a) && s < |a.all| && k < |a.all[s]|
    requires Turn(env, a, s, k, b, r) && Turn(env, a, s, k, c, q)
    ensures r == q && b == c
  {
    var f := a.all[s][k];
    if f.Relaxable? && env.backend.mayNeedRelaxation(f.inst) {
      DecidesOnce(env, Lays(env, a), s, k, f, a.counts, r, b.counts, q, c.counts);
    }
  }

  lemma StepOnce(env: Env, a: State, b: State, c: State)
    requires Decided(env, a.file) && Step(env, a, b) && Step(env, a, c)
    ensures b == c
  {
    var At(s, k, first, was) := a.at;
    if s < |a.file.all| && k < |a.file.all[s]| {
      var r :| Turn(env, a.file, s, k, b.file, r) && b.at == AfterTurn(s, k, first, was, r);
      var q :| Turn(env, a.file, s, k, c.file, q) && c.at == AfterTurn(s, k, first, was, q);
      TurnOnce(env, a.file, s, k, b.file, r, c.file, q);
    }
  }

  lemma {:induction false} SameStates(env: Env, run: seq<State>, other: seq<State>, n: nat)
    requires IsRun(env, run) && IsRun(env, other) && run != [] && other != [] && run[0] == other[0]
    requires forall i :: 0 <= i < |run| ==> Decided(env, run[i].file)
    requires n < |run| && n < |other|
    ensures run[n] == other[n]
  {
    if n > 0 {
      SameStates(env, run, other, n - 1);
      assert Step(env, run[n - 1], run[n]) && Step(env, other[n - 1], other[n]);
      StepOnce(env, run[n - 1], run[n], other[n]);
    }
  }

  /** Two complete runs from the same file are the same run. */
  lemma RunsAgree(env: Env, run: seq<State>, other: seq<State>, start: State, f: File, g: File)
    requires Gets(env, run, start, State(f, Done)) && Gets(env, other, start, State(g, Done))
    requires forall i :: 0 <= i < |run| ==> Decided(env, run[i].file)
    ensures run == other && f == g
  {
    var n := if |run| <= |other| then |run| - 1 else |other| - 1;
    SameStates(env, run, other, n);
    assert n + 1 < |other| ==> Step(env, other[n], other[n + 1]);
    assert n + 1 < |run| ==> Step(env, run[n], run[n + 1]);
    forall i | 0 <= i < |run|
      ensures run[i] == other[i]
    {
      SameStates(env, run, other, i);
    }
  }
}
