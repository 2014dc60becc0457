/**
 Moving the base address by a multiple of 4, of every alignment and of the bundle size moves every
 offset by that much and changes nothing else: no size, no padding, no balanced fixup value, and no
 step of relaxation.
 */
module McShift {
  import opened Arith
  import opened McModel
  import opened McEager
  import opened McFixup
  import opened McTrace

  function Rebased(env: Env, d: nat): Env {
    env.(base := env.base + d)
  }

  function Moved(laid: seq<Laid>, d: nat): (r: seq<Laid>)
    ensures |r| == |laid| && forall k :: 0 <= k < |r| ==> r[k] == Laid(laid[k].start + d, laid[k].padding)
  {
    seq(|laid|, k requires 0 <= k < |laid| => Laid(laid[k].start + d, laid[k].padding))
  }

  /**
   A fragment the move does not disturb: alignments are powers of two that divide d, and an `.org`
   counts from a label.
   */
  ghost predicate Movable(f: Shape, d: nat) {
    && (f.Org? && f.target.Some? ==> f.target.value.anchor.Some?)
    && (f.Align? ==> exists n: nat :: n <= 32 && f.alignment == Pow2(n) && d % f.alignment == 0)
  }

  ghost predicate AllMovable(fs: seq<Shape>, d: nat) {
    AllLookBack(fs) && forall k :: 0 <= k < |fs| ==> Movable(fs[k], d)
  }

  /** Bundling is off, or bundles are a power of two that divides d. */
  ghost predicate BundlesMove(env: Env, d: nat) {
    env.bundle == 0 || exists n: nat :: env.bundle == Pow2(n) && d % env.bundle == 0
  }

  /** Offsets stay clear of the value that means "not laid out". */
  predicate NoWrap(laid: seq<Laid>, d: nat) {
    forall k :: 0 <= k < |laid| ==> laid[k].Offset() + d < OFFSET_UNSET
  }

  lemma {:induction false} Pow2Divides(m: nat, n: nat)
    requires m <= n
    ensures Pow2(n) == Pow2(m) * Pow2(n - m)
  {
    if m < n {
      Pow2Divides(m, n - 1);
      assert 2 * (Pow2(m) * Pow2(n - 1 - m)) == Pow2(m) * (2 * Pow2(n - 1 - m));
    }
  }

  lemma Pow2Of32()
    ensures Pow2(32) == TWO_32
  {
    assert Pow2(8) == 0x100;
    Pow2Divides(8, 16);
    Pow2Divides(16, 32);
  }

  /** Truncating an offset to 32 bits does not change its distance to an alignment. */
  lemma TruncationHarmless(x: nat, n: nat)
    requires n <= 32
    ensures OffsetToAlignment(x % TWO_32, Pow2(n)) == OffsetToAlignment(x, Pow2(n))
  {
    Pow2Of32();
    Pow2Divides(n, 32);
    ModOfMod(x, Pow2(n), Pow2(32 - n));
  }

  lemma AlignmentMoved(x: nat, d: nat, n: nat)
    requires n <= 32 && d % Pow2(n) == 0
    ensures OffsetToAlignment((x + d) % TWO_32, Pow2(n)) == OffsetToAlignment(x % TWO_32, Pow2(n))
  {
    TruncationHarmless(x, n);
    TruncationHarmless(x + d, n);
    ModAddDivisible(x, Pow2(n), d);
  }

  lemma AlignSizeMoved(backend: Backend, f: Shape, offset: nat, d: nat)
    requires f.Align? && Movable(f, d) && offset + d < OFFSET_UNSET
    ensures AlignSize(backend, f, offset + d) == AlignSize(backend, f, offset)
  {
    var n: nat :| n <= 32 && f.alignment == Pow2(n) && d % f.alignment == 0;
    AlignmentMoved(offset, d, n);
  }

  /** An `.org` and the label it counts from move together. */
  lemma OrgSizeMoved(f: Shape, laid: seq<Laid>, here: nat, d: nat)
    requires f.Org? && Movable(f, d) && NoWrap(laid, d)
    ensures OrgSize(f, Moved(laid, d), here) == OrgSize(f, laid, here)
  {
  }

  lemma SizeMoved(env: Env, f: Shape, laid: seq<Laid>, here: nat, d: nat)
    requires Movable(f, d) && NoWrap(laid, d)
    ensures FragmentSize(env.backend, f, Moved(laid, d), here) == FragmentSize(env.backend, f, laid, here)
  {
    if f.Align? && here < |laid| {
      AlignSizeMoved(env.backend, f, laid[here].Offset(), d);
    } else if f.Org? {
      OrgSizeMoved(f, laid, here, d);
    }
  }

  /** A fragment moved by whole bundles needs the padding it needed. */
  lemma PaddingMoved(env: Env, f: Shape, start: nat, d: nat)
    requires BundlesMove(env, d)
    ensures PaddingAt(Rebased(env, d), f, start + d) == PaddingAt(env, f, start)
  {
    if env.bundle > 0 {
      var n: nat :| env.bundle == Pow2(n) && d % env.bundle == 0;
      MaskIsMod(start, n);
      MaskIsMod(start + d, n);
      ModAddDivisible(start, env.bundle, d);
    }
  }

  ghost predicate SizeStays(env: Env, fs: seq<Shape>, laid: seq<Laid>, k: nat, d: nat)
    requires k < |fs|
  {
    FragmentSize(env.backend, fs[k], Moved(laid, d), k) == FragmentSize(env.backend, fs[k], laid, k)
  }

  /** If the size before fragment k stays, fragment k starts d further on. */
  lemma StartMoved(env: Env, fs: seq<Shape>, laid: seq<Laid>, k: nat, d: nat)
    requires k <= |fs| && k <= |laid| && (k > 0 ==> SizeStays(env, fs, laid, k - 1, d))
    ensures StartOf(Rebased(env, d), fs, Moved(laid, d), k) ==
            match StartOf(env, fs, laid, k)
            case None => None
            case Some(start) => Some(start + d)
  {
  }

  lemma MixedAtMoved(env: Env, put: seq<Shape>, passed: seq<Shape>, laid: seq<Laid>, k: nat, d: nat)
    requires BundlesMove(env, d) && k < |put| == |passed| && k < |laid| && MixedAt(env, put, passed, laid, k)
    requires k > 0 ==> SizeStays(env, passed, laid, k - 1, d)
    ensures MixedAt(Rebased(env, d), put, passed, Moved(laid, d), k)
  {
    StartMoved(env, passed, laid, k, d);
    PaddingMoved(env, put[k], laid[k].start, d);
  }

  lemma MixedMovedBySizes(env: Env, put: seq<Shape>, passed: seq<Shape>, laid: seq<Laid>, d: nat)
    requires BundlesMove(env, d) && IsMixed(env, put, passed, laid)
    requires forall k :: 0 <= k < |laid| ==> SizeStays(env, passed, laid, k, d)
    ensures IsMixed(Rebased(env, d), put, passed, Moved(laid, d))
  {
    forall k | 0 <= k < |laid|
      ensures MixedAt(Rebased(env, d), put, passed, Moved(laid, d), k)
    {
      MixedAtMoved(env, put, passed, laid, k, d);
    }
    StartMoved(env, passed, laid, |laid|, d);
  }

  /** What a cache holds moves by d as well, also in the middle of a pass. */
  lemma MixedMoved(env: Env, put: seq<Shape>, passed: seq<Shape>, d: nat)
    requires BundlesMove(env, d) && |put| == |passed| && AllMovable(passed, d) && NoWrap(Mixed(env, put, passed), d)
    ensures Mixed(Rebased(env, d), put, passed) == Moved(Mixed(env, put, passed), d)
    ensures forall k :: 0 <= k < |Mixed(env, put, passed)| ==> SizeStays(env, passed, Mixed(env, put, passed), k, d)
  {
    var laid := Mixed(env, put, passed);
    forall k | 0 <= k < |laid|
      ensures SizeStays(env, passed, laid, k, d)
    {
      SizeMoved(env, passed[k], laid, k, d);
    }
    MixedIs(env, put, passed);
    MixedMovedBySizes(env, put, passed, laid, d);
    MixedUnique(Rebased(env, d), put, passed, Moved(laid, d));
  }

  /** Every offset moves by d; what is reached, every size and every padding stay. */
  lemma LayoutMoved(env: Env, fs: seq<Shape>, d: nat)
    requires BundlesMove(env, d) && AllMovable(fs, d) && NoWrap(Eager(env, fs), d)
    ensures Eager(Rebased(env, d), fs) == Moved(Eager(env, fs), d)
    ensures forall k :: 0 <= k < |Eager(env, fs)| ==> SizeStays(env, fs, Eager(env, fs), k, d)
  {
    MixedMoved(env, fs, fs, d);
  }

  function AllMoved(lays: seq<seq<Laid>>, d: nat): (r: seq<seq<Laid>>)
    ensures |r| == |lays| && forall s :: 0 <= s < |r| ==> r[s] == Moved(lays[s], d)
  {
    seq(|lays|, s requires 0 <= s < |lays| => Moved(lays[s], d))
  }

  /** How far the value of a symbol moves. */
  function Drift(symbol: Symbol, d: nat): int {
    match symbol
    case Undefined => 0
    case Label(_) => d
    case Variable(None, _) => 0
    case Variable(Some(v), _) => (if v.symA.Some? then d else 0) - (if v.symB.Some? then d else 0)
  }

  function DriftOf(env: Env, ref: Option<SymRef>, d: nat): int {
    if ref.None? then 0 else Drift(SymbolOf(env, ref.value.symbol), d)
  }

  /** How far the value of a fixup moves. */
  function FixupDrift(env: Env, fixup: Fixup, d: nat): int
    requires fixup.value.Some?
  {
    DriftOf(env, fixup.value.value.symA, d) - DriftOf(env, fixup.value.value.symB, d)
      - (if env.backend.isPCRel(fixup.kind) then d else 0)
  }

  ghost predicate AllClear(lays: seq<seq<Laid>>, d: nat) {
    forall s :: 0 <= s < |lays| ==> NoWrap(lays[s], d)
  }

  lemma LabelMoved(lays: seq<seq<Laid>>, loc: Loc, d: nat)
    requires AllClear(lays, d)
    ensures LabelOffset(AllMoved(lays, d), loc) ==
            match LabelOffset(lays, loc) case None => None case Some(offset) => Some(offset + d)
  {
  }

  /** Labels of the symbol lie in laid-out fragments. */
  predicate Placed(lays: seq<seq<Laid>>, symbol: Symbol) {
    match symbol
    case Label(loc) => LabelOffset(lays, loc).Some?
    case _ => true
  }

  lemma SymbolMoved(lays: seq<seq<Laid>>, symbol: Symbol, d: nat)
    requires AllClear(lays, d) && !symbol.Undefined? && Placed(lays, symbol)
    ensures OffsetOfSymbol(AllMoved(lays, d), symbol) ==
            match OffsetOfSymbol(lays, symbol)
            case Offset(value) => Offset(value + Drift(symbol, d))
            case other => other
  {
    match symbol
    case Label(loc) =>
      LabelMoved(lays, loc, d);
    case Variable(None, _) =>
    case Variable(Some(v), _) =>
      if v.symA.Some? {
        LabelMoved(lays, v.symA.value, d);
      }
      if v.symB.Some? {
        LabelMoved(lays, v.symB.value, d);
      }
  }

  predicate AllPlaced(env: Env, lays: seq<seq<Laid>>) {
    forall id :: 0 <= id < |env.symbols| ==> Placed(lays, env.symbols[id])
  }

  function Plus(p: Partial, x: int): Partial {
    match p
    case Sum(value, resolved) => Sum(value + x, resolved)
    case other => other
  }

  lemma AfterSymAMoved(env: Env, lays: seq<seq<Laid>>, section: nat, fixup: Fixup, d: nat)
    requires AllClear(lays, d) && AllPlaced(env, lays) && fixup.value.Some?
    ensures AfterSymA(Rebased(env, d), AllMoved(lays, d), section, fixup) ==
            Plus(AfterSymA(env, lays, section, fixup), DriftOf(env, fixup.value.value.symA, d))
  {
    var ref := fixup.value.value.symA;
    if ref.Some? && !SymbolOf(env, ref.value.symbol).Undefined? {
      SymbolMoved(lays, SymbolOf(env, ref.value.symbol), d);
    }
  }

  lemma AfterSymBMoved(env: Env, lays: seq<seq<Laid>>, section: nat, fixup: Fixup, d: nat)
    requires AllClear(lays, d) && AllPlaced(env, lays) && fixup.value.Some?
    ensures AfterSymB(Rebased(env, d), AllMoved(lays, d), section, fixup) ==
            Plus(AfterSymB(env, lays, section, fixup),
                 DriftOf(env, fixup.value.value.symA, d) - DriftOf(env, fixup.value.value.symB, d))
  {
    AfterSymAMoved(env, lays, section, fixup, d);
    var ref := fixup.value.value.symB;
    if ref.Some? && !SymbolOf(env, ref.value.symbol).Undefined? {
      SymbolMoved(lays, SymbolOf(env, ref.value.symbol), d);
    }
  }

  /** Moving the base by d moves the value of a fixup by its drift. */
  lemma RawValueMoved(env: Env, lays: seq<seq<Laid>>, section: nat, k: nat, fixup: Fixup, d: nat)
    requires AllClear(lays, d) && AllPlaced(env, lays) && d % 4 == 0 && fixup.value.Some?
    ensures RawValue(Rebased(env, d), AllMoved(lays, d), section, k, fixup) ==
            Plus(RawValue(env, lays, section, k, fixup), FixupDrift(env, fixup, d))
  {
    AfterSymBMoved(env, lays, section, fixup, d);
    LabelMoved(lays, Loc(section, k, 0), d);
    SubtractPCMoved(env, fixup, LabelOffset(lays, Loc(section, k, 0)), AfterSymB(env, lays, section, fixup), d,
      DriftOf(env, fixup.value.value.symA, d) - DriftOf(env, fixup.value.value.symB, d));
  }

  lemma SubtractPCMoved(env: Env, fixup: Fixup, offset: Option<nat>, sum: Partial, d: nat, drift: int)
    requires d % 4 == 0
    ensures SubtractPC(Rebased(env, d), fixup, if offset.None? then None else Some(offset.value + d),
        Plus(sum, drift)) ==
            Plus(SubtractPC(env, fixup, offset, sum), drift - (if env.backend.isPCRel(fixup.kind) then d else 0))
  {
  }

  /** A pc-relative reference to a label, or an absolute constant, does not drift. */
  lemma BalancedKinds(env: Env, fixup: Fixup, d: nat)
    requires fixup.value.Some? && fixup.value.value.symB.None?
    requires
      if env.backend.isPCRel(fixup.kind)
      then fixup.value.value.symA.Some? && SymbolOf(env, fixup.value.value.symA.value.symbol).Label?
      else fixup.value.value.symA.None?
    ensures FixupDrift(env, fixup, d) == 0
  {
  }

  /** The move cancels out of every fixup of the fragment. */
  predicate Balanced(env: Env, f: Shape, d: nat) {
    f.Relaxable? ==>
      forall j :: 0 <= j < |f.fixups| && f.fixups[j].value.Some? ==> FixupDrift(env, f.fixups[j], d) == 0
  }

  /** A fixup that does not drift has the value it had. */
  lemma EvalMoved(env: Env, lays: seq<seq<Laid>>, section: nat, k: nat, fixup: Fixup, d: nat)
    requires AllClear(lays, d) && AllPlaced(env, lays) && d % 4 == 0
    requires fixup.value.Some? ==> FixupDrift(env, fixup, d) == 0
    ensures EvalFixup(Rebased(env, d), AllMoved(lays, d), section, k, fixup) == EvalFixup(env, lays, section, k, fixup)
  {
    if fixup.value.Some? {
      RawValueMoved(env, lays, section, k, fixup, d);
    }
  }

  /** A balanced fragment needs relaxing at the new base exactly when it does at the old one. */
  lemma DecisionMoved(env: Env, lays: seq<seq<Laid>>, section: nat, k: nat, f: Shape, d: nat)
    requires AllClear(lays, d) && AllPlaced(env, lays) && d % 4 == 0 && Balanced(env, f, d)
    ensures NeedsRelaxation(Rebased(env, d), AllMoved(lays, d), section, k, f) <==>
            NeedsRelaxation(env, lays, section, k, f)
  {
    if f.Relaxable? {
      forall j | 0 <= j < |f.fixups|
        ensures FixupOverflows(Rebased(env, d), AllMoved(lays, d), section, k, f.fixups[j]) ==
                FixupOverflows(env, lays, section, k, f.fixups[j])
      {
        EvalMoved(env, lays, section, k, f.fixups[j], d);
      }
    }
  }

  /** The layouts of all sections. */
  function EagerAll(env: Env, all: seq<seq<Shape>>): (lays: seq<seq<Laid>>)
    ensures |lays| == |all| && forall s :: 0 <= s < |lays| ==> lays[s] == Eager(env, all[s])
  {
    seq(|all|, s requires 0 <= s < |all| => Eager(env, all[s]))
  }

  /** No fragment of the file needs relaxing under its own layout. */
  ghost predicate Settled(env: Env, all: seq<seq<Shape>>) {
    forall s, k :: 0 <= s < |all| && 0 <= k < |all[s]| ==>
      !NeedsRelaxation(env, EagerAll(env, all), s, k, all[s][k])
  }

  /** A file is a relaxation fixpoint at one base exactly when it is at the other. */
  lemma FixpointMoved(env: Env, all: seq<seq<Shape>>, d: nat)
    requires BundlesMove(env, d) && d % 4 == 0
    requires forall s :: 0 <= s < |all| ==> AllMovable(all[s], d)
    requires AllClear(EagerAll(env, all), d) && AllPlaced(env, EagerAll(env, all))
    requires forall s, k :: 0 <= s < |all| && 0 <= k < |all[s]| ==> Balanced(env, all[s][k], d)
    ensures EagerAll(Rebased(env, d), all) == AllMoved(EagerAll(env, all), d)
    ensures Settled(Rebased(env, d), all) <==> Settled(env, all)
  {
    forall s | 0 <= s < |all|
      ensures Eager(Rebased(env, d), all[s]) == Moved(Eager(env, all[s]), d)
    {
      assert AllMovable(all[s], d);
      assert NoWrap(EagerAll(env, all)[s], d);
      LayoutMoved(env, all[s], d);
    }
    assert EagerAll(Rebased(env, d), all) == AllMoved(EagerAll(env, all), d);
    forall s, k | 0 <= s < |all| && 0 <= k < |all[s]|
      ensures NeedsRelaxation(Rebased(env, d), EagerAll(Rebased(env, d), all), s, k, all[s][k]) <==>
              NeedsRelaxation(env, EagerAll(env, all), s, k, all[s][k])
    {
      DecisionMoved(env, EagerAll(env, all), s, k, all[s][k], d);
    }
  }

  // Whole runs.

  lemma AskedSymbolMoved(lays: seq<seq<Laid>>, counts: seq<nat>, symbol: Symbol, d: nat)
    requires AllClear(lays, d) && |counts| == |lays|
    ensures AskedSymbol(AllMoved(lays, d), counts, symbol) == AskedSymbol(lays, counts, symbol)
  {
    match symbol
    case Variable(Some(v), _) =>
      if v.symA.Some? {
        LabelMoved(lays, v.symA.value, d);
      }
    case _ =>
  }

  lemma AskedFixupMoved(env: Env, lays: seq<seq<Laid>>, section: nat, k: nat, fixup: Fixup, counts: seq<nat>, d: nat)
    requires AllClear(lays, d) && AllPlaced(env, lays) && |counts| == |lays|
    ensures AskedFixup(Rebased(env, d), AllMoved(lays, d), section, k, fixup, counts)
            == AskedFixup(env, lays, section, k, fixup, counts)
  {
    if fixup.value.Some? {
      var target := fixup.value.value;
      AfterSymAMoved(env, lays, section, fixup, d);
      if target.symA.Some? {
        AskedSymbolMoved(lays, counts, SymbolOf(env, target.symA.value.symbol), d);
      }
      if target.symB.Some? {
        AskedSymbolMoved(lays, AskedRef(env, lays, counts, target.symA), SymbolOf(env, target.symB.value.symbol), d);
      }
    }
  }

  lemma {:induction false} AskedFirstMoved(env: Env, lays: seq<seq<Laid>>, section: nat, k: nat, fixups: seq<Fixup>,
                                           n: nat, counts: seq<nat>, d: nat)
    requires AllClear(lays, d) && AllPlaced(env, lays) && |counts| == |lays| && n <= |fixups|
    ensures AskedFirst(Rebased(env, d), AllMoved(lays, d), section, k, fixups, n, counts)
            == AskedFirst(env, lays, section, k, fixups, n, counts)
  {
    if n > 0 {
      AskedFirstMoved(env, lays, section, k, fixups, n - 1, counts, d);
      AskedFixupMoved(env, lays, section, k, fixups[n - 1],
        AskedFirst(env, lays, section, k, fixups, n - 1, counts), d);
    }
  }

  /** All that holds of a file for its next step to be the same at the two bases. */
  ghost predicate Calm(env: Env, file: File, d: nat) {
    && file.Sized() && BundlesMove(env, d) && d % 4 == 0
    && (forall s :: 0 <= s < |file.passed| ==> AllMovable(file.passed[s], d))
    && AllClear(Lays(env, file), d) && AllPlaced(env, Lays(env, file))
    && forall s, k :: 0 <= s < |file.all| && 0 <= k < |file.all[s]| ==> Balanced(env, file.all[s][k], d)
  }

  lemma LaysMoved(env: Env, file: File, d: nat)
    requires Calm(env, file, d)
    ensures Lays(Rebased(env, d), file) == AllMoved(Lays(env, file), d)
  {
    forall s | 0 <= s < |file.all|
      ensures Lays(Rebased(env, d), file)[s] == Moved(Lays(env, file)[s], d)
    {
      assert AllMovable(file.passed[s], d) && NoWrap(Lays(env, file)[s], d);
      MixedMoved(env, file.put[s], file.passed[s], d);
    }
  }

  lemma CallsMoved(env: Env, lays: seq<seq<Laid>>, section: nat, k: nat, f: Shape, counts: seq<nat>, d: nat)
    requires AllClear(lays, d) && AllPlaced(env, lays) && d % 4 == 0 && Balanced(env, f, d) && f.Relaxable?
    requires |counts| == |lays|
    ensures forall needs, counts' ::
      Decides(Rebased(env, d), AllMoved(lays, d), section, k, f.fixups, counts, needs, counts')
      <==> Decides(env, lays, section, k, f.fixups, counts, needs, counts')
  {
    forall j | 0 <= j < |f.fixups|
      ensures EvalFixup(Rebased(env, d), AllMoved(lays, d), section, k, f.fixups[j])
              == EvalFixup(env, lays, section, k, f.fixups[j])
    {
      EvalMoved(env, lays, section, k, f.fixups[j], d);
    }
    forall j | 0 <= j <= |f.fixups|
      ensures AskedFirst(Rebased(env, d), AllMoved(lays, d), section, k, f.fixups, j, counts)
              == AskedFirst(env, lays, section, k, f.fixups, j, counts)
    {
      AskedFirstMoved(env, lays, section, k, f.fixups, j, counts, d);
    }
    forall j: nat, counts'
      ensures CallsAt(Rebased(env, d), AllMoved(lays, d), section, k, f.fixups, j, counts, counts')
              <==> CallsAt(env, lays, section, k, f.fixups, j, counts, counts')
    {
    }
  }

  lemma TurnMoved(env: Env, a: File, s: nat, k: nat, b: File, relaxed: bool, d: nat)
    requires Calm(env, a, d) && s < |a.all| && k < |a.all[s]|
    ensures Turn(Rebased(env, d), a, s, k, b, relaxed) <==> Turn(env, a, s, k, b, relaxed)
  {
    LaysMoved(env, a, d);
    if a.all[s][k].Relaxable? {
      CallsMoved(env, Lays(env, a), s, k, a.all[s][k], a.counts, d);
    }
  }

  lemma StepMoved(env: Env, a: State, b: State, d: nat)
    requires Calm(env, a.file, d)
    ensures Step(Rebased(env, d), a, b) <==> Step(env, a, b)
  {
    if a.at.At? && a.at.s < |a.file.all| && a.at.k < |a.file.all[a.at.s]| {
      TurnMoved(env, a.file, a.at.s, a.at.k, b.file, false, d);
      TurnMoved(env, a.file, a.at.s, a.at.k, b.file, true, d);
    }
  }

  ghost predicate AllCalm(env: Env, run: seq<State>, d: nat) {
    forall i :: 0 <= i < |run| ==> Calm(env, run[i].file, d)
  }

  /** The runs of relaxation at the one base are those at the other, stale caches and all. */
  lemma RunMoved(env: Env, run: seq<State>, d: nat)
    requires AllCalm(env, run, d)
    ensures IsRun(Rebased(env, d), run) <==> IsRun(env, run)
  {
    forall i | 0 <= i < |run| - 1
      ensures Step(Rebased(env, d), run[i], run[i + 1]) <==> Step(env, run[i], run[i + 1])
    {
      StepMoved(env, run[i], run[i + 1], d);
    }
  }

  lemma DecidedMoved(env: Env, file: File, d: nat)
    requires Calm(env, file, d) && Decided(env, file)
    ensures Decided(Rebased(env, d), file)
  {
    LaysMoved(env, file, d);
    forall s, k | 0 <= s < |file.all| && 0 <= k < |file.all[s]|
      ensures ShapeDecided(Rebased(env, d), Lays(Rebased(env, d), file), s, k, file.all[s][k])
    {
      var f := file.all[s][k];
      assert ShapeDecided(env, Lays(env, file), s, k, f) && Balanced(env, f, d);
      if f.Relaxable? {
        forall j | 0 <= j < |f.fixups|
          ensures !EvalFixup(Rebased(env, d), AllMoved(Lays(env, file), d), s, k, f.fixups[j]).Indeterminate?
        {
          EvalMoved(env, Lays(env, file), s, k, f.fixups[j], d);
        }
      }
    }
  }

  /**
   Relaxing a file at either base goes through the same states and ends with the same contents,
   laid out d further on.
   */
  lemma SameAtBothBases(env: Env, run: seq<State>, other: seq<State>, start: State, f: File, g: File, d: nat)
    requires Gets(env, run, start, State(f, Done)) && Gets(Rebased(env, d), other, start, State(g, Done))
    requires AllCalm(env, run, d) && forall i :: 0 <= i < |run| ==> Decided(env, run[i].file)
    ensures run == other && f == g
    ensures f.Sized() && Lays(Rebased(env, d), g) == AllMoved(Lays(env, f), d)
  {
    RunMoved(env, run, d);
    assert Calm(env, run[|run| - 1].file, d);
    LaysMoved(env, f, d);
    forall i | 0 <= i < |run|
      ensures Decided(Rebased(env, d), run[i].file)
    {
      DecidedMoved(env, run[i].file, d);
    }
    RunsAgree(Rebased(env, d), run, other, start, f, g);
  }
}
