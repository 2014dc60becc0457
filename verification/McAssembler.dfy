/**
 The assembler: evaluates fixups through the lazy layout, relaxes instructions until nothing
 needs relaxing, and then lays out every fragment.
 */
module McAssembler {
  import opened McModel
  import opened McEager
  import opened McFixup
  import opened McPatch
  import opened McRank
  import opened McRelax
  import opened McSection
  import opened McTrace

  ghost predicate LabelIn(contents: seq<seq<Shape>>, loc: Loc) {
    loc.section < |contents| && loc.fragment < |Filled(contents[loc.section])|
  }

  /** The labels a symbol depends on exist. */
  ghost predicate SymbolIn(contents: seq<seq<Shape>>, symbol: Symbol) {
    match symbol
    case Undefined => true
    case Label(loc) => LabelIn(contents, loc)
    case Variable(None, _) => true
    case Variable(Some(v), _) =>
      (v.symA.Some? ==> LabelIn(contents, v.symA.value)) && (v.symB.Some? ==> LabelIn(contents, v.symB.value))
  }

  predicate EncodingFits(env: Env, inst: Inst) {
    1 <= |env.backend.encode(inst).0| <= env.bundle <= 0x100
  }

  /** A section just made. */
  ghost predicate Built(section: MCSection, env: Env, ordinal: nat, contents: seq<Shape>)
    reads section, section.fragments
  {
    && section.Valid() && section.Fresh() && section.Count() == 0
    && section.env == env && section.ordinal == ordinal && section.shapes == Filled(contents)
  }

  method MakeSections(env: Env, contents: seq<seq<Shape>>) returns (made: seq<MCSection>)
    requires forall s :: 0 <= s < |contents| ==> AllLookBack(contents[s]) && AllSound(contents[s])
    ensures |made| == |contents| && fresh(made)
    ensures forall s :: 0 <= s < |made| ==> Built(made[s], env, s, contents[s]) && fresh(made[s].fragments)
  {
    made := [];
    while |made| < |contents|
      invariant |made| <= |contents| && fresh(made)
      invariant forall s :: 0 <= s < |made| ==> Built(made[s], env, s, contents[s]) && fresh(made[s].fragments)
    {
      var section := new MCSection(env, |made|, contents[|made|]);
      made := made + [section];
    }
  }

  class MCAssembler {
    const env: Env
    const sections: seq<MCSection>
    /** What every section holds, what its cache has seen, how much is cached, and the layout that is. */
    ghost var shapes: seq<seq<Shape>>
    ghost var put: seq<seq<Shape>>
    ghost var passed: seq<seq<Shape>>
    ghost var counts: seq<nat>
    ghost var lays: seq<seq<Laid>>
    /** Instructions fit their bundles, also those the cache has seen. */
    ghost var snug: bool

    ghost function Fragments(): (all: set<MCFragment>)
      ensures forall s, k :: 0 <= s < |sections| && 0 <= k < |sections[s].fragments| ==> sections[s].fragments[k] in all
      ensures forall f :: f in all ==> exists s :: 0 <= s < |sections| && f in sections[s].fragments
    {
      set s, k | 0 <= s < |sections| && 0 <= k < |sections[s].fragments| :: sections[s].fragments[k]
    }

    /** A file with these section contents, nothing of it laid out; labels lie in its fragments. */
    constructor (env: Env, contents: seq<seq<Shape>>)
      requires forall s :: 0 <= s < |contents| ==> AllLookBack(contents[s]) && AllSound(contents[s])
      requires forall id :: 0 <= id < |env.symbols| ==> SymbolIn(contents, env.symbols[id])
      ensures Valid() && Quiet() && fresh(sections) && this.env == env
      ensures forall s :: 0 <= s < |sections| ==> fresh(sections[s].fragments)
      ensures |shapes| == |contents| && forall s :: 0 <= s < |contents| ==> shapes[s] == Filled(contents[s])
      ensures counts == seq(|contents|, _ => 0)
    {
      var made := MakeSections(env, contents);
      this.env, sections := env, made;
      ghost var list := seq(|made|, s requires 0 <= s < |made| reads made => made[s].shapes);
      shapes, put, passed := list, list, list;
      counts := seq(|made|, _ => 0);
      lays := seq(|made|, s requires 0 <= s < |made| reads made => made[s].laid);
      snug := false;
      new;
      forall s | 0 <= s < |sections|
        ensures SectionOk(s)
      {
        assert Built(made[s], env, s, contents[s]);
      }
    }

    ghost predicate LabelExists(loc: Loc) {
      loc.section < |sections| && loc.fragment < |sections[loc.section].fragments|
    }

    ghost predicate SymbolOk(symbol: Symbol) {
      match symbol
      case Undefined => true
      case Label(loc) => LabelExists(loc)
      case Variable(None, _) => true
      case Variable(Some(v), _) =>
        (v.symA.Some? ==> LabelExists(v.symA.value)) && (v.symB.Some? ==> LabelExists(v.symB.value))
    }

    /** Sections are told apart by their ordinals, and labels lie in existing fragments. */
    ghost predicate Wf() {
      && (forall s :: 0 <= s < |sections| ==> sections[s].ordinal == s && sections[s].env == env)
      && (forall id :: 0 <= id < |env.symbols| ==> SymbolOk(env.symbols[id]))
    }

    ghost predicate SectionOk(s: nat)
      requires s < |sections|
      reads this, sections[s], sections[s].fragments
    {
      && Sized()
      && sections[s].Valid()
      && sections[s].laid == lays[s] && sections[s].Count() == counts[s]
      && sections[s].shapes == shapes[s] && sections[s].put == put[s] && sections[s].passed == passed[s]
      && (snug ==> sections[s].Fits())
    }

    ghost predicate Sized()
      reads this`shapes, this`put, this`passed, this`counts, this`lays
    {
      |lays| == |counts| == |shapes| == |put| == |passed| == |sections|
    }

    /** Where relaxation stands. */
    ghost function Now(): File
      reads this`shapes, this`put, this`passed, this`counts
    {
      File(shapes, put, passed, counts)
    }

    ghost predicate Valid()
      reads this, sections, Fragments()
    {
      && Wf()
      && Sized()
      && forall s :: 0 <= s < |sections| ==> SectionOk(s)
    }

    /** A step on section s cannot have disturbed another section. */
    twostate lemma OthersOk(s: nat)
      requires old(Valid()) && s < |sections| && (snug ==> old(snug))
      requires unchanged(`shapes, `put, `passed, `counts, `lays)
      requires forall t :: 0 <= t < |sections| && t != s ==> unchanged(sections[t])
      requires forall f :: f in Fragments() && f !in sections[s].fragments ==> unchanged(f)
      ensures forall t :: 0 <= t < |sections| && t != s ==> SectionOk(t)
    {
      forall t | 0 <= t < |sections| && t != s
        ensures SectionOk(t)
      {
        assert old(SectionOk(t)) && old(SectionOk(s));
        forall k | 0 <= k < |sections[t].fragments|
          ensures unchanged(sections[t].fragments[k])
        {
          var f := sections[t].fragments[k];
          assert f.section == t && f in Fragments();
        }
      }
    }

    /** Takes note of what a step on section s has done. */
    ghost method Note(s: nat)
      requires Wf() && Sized() && s < |sections| && sections[s].Valid() && (snug ==> sections[s].Fits())
      requires forall t :: 0 <= t < |sections| && t != s ==> SectionOk(t)
      modifies this`shapes, this`put, this`passed, this`counts, this`lays
      ensures Valid()
      ensures shapes == old(shapes)[s := sections[s].shapes] && put == old(put)[s := sections[s].put]
      ensures passed == old(passed)[s := sections[s].passed] && lays == old(lays)[s := sections[s].laid]
      ensures counts == old(counts)[s := sections[s].Count()]
    {
      var section := sections[s];
      shapes, put, passed := shapes[s := section.shapes], put[s := section.put], passed[s := section.passed];
      counts, lays := counts[s := section.Count()], lays[s := section.laid];
      forall t | 0 <= t < |sections| && t != s
        ensures SectionOk(t)
      {
        assert old(SectionOk(t));
      }
    }

    ghost method NoteCount(s: nat)
      requires Wf() && Sized() && s < |sections| && sections[s].Valid() && (snug ==> sections[s].Fits())
      requires sections[s].shapes == shapes[s] && sections[s].put == put[s] && sections[s].passed == passed[s]
      requires sections[s].laid == lays[s]
      requires forall t :: 0 <= t < |sections| && t != s ==> SectionOk(t)
      modifies this`counts
      ensures Valid() && counts == old(counts)[s := sections[s].Count()]
    {
      counts := counts[s := sections[s].Count()];
      forall t | 0 <= t < |sections| && t != s
        ensures SectionOk(t)
      {
        assert old(SectionOk(t));
      }
    }

    ghost method NoteContents(s: nat)
      requires Wf() && Sized() && s < |sections| && sections[s].Valid() && (snug ==> sections[s].Fits())
      requires sections[s].Count() == counts[s] && sections[s].laid == lays[s] && sections[s].Fresh() && Quiet()
      requires forall t :: 0 <= t < |sections| && t != s ==> SectionOk(t)
      modifies this`shapes, this`put, this`passed
      ensures Valid() && Quiet() && shapes == old(shapes)[s := sections[s].shapes]
    {
      shapes := shapes[s := sections[s].shapes];
      put, passed := shapes, shapes;
      forall t | 0 <= t < |sections| && t != s
        ensures SectionOk(t)
      {
        assert old(SectionOk(t));
      }
    }

    /** No relaxation is pending in any section. */
    ghost predicate Quiet()
      reads this`shapes, this`put, this`passed
    {
      put == shapes && passed == shapes
    }

    /** Every section is laid out as far as eager layout goes. */
    ghost predicate Complete()
      reads this`shapes, this`put, this`passed, this`counts, this`lays, this`snug
    {
      snug && Quiet() && |lays| == |counts| && forall s :: 0 <= s < |counts| ==> counts[s] == |lays[s]|
    }

    /** The layouts are those of the caches. */
    lemma LaysNow()
      requires Valid()
      ensures Now().Sized() && lays == Lays(env, Now())
    {
      forall s | 0 <= s < |sections|
        ensures |shapes[s]| == |put[s]| == |passed[s]| && lays[s] == Mixed(env, put[s], passed[s])
      {
        assert SectionOk(s);
        MixedUnique(env, put[s], passed[s], lays[s]);
      }
    }

    /** Asks section s for the offset of its fragment k. */
    method AskSection(s: nat, k: nat) returns (offset: nat, valid: bool)
      requires Valid() && s < |sections| && k < |sections[s].fragments|
      modifies this`counts, sections`lastValid, Fragments()`offset, Fragments()`bundlePadding
      ensures Valid()
      ensures snug ==> OffsetIn(lays[s], k) == if valid then Some(offset) else None
      ensures snug ==> counts == old(counts)[s := Reach(old(counts)[s], k, |lays[s]|)]
      ensures !valid ==> offset == 0
    {
      var section := sections[s];
      assert SectionOk(s);
      offset, valid := section.GetFragmentOffset(section.fragments[k]);
      OthersOk(s);
      NoteCount(s);
    }

    method GetLabelOffset(loc: Loc) returns (offset: nat, valid: bool)
      requires Valid() && LabelExists(loc)
      modifies this`counts, sections`lastValid, Fragments()`offset, Fragments()`bundlePadding
      ensures Valid() && (old(Complete()) ==> Complete())
      ensures snug ==> LabelOffset(lays, loc) == (if valid then Some(offset) else None) &&
                       counts == Asked(lays, old(counts), loc)
      ensures !valid ==> offset == 0
    {
      offset, valid := AskSection(loc.section, loc.fragment);
    }

    /** The offset of a symbol; `ok` is false when a variable has no value. */
    method GetSymbolOffset(symbol: Symbol) returns (value: int, ok: bool)
      requires Valid() && SymbolOk(symbol) && !symbol.Undefined?
      modifies this`counts, sections`lastValid, Fragments()`offset, Fragments()`bundlePadding
      ensures Valid() && (old(Complete()) ==> Complete())
      ensures snug ==> counts == AskedSymbol(lays, old(counts), symbol)
      ensures snug ==>
        match OffsetOfSymbol(lays, symbol)
        case NoOffset => !ok
        case Garbage => ok
        case Offset(v) => ok && value == v
    {
      match symbol
      case Label(loc) =>
        var offset, _ := GetLabelOffset(loc);
        return offset + loc.offset, true;
      case Variable(None, _) =>
        return 0, false;
      case Variable(Some(v), _) =>
        value := v.constant;
        if v.symA.Some? {
          var a, valid := GetLabelOffset(v.symA.value);
          if !valid {
            // The caller's variable stays unset: any value.
            value := *;
            return value, true;
          }
          value := value + a + v.symA.value.offset;
        }
        if v.symB.Some? {
          var b, valid := GetLabelOffset(v.symB.value);
          if !valid {
            value := *;
            return value, true;
          }
          value := value - (b + v.symB.value.offset);
        }
        return value, true;
    }

    /** The constant of a fixup plus its first symbol, and whether it is resolved. */
    method AddSymA(fixup: Fixup, section: nat) returns (sum: int, resolved: bool, error: bool)
      requires Valid() && fixup.value.Some?
      modifies this`counts, sections`lastValid, Fragments()`offset, Fragments()`bundlePadding
      ensures Valid() && (old(Complete()) ==> Complete())
      ensures snug ==> counts == AskedRef(env, lays, old(counts), fixup.value.value.symA)
      ensures snug ==>
        match AfterSymA(env, lays, section, fixup)
        case Failed => error
        case Unknown => !error
        case Sum(v, r) => !error && sum == v && resolved == r
    {
      var target := fixup.value.value;
      resolved := ResolvedInitially(env, section, fixup);
      sum := target.constant;
      if target.symA.Some? {
        var id := target.symA.value.symbol;
        var symbol := SymbolOf(env, id);
        if !symbol.Undefined? {
          var a, ok := GetSymbolOffset(symbol);
          return sum + a, resolved, !ok;
        }
        if env.backend.resolveSymbol.None? || env.backend.resolveSymbol.value(id).None? {
          return 0, false, true;
        }
        return env.backend.resolveSymbol.value(id).value, true, false;
      }
      error := false;
    }

    /** As `AddSymA`, less the second symbol. */
    method SubtractSymB(fixup: Fixup, section: nat) returns (sum: int, resolved: bool, error: bool)
      requires Valid() && fixup.value.Some?
      modifies this`counts, sections`lastValid, Fragments()`offset, Fragments()`bundlePadding
      ensures Valid() && (old(Complete()) ==> Complete())
      ensures snug ==> error == FailsB(env, lays, section, fixup) &&
                       counts == AskedB(env, lays, section, fixup, old(counts))
      ensures snug ==>
        match AfterSymB(env, lays, section, fixup)
        case Failed => error
        case Unknown => true
        case Sum(v, r) => !error && sum == v && resolved == r
    {
      sum, resolved, error := AddSymA(fixup, section);
      var target := fixup.value.value;
      if !error && target.symB.Some? {
        var symbol := SymbolOf(env, target.symB.value.symbol);
        if !symbol.Undefined? {
          var b, ok := GetSymbolOffset(symbol);
          return sum - b, resolved, !ok;
        }
      }
    }

    /** The value of a fixup of fragment f, before the backend adjusts it. */
    method GetRawValue(fixup: Fixup, f: MCFragment) returns (sum: int, resolved: bool, error: bool)
      requires Valid() && f.section < |sections| && sections[f.section].Owns(f) && fixup.value.Some?
      modifies this`counts, sections`lastValid, Fragments()`offset, Fragments()`bundlePadding
      ensures Valid() && (old(Complete()) ==> Complete())
      ensures snug ==> counts == AskedFixup(env, lays, f.section, f.layoutOrder, fixup, old(counts))
      ensures snug ==>
        match RawValue(env, lays, f.section, f.layoutOrder, fixup)
        case Failed => error
        case Unknown => true
        case Sum(v, r) => !error && sum == v && resolved == r
    {
      sum, resolved, error := SubtractSymB(fixup, f.section);
      if !error && env.backend.isPCRel(fixup.kind) {
        var offset, valid := GetLabelOffset(Loc(f.section, f.layoutOrder, 0));
        return sum - PCOf(env, fixup, offset), resolved, !valid;
      }
    }

    /** Evaluates a fixup of fragment f; `error` is set when it cannot be evaluated. */
    method EvaluateFixup(fixup: Fixup, f: MCFragment) returns (resolved: bool, value: Word64, error: bool)
      requires Valid() && f.section < |sections| && sections[f.section].Owns(f)
      modifies this`counts, sections`lastValid, Fragments()`offset, Fragments()`bundlePadding
      ensures Valid() && (old(Complete()) ==> Complete())
      ensures snug ==> counts == AskedFixup(env, lays, f.section, f.layoutOrder, fixup, old(counts))
      ensures snug ==>
        match EvalFixup(env, lays, f.section, f.layoutOrder, fixup)
        case Error => error
        case Indeterminate => true
        case Evaluated(v, r) => !error && value == v && resolved == r
      ensures fixup.value.None? ==> error
    {
      if fixup.value.None? {
        return false, 0, true;
      }
      var sum;
      sum, resolved, error := GetRawValue(fixup, f);
      if error {
        return false, 0, true;
      }
      var (v, r) := env.backend.processFixupValue(fixup, Wrap64(sum), resolved);
      return r, v, false;
    }

    method FixupNeedsRelaxation(fixup: Fixup, f: MCFragment) returns (needs: bool)
      requires Valid() && f.section < |sections| && sections[f.section].Owns(f)
      modifies this`counts, sections`lastValid, Fragments()`offset, Fragments()`bundlePadding
      ensures Valid()
      ensures snug ==> counts == AskedFixup(env, lays, f.section, f.layoutOrder, fixup, old(counts))
      ensures snug && FixupOverflows(env, lays, f.section, f.layoutOrder, fixup) ==> needs
      ensures snug && needs ==> FixupMayOverflow(env, lays, f.section, f.layoutOrder, fixup)
    {
      var resolved, value, error := EvaluateFixup(fixup, f);
      if error {
        return false;
      }
      return env.backend.fixupNeedsRelaxation(fixup, resolved, value);
    }

    method FragmentNeedsRelaxation(f: MCFragment) returns (needs: bool)
      requires Valid() && f.section < |sections| && sections[f.section].Owns(f) && f.shape.Relaxable?
      modifies this`counts, sections`lastValid, Fragments()`offset, Fragments()`bundlePadding
      ensures Valid()
      ensures needs ==> env.backend.mayNeedRelaxation(f.shape.inst)
      ensures !env.backend.mayNeedRelaxation(f.shape.inst) ==> counts == old(counts)
      ensures snug && env.backend.mayNeedRelaxation(f.shape.inst) ==>
        Decides(env, lays, f.section, f.layoutOrder, f.shape.fixups, old(counts), needs, counts)
    {
      if !env.backend.mayNeedRelaxation(f.shape.inst) {
        return false;
      }
      var j := 0;
      while j < |f.shape.fixups|
        invariant 0 <= j <= |f.shape.fixups|
        invariant Valid()
        invariant snug ==>
          && NoneCalls(env, lays, f.section, f.layoutOrder, f.shape.fixups, j)
          && counts == AskedFirst(env, lays, f.section, f.layoutOrder, f.shape.fixups, j, old(counts))
      {
        needs := FixupNeedsRelaxation(f.shape.fixups[j], f);
        if needs {
          assert snug ==> CallsAt(env, lays, f.section, f.layoutOrder, f.shape.fixups, j, old(counts), counts);
          return true;
        }
        j := j + 1;
      }
      return false;
    }

    /** With bundling on, every encoding is between 1 byte and a bundle long. */
    ghost predicate EncodingsFit() {
      env.bundle > 0 ==> forall inst :: EncodingFits(env, inst)
    }

    ghost predicate Owned(f: MCFragment)
      reads this`shapes
    {
      && f.section < |sections| && sections[f.section].Owns(f)
      && f.section < |shapes| && f.layoutOrder < |shapes[f.section]|
    }

    /** Replaces the instruction of f by its relaxed form. */
    method Relax(f: MCFragment)
      requires Valid() && Now().Sized() && Owned(f) && f.shape.Relaxable? && f.shape == shapes[f.section][f.layoutOrder]
      modifies this`shapes, this`put, this`passed, this`counts, this`lays, this`snug, f`shape
      modifies sections`shapes, sections`put, sections`passed, sections`laid
      ensures Valid() && Now() == ResizedFile(env.backend, old(Now()), f.section, f.layoutOrder)
      ensures snug == (old(snug) && FitsBundle(env, RelaxedShape(env.backend, old(f.shape))))
    {
      var section := sections[f.section];
      assert SectionOk(f.section);
      section.Resize(f, RelaxedShape(env.backend, f.shape));
      snug := snug && FitsBundle(env, f.shape);
      OthersOk(f.section);
      Note(f.section);
      IsResized(env.backend, old(Now()), f.section, f.layoutOrder, Now(), section.put, section.passed);
    }

    /** Relaxes f if it needs it under the layout as cached. */
    method RelaxInstruction(f: MCFragment) returns (relaxed: bool)
      requires Valid() && Now().Sized() && Owned(f) && f.shape.Relaxable? && f.shape == shapes[f.section][f.layoutOrder]
      modifies this`shapes, this`put, this`passed, this`counts, this`lays, this`snug, sections, Fragments()
      ensures Valid()
      ensures old(snug) ==> Turn(env, old(Now()), f.section, f.layoutOrder, Now(), relaxed)
      ensures !relaxed ==> Now() == old(Now()).(counts := counts) && lays == old(lays) && snug == old(snug)
      ensures relaxed ==>
        && env.backend.mayNeedRelaxation(old(f.shape).inst)
        && Now() == ResizedFile(env.backend, old(Now()).(counts := counts), f.section, f.layoutOrder)
        && snug == (old(snug) && FitsBundle(env, RelaxedShape(env.backend, old(f.shape))))
    {
      LaysNow();
      relaxed := FragmentNeedsRelaxation(f);
      if relaxed {
        Relax(f);
      }
    }

    ghost predicate AllFit(all: seq<seq<Shape>>) {
      forall s, k :: 0 <= s < |all| && 0 <= k < |all[s]| ==> FitsBundle(env, all[s][k])
    }

    lemma RelaxedFits(f: Shape)
      requires f.Relaxable?
      ensures EncodingsFit() ==> FitsBundle(env, RelaxedShape(env.backend, f))
    {
      assert EncodingsFit() && env.bundle > 0 ==> EncodingFits(env, env.backend.relaxInstruction(f.inst));
    }

    /** One fragment's turn in a pass; only relaxable fragments can change. */
    method RelaxFragment(f: MCFragment, ghost rank: Inst -> nat) returns (relaxed: bool)
      requires Valid() && Now().Sized() && Owned(f) && RelaxationLowers(env.backend, rank)
      modifies this`shapes, this`put, this`passed, this`counts, this`lays, this`snug, sections, Fragments()
      ensures Valid() && Owned(f)
      ensures old(snug) ==> Turn(env, old(Now()), f.section, f.layoutOrder, Now(), relaxed)
      ensures Turned(env.backend, rank, old(Now()), f.section, f.layoutOrder, Now(), relaxed)
      ensures !relaxed ==> lays == old(lays) && snug == old(snug)
      ensures (snug ==> old(snug)) && (old(snug) && EncodingsFit() ==> snug)
    {
      assert SectionOk(f.section);
      if !f.shape.Relaxable? {
        return false;
      }
      ghost var before := shapes;
      RelaxedFits(f.shape);
      relaxed := RelaxInstruction(f);
      if relaxed {
        OneRelaxed(env.backend, before, f.section, f.layoutOrder);
        RelaxedRankDrops(rank, before, f.section, f.layoutOrder,
          RelaxedShape(env.backend, before[f.section][f.layoutOrder]));
      }
    }

    /** Some fragment of section s overflows, or may, under the layout as cached. */
    ghost predicate MayNeedOne(s: nat)
      requires s < |shapes|
      reads this`shapes, this`lays
    {
      MayNeedOneIn(env, lays, s, shapes[s])
    }

    static function Index(first: MCFragment?): Option<nat> {
      if first == null then None else Some(first.layoutOrder)
    }

    /** Relaxation has run from `start` to here, where the loops are at `at`. */
    ghost predicate Ran(start: State, run: seq<State>, at: Control)
      reads this`shapes, this`put, this`passed, this`counts, this`snug
    {
      snug ==> Gets(env, run, start, State(Now(), at))
    }

    /** The pass has come to fragment i; `first` is the first one relaxed. */
    ghost predicate AtTurn(p: Pass, i: nat, first: MCFragment?)
      reads this`shapes, this`put, this`passed, this`counts, this`lays, this`snug
    {
      && p.s < |sections| && (first != null ==> sections[p.s].Owns(first))
      && PassAt(env, p, i, Index(first), Now(), lays, snug)
    }

    /** The turn of the next fragment in the pass. */
    method RelaxNext(i: nat, first: MCFragment?, ghost p: Pass, s: nat, ghost start: State, ghost run: seq<State>,
                     ghost was: bool)
      returns (first': MCFragment?, ghost run': seq<State>)
      requires Valid() && s == p.s && AtTurn(p, i, first) && i < |sections[s].fragments|
      requires RelaxationLowers(env.backend, p.rank) && p.fits == EncodingsFit()
      requires Ran(start, run, At(s, i, Index(first), was))
      modifies this`shapes, this`put, this`passed, this`counts, this`lays, this`snug, sections, Fragments()
      ensures Valid() && AtTurn(p, i + 1, first')
      ensures Ran(start, run', At(s, i + 1, Index(first'), was))
    {
      var f := sections[s].fragments[i];
      assert SectionOk(s);
      LaysNow();
      var relaxed := RelaxFragment(f, p.rank);
      first' := if relaxed && first == null then f else first;
      run' := run + [State(Now(), AfterTurn(s, i, Index(first), was, relaxed))];
      TurnOver(env, p, i, Index(first), run, start, was, old(Now()), old(lays), old(snug), Now(), lays, snug, relaxed);
    }

    /** The turn of every fragment of section s; returns the first one relaxed. */
    method RelaxSection(s: nat, ghost p: Pass, ghost start: State, ghost run: seq<State>, ghost was: bool)
      returns (first: MCFragment?, ghost run': seq<State>)
      requires Valid() && Quiet() && s == p.s < |sections| && RelaxationLowers(env.backend, p.rank)
      requires p == Pass(s, shapes, lays, snug, EncodingsFit(), p.rank)
      requires Ran(start, run, At(s, 0, None, was))
      modifies this`shapes, this`put, this`passed, this`counts, this`lays, this`snug, sections, Fragments()
      ensures Valid() && AtTurn(p, |sections[s].fragments|, first)
      ensures Ran(start, run', At(s, |sections[s].fragments|, Index(first), was))
    {
      first, run' := null, run;
      LaysNow();
      PassBegins(env, p, Now());
      var i := 0;
      while i < |sections[s].fragments|
        invariant 0 <= i <= |sections[s].fragments|
        invariant Valid() && AtTurn(p, i, first)
        invariant Ran(start, run', At(s, i, Index(first), was))
      {
        first, run' := RelaxNext(i, first, p, s, start, run', was);
        i := i + 1;
      }
    }

    /** Drops the cache of the section from f on: no relaxation is pending any more. */
    method Invalidate(f: MCFragment)
      requires Valid() && Now().Sized() && f.section < |sections| && sections[f.section].Owns(f)
      requires SameTo(put[f.section], shapes[f.section], f.layoutOrder)
      requires SameTo(passed[f.section], shapes[f.section], f.layoutOrder)
      requires forall t :: 0 <= t < |sections| && t != f.section ==> put[t] == shapes[t] && passed[t] == shapes[t]
      modifies this`shapes, this`put, this`passed, this`counts, this`lays
      modifies sections`lastValid, sections`put, sections`passed, sections`laid
      ensures Valid() && Quiet() && Now() == Dropped(old(Now()), f.section, f.layoutOrder)
    {
      var section := sections[f.section];
      assert SectionOk(f.section);
      section.InvalidateFragmentsFrom(f);
      OthersOk(f.section);
      Note(f.section);
    }

    /**
     One pass over section s: relaxes what needs it under the cached layout, and then drops
     the cache from the first relaxed fragment on.
     */
    method LayoutSectionOnce(s: nat, ghost rank: Inst -> nat, ghost start: State, ghost run: seq<State>,
                             ghost was: bool)
      returns (relaxed: bool, ghost run': seq<State>)
      requires Valid() && Quiet() && s < |sections| && RelaxationLowers(env.backend, rank)
      requires Ran(start, run, At(s, 0, None, was))
      modifies this`shapes, this`put, this`passed, this`counts, this`lays, this`snug, sections, Fragments()
      ensures Valid() && Quiet()
      ensures !relaxed ==> shapes == old(shapes) && lays == old(lays) && snug == old(snug)
      ensures !relaxed && snug ==> Relaxed(s)
      ensures relaxed ==> TotalRank(rank, shapes) < TotalRank(rank, old(shapes))
      ensures relaxed && old(snug) ==> old(MayNeedOne(s))
      ensures RelaxedFrom(env.backend, old(shapes), shapes)
      ensures old(snug) && EncodingsFit() ==> snug
      ensures Ran(start, run', if relaxed then At(s, 0, None, true) else At(s + 1, 0, None, was))
    {
      ghost var p := Pass(s, shapes, lays, snug, EncodingsFit(), rank);
      var first;
      first, run' := RelaxSection(s, p, start, run, was);
      assert PassAt(env, p, |sections[s].fragments|, Index(first), Now(), lays, snug);
      run' := EndPass(s, first, p, start, run', was);
      relaxed := first != null;
    }

    /** The end of a pass: if a fragment was relaxed the cache is dropped from the first such on. */
    method EndPass(s: nat, first: MCFragment?, ghost p: Pass, ghost start: State, ghost run: seq<State>,
                   ghost was: bool)
      returns (ghost run': seq<State>)
      requires Valid() && s == p.s < |sections| && AtTurn(p, |sections[s].fragments|, first)
      requires Ran(start, run, At(s, |sections[s].fragments|, Index(first), was))
      modifies this`shapes, this`put, this`passed, this`counts, this`lays
      modifies sections`lastValid, sections`put, sections`passed, sections`laid
      ensures Valid() && Quiet() && shapes == old(shapes) && (first == null ==> lays == old(lays))
      ensures |shapes[s]| == |sections[s].fragments|
      ensures Ran(start, run', AfterPass(s, Index(first), was))
    {
      assert SectionOk(s);
      LaysNow();
      ghost var last := Now();
      if first != null {
        Invalidate(first);
      }
      if snug {
        PassOver(env, run, start, last, s, Index(first), was, Now());
      }
      run' := run + [State(Now(), AfterPass(s, Index(first), was))];
    }

    /** No fragment of section s needs relaxing under the layout as cached. */
    ghost predicate Relaxed(s: nat)
      requires s < |shapes|
      reads this`shapes, this`lays
    {
      NoneNeeded(env, lays, s, shapes[s], |shapes[s]|)
    }

    /** Relaxes section s to its own fixpoint. */
    method LayoutSection(s: nat, ghost rank: Inst -> nat, ghost start: State, ghost run: seq<State>, ghost was: bool)
      returns (relaxed: bool, ghost run': seq<State>)
      requires Valid() && Quiet() && s < |sections| && RelaxationLowers(env.backend, rank)
      requires Ran(start, run, At(s, 0, None, was))
      modifies this`shapes, this`put, this`passed, this`counts, this`lays, this`snug, sections, Fragments()
      ensures Valid() && Quiet()
      ensures !relaxed ==> shapes == old(shapes) && lays == old(lays) && snug == old(snug)
      ensures snug ==> Relaxed(s)
      ensures relaxed ==> TotalRank(rank, shapes) < TotalRank(rank, old(shapes))
      ensures RelaxedFrom(env.backend, old(shapes), shapes)
      ensures old(snug) && EncodingsFit() ==> snug
      ensures Ran(start, run', At(s + 1, 0, None, was || relaxed))
    {
      relaxed := false;
      var again;
      again, run' := LayoutSectionOnce(s, rank, start, run, was);
      while again
        invariant Valid() && Quiet()
        invariant !again && !relaxed ==> shapes == old(shapes) && lays == old(lays) && snug == old(snug)
        invariant !again && snug ==> Relaxed(s)
        invariant again || relaxed ==> TotalRank(rank, shapes) < TotalRank(rank, old(shapes))
        invariant RelaxedFrom(env.backend, old(shapes), shapes)
        invariant old(snug) && EncodingsFit() ==> snug
        invariant Ran(start, run', if again then At(s, 0, None, true) else At(s + 1, 0, None, was || relaxed))
        decreases TotalRank(rank, shapes), again
      {
        relaxed := true;
        ghost var before := shapes;
        again, run' := LayoutSectionOnce(s, rank, start, run', true);
        RelaxedFromChain(env.backend, old(shapes), before, shapes);
      }
    }

    /** The first s sections have been relaxed, starting from this file; `was` says whether that changed anything. */
    ghost predicate SweepAt(rank: Inst -> nat, before: seq<seq<Shape>>, laid: seq<seq<Laid>>, wasSnug: bool, s: nat,
                            was: bool)
      reads this, sections, Fragments()
    {
      && Valid() && Quiet() && s <= |sections|
      && (!was ==> shapes == before && lays == laid && snug == wasSnug)
      && (!was && snug ==> forall t :: 0 <= t < s ==> Relaxed(t))
      && (was ==> TotalRank(rank, shapes) < TotalRank(rank, before))
      && RelaxedFrom(env.backend, before, shapes)
      && (wasSnug && EncodingsFit() ==> snug)
    }

    /** Relaxes the next section of a sweep. */
    method SweepNext(s: nat, ghost rank: Inst -> nat, ghost before: seq<seq<Shape>>, ghost laid: seq<seq<Laid>>,
                     ghost wasSnug: bool, ghost start: State, ghost run: seq<State>, was: bool)
      returns (relaxed: bool, ghost run': seq<State>)
      requires SweepAt(rank, before, laid, wasSnug, s, was) && s < |sections|
      requires RelaxationLowers(env.backend, rank) && Ran(start, run, At(s, 0, None, was))
      modifies this`shapes, this`put, this`passed, this`counts, this`lays, this`snug, sections, Fragments()
      ensures SweepAt(rank, before, laid, wasSnug, s + 1, was || relaxed)
      ensures Ran(start, run', At(s + 1, 0, None, was || relaxed))
    {
      ghost var middle := shapes;
      relaxed, run' := LayoutSection(s, rank, start, run, was);
      RelaxedFromChain(env.backend, before, middle, shapes);
    }

    /** Relaxes every section to its own fixpoint, one after the other. */
    method LayoutOnce(ghost rank: Inst -> nat, ghost start: State, ghost run: seq<State>)
      returns (wasRelaxed: bool, ghost run': seq<State>)
      requires Valid() && Quiet() && RelaxationLowers(env.backend, rank) && Ran(start, run, At(0, 0, None, false))
      modifies this`shapes, this`put, this`passed, this`counts, this`lays, this`snug, sections, Fragments()
      ensures Valid() && Quiet()
      ensures !wasRelaxed ==> shapes == old(shapes) && lays == old(lays) && snug == old(snug)
      ensures !wasRelaxed && snug ==> forall s :: 0 <= s < |shapes| ==> Relaxed(s)
      ensures wasRelaxed ==> TotalRank(rank, shapes) < TotalRank(rank, old(shapes))
      ensures RelaxedFrom(env.backend, old(shapes), shapes)
      ensures old(snug) && EncodingsFit() ==> snug
      ensures Ran(start, run', if wasRelaxed then At(0, 0, None, false) else Done)
    {
      wasRelaxed, run' := false, run;
      RelaxedFromSelf(env.backend, shapes);
      var s := 0;
      while s < |sections|
        invariant SweepAt(rank, old(shapes), old(lays), old(snug), s, wasRelaxed)
        invariant Ran(start, run', At(s, 0, None, wasRelaxed))
      {
        var relaxed;
        relaxed, run' := SweepNext(s, rank, old(shapes), old(lays), old(snug), start, run', wasRelaxed);
        wasRelaxed := wasRelaxed || relaxed;
        s := s + 1;
      }
      run' := EndSweep(start, run', wasRelaxed);
    }

    lemma EndSweep(start: State, run: seq<State>, was: bool) returns (run': seq<State>)
      requires Valid() && Ran(start, run, At(|sections|, 0, None, was))
      ensures Ran(start, run', if was then At(0, 0, None, false) else Done)
    {
      LaysNow();
      if snug {
        SweepOver(env, run, start, Now(), was);
      }
      run' := run + [State(Now(), AfterSweep(was))];
    }

    /** The outer loop: passes over the whole file until one of them relaxes nothing. */
    method RelaxAll(ghost rank: Inst -> nat) returns (ghost run: seq<State>)
      requires Valid() && Quiet() && RelaxationLowers(env.backend, rank)
      modifies this`shapes, this`put, this`passed, this`counts, this`lays, this`snug, sections, Fragments()
      ensures Valid() && Quiet() && RelaxedFrom(env.backend, old(shapes), shapes)
      ensures old(snug) && EncodingsFit() ==> snug
      ensures snug ==> forall s :: 0 <= s < |shapes| ==> Relaxed(s)
      ensures Ran(State(old(Now()), At(0, 0, None, false)), run, Done)
    {
      ghost var start := State(Now(), At(0, 0, None, false));
      NoStep(env, start);
      var again;
      again, run := LayoutOnce(rank, start, [start]);
      while again
        invariant Valid() && Quiet() && RelaxedFrom(env.backend, old(shapes), shapes)
        invariant old(snug) && EncodingsFit() ==> snug
        invariant !again && snug ==> forall s :: 0 <= s < |shapes| ==> Relaxed(s)
        invariant Ran(start, run, if again then At(0, 0, None, false) else Done)
        decreases TotalRank(rank, shapes), again
      {
        ghost var before := shapes;
        again, run := LayoutOnce(rank, start, run);
        RelaxedFromChain(env.backend, old(shapes), before, shapes);
      }
    }

    ghost method MarkSnug()
      requires Valid() && Quiet()
      modifies this`snug
      ensures Valid() && snug == AllFit(shapes)
    {
      forall s | 0 <= s < |sections| && AllFit(shapes)
        ensures sections[s].Fits()
      {
        assert SectionOk(s);
      }
      snug := AllFit(shapes);
      forall s | 0 <= s < |sections|
        ensures SectionOk(s)
      {
        assert old(SectionOk(s));
      }
    }

    method FinishSection(s: nat)
      requires Valid() && s < |sections|
      modifies this`counts, sections`lastValid, Fragments()`offset, Fragments()`bundlePadding
      ensures Valid()
      ensures snug ==> counts[s] == |lays[s]|
      ensures forall t :: 0 <= t < |sections| && t != s ==> counts[t] == old(counts)[t]
    {
      var section := sections[s];
      assert SectionOk(s);
      if |section.fragments| > 0 {
        section.LayoutAll();
        OthersOk(s);
        NoteCount(s);
      }
      assert SectionOk(s);
    }

    /** Lays out every section as far as it goes, by asking for its last fragment. */
    method FinishLayout()
      requires Valid()
      modifies this`counts, sections`lastValid, Fragments()`offset, Fragments()`bundlePadding
      ensures Valid()
      ensures snug ==> forall s :: 0 <= s < |sections| ==> counts[s] == |lays[s]|
    {
      var s := 0;
      while s < |sections|
        invariant 0 <= s <= |sections|
        invariant Valid()
        invariant snug ==> forall t :: 0 <= t < s ==> counts[t] == |lays[t]|
      {
        FinishSection(s);
        s := s + 1;
      }
    }

    lemma FinishedSection(s: nat)
      requires Valid() && Quiet() && s < |sections| && counts[s] == |lays[s]|
      ensures lays[s] == Eager(env, shapes[s]) && LaidOut(s)
    {
      assert SectionOk(s);
      IsLayoutUnique(env, shapes[s], lays[s]);
    }

    /**
     Relaxes all sections until nothing needs relaxing, and then lays everything out. The
     loops end because each pass that relaxes lowers the total rank. Instructions are only
     relaxed step by step; nothing else of the file changes.
     */
    method Layout(ghost rank: Inst -> nat) returns (ghost run: seq<State>, ghost last: File)
      requires Valid() && Quiet() && RelaxationLowers(env.backend, rank)
      modifies this`shapes, this`put, this`passed, this`counts, this`lays, this`snug, sections, Fragments()
      ensures Valid() && Quiet() && RelaxedFrom(env.backend, old(shapes), shapes)
      ensures AllFit(old(shapes)) && EncodingsFit() ==>
        && AllFit(shapes) && Complete()
        && Gets(env, run, State(old(Now()), At(0, 0, None, false)), State(last, Done)) && last.all == shapes
      ensures AllFit(old(shapes)) && EncodingsFit() ==>
        forall s :: 0 <= s < |sections| ==> Relaxed(s) && lays[s] == Eager(env, shapes[s]) && LaidOut(s)
    {
      MarkSnug();
      run := RelaxAll(rank);
      last := Now();
      FinishLayout();
      forall s | 0 <= s < |sections| && snug
        ensures lays[s] == Eager(env, shapes[s]) && LaidOut(s)
      {
        FinishedSection(s);
      }
      StillFit();
    }

    lemma StillFit()
      requires Valid()
      ensures snug ==> AllFit(shapes)
    {
      forall s, k | 0 <= s < |shapes| && 0 <= k < |shapes[s]| && snug
        ensures FitsBundle(env, shapes[s][k])
      {
        assert SectionOk(s);
      }
    }

    /** Section s is laid out as far as eager layout goes, and every fragment is where it says. */
    ghost predicate LaidOut(s: nat)
      requires s < |sections|
      reads this, sections[s], sections[s].fragments
    {
      && |lays| == |sections| && sections[s].Count() == |lays[s]| <= |sections[s].fragments|
      && forall k :: 0 <= k < |lays[s]| ==> sections[s].EntryAgrees(sections[s].fragments[k])
    }

    /** The value to put into the contents for a fixup; the object writer hears of one not resolved. */
    method HandleFixup(fixup: Fixup, f: MCFragment) returns (value: Word64, pcRel: bool, error: bool)
      requires Valid() && f.section < |sections| && sections[f.section].Owns(f)
      modifies this`counts, sections`lastValid, Fragments()`offset, Fragments()`bundlePadding
      ensures Valid() && (old(Complete()) ==> Complete())
      ensures snug ==>
        match AppliedValue(env, lays, f.section, f.layoutOrder, fixup)
        case Refused => error
        case Unset => true
        case Apply(v, p) => !error && value == v && pcRel == p
    {
      var resolved;
      resolved, value, error := EvaluateFixup(fixup, f);
      pcRel := env.backend.isPCRel(fixup.kind);
      if !error && !resolved {
        if NamedSymB(fixup.value.value) {
          return 0, false, true;
        }
        var (v, p) := env.backend.recordRelocation(Loc(f.section, f.layoutOrder, 0), fixup, value, pcRel);
        value, pcRel := v, p;
      }
    }

    /** The contents of f with one more fixup applied. */
    method FixContents(fixup: Fixup, f: MCFragment) returns (contents: Option<seq<Byte>>)
      requires Valid() && Complete() && Owned(f) && HasFixups(f.shape)
      modifies this`counts, sections`lastValid, Fragments()`offset, Fragments()`bundlePadding
      ensures Valid() && Complete()
      ensures Fixes(env, lays, f.section, f.layoutOrder, fixup, f.shape.contents, contents)
    {
      var value, pcRel, error := HandleFixup(fixup, f);
      contents := if error then None else env.backend.applyFixup(fixup, f.shape.contents, value, pcRel);
    }

    /** Gives f these contents, of the same length; the layout stays as it is. */
    method Store(f: MCFragment, contents: seq<Byte>)
      requires Valid() && Complete() && Owned(f) && HasFixups(f.shape) && |contents| == |f.shape.contents|
      modifies this`shapes, this`put, this`passed, f`shape, sections`shapes, sections`put, sections`passed
      ensures Valid() && Complete()
      ensures f.shape == WithContents(old(f.shape), contents)
      ensures OneChanged(old(shapes), shapes, f.section, f.layoutOrder, f.shape)
    {
      var section := sections[f.section];
      assert SectionOk(f.section);
      section.Patch(f, contents);
      OthersOk(f.section);
      NoteContents(f.section);
    }

    /** The first n fixups of f are applied; f was `shape` before, in a file of `before`. */
    ghost predicate FixedUpTo(f: MCFragment, n: nat, shape: Shape, before: seq<seq<Shape>>)
      reads this`shapes, this`lays, f`shape
    {
      && Owned(f)
      && PatchedBy(env, lays, f.section, f.layoutOrder, shape, n, f.shape)
      && OneChanged(before, shapes, f.section, f.layoutOrder, f.shape)
    }

    lemma NoneFixed(f: MCFragment)
      requires Valid() && Owned(f) && HasFixups(f.shape)
      ensures FixedUpTo(f, 0, f.shape, shapes)
    {
      assert SectionOk(f.section);
      NothingPatched(env, lays, f.section, f.layoutOrder, f.shape);
      NoneChanged(shapes, f.section, f.layoutOrder);
    }

    /** Applies one more fixup of f. */
    method PatchNext(f: MCFragment, j: nat, ghost shape: Shape, ghost before: seq<seq<Shape>>) returns (ok: bool)
      requires Valid() && Complete() && FixedUpTo(f, j, shape, before) && FixupsKeepLength(env.backend)
      requires j < |shape.fixups|
      modifies this`shapes, this`put, this`passed, this`counts, sections, Fragments()
      ensures Valid() && Complete()
      ensures ok ==> FixedUpTo(f, j + 1, shape, before)
      ensures !ok ==> CannotPatch(env, lays, f.section, f.layoutOrder, shape)
    {
      var contents := FixContents(f.shape.fixups[j], f);
      if contents.None? {
        return false;
      }
      OneMorePatched(env, lays, f.section, f.layoutOrder, shape, j, f.shape, contents.value);
      ghost var middle, last := shapes, f.shape;
      Store(f, contents.value);
      ChangedAgain(before, middle, shapes, f.section, f.layoutOrder, last, f.shape);
      ok := true;
    }

    /** Applies every fixup of f, one after the other, up to the first that cannot be applied. */
    method PatchFragment(f: MCFragment) returns (ok: bool)
      requires Valid() && Complete() && Owned(f) && HasFixups(f.shape) && FixupsKeepLength(env.backend)
      modifies this`shapes, this`put, this`passed, this`counts, sections, Fragments()
      ensures Valid() && Complete()
      ensures ok ==> FixedUpTo(f, |old(f.shape).fixups|, old(f.shape), old(shapes))
      ensures !ok ==> CannotPatch(env, lays, f.section, f.layoutOrder, old(f.shape))
    {
      NoneFixed(f);
      // Applying a fixup leaves the list of fixups as it is.
      var fixups := f.shape.fixups;
      var j := 0;
      while j < |fixups|
        invariant 0 <= j <= |fixups| && fixups == old(f.shape).fixups
        invariant Valid() && Complete() && FixedUpTo(f, j, old(f.shape), old(shapes))
      {
        ok := PatchNext(f, j, old(f.shape), old(shapes));
        if !ok {
          return;
        }
        j := j + 1;
      }
      ok := true;
    }

    /** Fragment k of section s, the fragments before it being patched. */
    method PatchTurn(s: nat, k: nat, ghost before: seq<Shape>) returns (ok: bool)
      requires Valid() && Complete() && s < |sections| && k < |before| && FixupsKeepLength(env.backend)
      requires SectionPatched(env, lays, s, before, shapes[s], k)
      modifies this`shapes, this`put, this`passed, this`counts, sections, Fragments()
      ensures Valid() && Complete() && |shapes| == |old(shapes)|
      ensures ok ==> forall t :: 0 <= t < |shapes| && t != s ==> shapes[t] == old(shapes)[t]
      ensures ok ==> SectionPatched(env, lays, s, before, shapes[s], k + 1)
      ensures !ok ==> CannotPatch(env, lays, s, k, before[k])
    {
      assert SectionOk(s);
      var f := sections[s].fragments[k];
      assert f.shape == before[k];
      if HasFixups(f.shape) {
        ok := PatchFragment(f);
        if !ok {
          return;
        }
      }
      OneMoreFragment(env, lays, s, before, old(shapes)[s], k, f.shape);
      assert old(shapes)[s][k := f.shape] == shapes[s];
      ok := true;
    }

    /** The fixups of all fragments of section s. */
    method PatchSection(s: nat) returns (ok: bool)
      requires Valid() && Complete() && s < |sections| && FixupsKeepLength(env.backend)
      modifies this`shapes, this`put, this`passed, this`counts, sections, Fragments()
      ensures Valid() && Complete() && |shapes| == |old(shapes)|
      ensures ok ==> forall t :: 0 <= t < |shapes| && t != s ==> shapes[t] == old(shapes)[t]
      ensures ok ==> SectionPatched(env, lays, s, old(shapes)[s], shapes[s], |old(shapes)[s]|)
      ensures !ok ==> exists k :: 0 <= k < |old(shapes)[s]| && CannotPatch(env, lays, s, k, old(shapes)[s][k])
    {
      assert SectionOk(s);
      var k := 0;
      while k < |sections[s].fragments|
        invariant 0 <= k <= |sections[s].fragments| == |old(shapes)[s]|
        invariant Valid() && Complete() && |shapes| == |old(shapes)|
        invariant forall t :: 0 <= t < |shapes| && t != s ==> shapes[t] == old(shapes)[t]
        invariant SectionPatched(env, lays, s, old(shapes)[s], shapes[s], k)
      {
        ok := PatchTurn(s, k, old(shapes)[s]);
        if !ok {
          return;
        }
        k := k + 1;
      }
      ok := true;
    }

    /** Section s, the sections before it being patched. */
    method PatchSectionTurn(s: nat, ghost before: seq<seq<Shape>>) returns (ok: bool)
      requires Valid() && Complete() && s < |sections| == |before| && FixupsKeepLength(env.backend)
      requires FilePatched(env, lays, before, shapes, s)
      modifies this`shapes, this`put, this`passed, this`counts, sections, Fragments()
      ensures Valid() && Complete()
      ensures ok ==> FilePatched(env, lays, before, shapes, s + 1)
      ensures !ok ==> FileCannotBePatched(env, lays, before)
    {
      assert before[s] == shapes[s];
      ok := PatchSection(s);
      if ok {
        OneMoreSection(env, lays, before, old(shapes), s, shapes[s]);
        assert old(shapes)[s := shapes[s]] == shapes;
      }
    }

    /** Once everything is laid out: the fixups of the whole file, none of which moves a fragment. */
    method ApplyFixups() returns (ok: bool)
      requires Valid() && Complete() && FixupsKeepLength(env.backend)
      modifies this`shapes, this`put, this`passed, this`counts, sections, Fragments()
      ensures Valid() && Complete()
      ensures ok ==> FilePatched(env, lays, old(shapes), shapes, |sections|)
      ensures !ok ==> FileCannotBePatched(env, lays, old(shapes))
    {
      var s := 0;
      while s < |sections|
        invariant 0 <= s <= |sections|
        invariant Valid() && Complete()
        invariant FilePatched(env, lays, old(shapes), shapes, s)
      {
        ok := PatchSectionTurn(s, old(shapes));
        if !ok {
          return;
        }
        s := s + 1;
      }
      ok := true;
    }
  }
}
