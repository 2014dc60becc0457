/**
 What a fixup evaluates to under a layout, and when it forces its instruction to be relaxed.
 `lays` holds the layout of every section.
 */
module McFixup {
  import opened McModel
  import opened McEager

  function SymbolOf(env: Env, id: nat): Symbol {
    if id < |env.symbols| then env.symbols[id] else Undefined
  }

  function LabelOffset(lays: seq<seq<Laid>>, loc: Loc): Option<nat> {
    if loc.section < |lays| then OffsetIn(lays[loc.section], loc.fragment) else None
  }

  /** The value a label contributes: an offset that cannot be computed counts as 0. */
  function LabelValue(lays: seq<seq<Laid>>, loc: Loc): nat {
    (match LabelOffset(lays, loc) case None => 0 case Some(offset) => offset) + loc.offset
  }

  /**
   The offset of a symbol: NoOffset is reported as an error, Garbage is a value the code
   reads without having set it.
   */
  datatype SymbolOffset = NoOffset | Garbage | Offset(value: int)

  function OffsetOfSymbol(lays: seq<seq<Laid>>, symbol: Symbol): SymbolOffset
    requires !symbol.Undefined?
  {
    match symbol
    case Label(loc) => Offset(LabelValue(lays, loc))
    case Variable(None, _) => NoOffset
    case Variable(Some(v), _) =>
      if v.symA.Some? && LabelOffset(lays, v.symA.value).None? then Garbage
      else if v.symB.Some? && LabelOffset(lays, v.symB.value).None? then Garbage
      else Offset(v.constant + OptionalLabel(lays, v.symA) - OptionalLabel(lays, v.symB))
  }

  function OptionalLabel(lays: seq<seq<Laid>>, loc: Option<Loc>): nat {
    if loc.Some? then LabelValue(lays, loc.value) else 0
  }

  predicate InSection(symbol: Symbol, section: nat) {
    match symbol
    case Undefined => false
    case Label(loc) => loc.section == section
    case Variable(_, home) => home == section
  }

  /** Whether the assembler believes it can resolve the fixup without a relocation. */
  predicate ResolvedInitially(env: Env, section: nat, fixup: Fixup)
    requires fixup.value.Some?
  {
    var target := fixup.value.value;
    if env.backend.isPCRel(fixup.kind) then
      if target.symB.Some? then false
      else if target.symA.None? then env.backend.isX86
      else
        var symA := target.symA.value;
        && symA.plain
        && !SymbolOf(env, symA.symbol).Undefined?
        && !env.backend.isWeak(symA.symbol)
        && InSection(SymbolOf(env, symA.symbol), section)
    else target.symA.None? && target.symB.None?
  }

  /** What symA contributes: the running value and whether the fixup is resolved. */
  datatype Partial = Failed | Unknown | Sum(value: int, resolved: bool)

  function AfterSymA(env: Env, lays: seq<seq<Laid>>, section: nat, fixup: Fixup): Partial
    requires fixup.value.Some?
  {
    var target := fixup.value.value;
    var resolved := ResolvedInitially(env, section, fixup);
    if target.symA.None? then Sum(target.constant, resolved)
    else
      var id := target.symA.value.symbol;
      match SymbolOf(env, id)
      case Undefined =>
        if env.backend.resolveSymbol.None? then Failed
        else (match env.backend.resolveSymbol.value(id) case None => Failed case Some(imm) => Sum(imm, true))
      case symbol =>
        match OffsetOfSymbol(lays, symbol)
        case NoOffset => Failed
        case Garbage => Unknown
        case Offset(value) => Sum(target.constant + value, resolved)
  }

  function AfterSymB(env: Env, lays: seq<seq<Laid>>, section: nat, fixup: Fixup): Partial
    requires fixup.value.Some?
  {
    SubtractSymbol(env, lays, fixup.value.value.symB, AfterSymA(env, lays, section, fixup))
  }

  function SubtractSymbol(env: Env, lays: seq<seq<Laid>>, ref: Option<SymRef>, sum: Partial): Partial {
    if !sum.Sum? || ref.None? || SymbolOf(env, ref.value.symbol).Undefined? then sum
    else
      match OffsetOfSymbol(lays, SymbolOf(env, ref.value.symbol))
      case NoOffset => Failed
      case Garbage => Unknown
      case Offset(b) => Sum(sum.value - b, sum.resolved)
  }

  /** The address a pc-relative fixup is relative to. */
  function PCOf(env: Env, fixup: Fixup, fragmentOffset: nat): (pc: nat)
    ensures pc <= fragmentOffset + fixup.offset
  {
    var offset := fragmentOffset + fixup.offset;
    if env.backend.alignsPC(fixup.kind) then offset - offset % 4 else offset
  }

  function SubtractPC(env: Env, fixup: Fixup, offset: Option<nat>, sum: Partial): Partial {
    if !sum.Sum? || !env.backend.isPCRel(fixup.kind) then sum
    else if offset.None? then Failed
    else Sum(sum.value - PCOf(env, fixup, offset.value), sum.resolved)
  }

  /** The value of a fixup of fragment k, before the backend adjusts it. */
  function RawValue(env: Env, lays: seq<seq<Laid>>, section: nat, k: nat, fixup: Fixup): Partial {
    if fixup.value.None? then Failed
    else SubtractPC(env, fixup, LabelOffset(lays, Loc(section, k, 0)), AfterSymB(env, lays, section, fixup))
  }

  datatype Evaluation = Error | Indeterminate | Evaluated(value: Word64, resolved: bool)

  function EvalFixup(env: Env, lays: seq<seq<Laid>>, section: nat, k: nat, fixup: Fixup): Evaluation {
    match RawValue(env, lays, section, k, fixup)
    case Failed => Error
    case Unknown => Indeterminate
    case Sum(value, resolved) =>
      var (v, r) := env.backend.processFixupValue(fixup, Wrap64(value), resolved);
      Evaluated(v, r)
  }

  /** The evaluation says that the fixup does not fit its instruction. */
  predicate FixupOverflows(env: Env, lays: seq<seq<Laid>>, section: nat, k: nat, fixup: Fixup) {
    match EvalFixup(env, lays, section, k, fixup)
    case Evaluated(value, resolved) => env.backend.fixupNeedsRelaxation(fixup, resolved, value)
    case _ => false
  }

  /** The same, or the value is one the code reads without having set it. */
  predicate FixupMayOverflow(env: Env, lays: seq<seq<Laid>>, section: nat, k: nat, fixup: Fixup) {
    EvalFixup(env, lays, section, k, fixup).Indeterminate? || FixupOverflows(env, lays, section, k, fixup)
  }

  /** Fragment k has to be relaxed under the layout `lays`. */
  predicate NeedsRelaxation(env: Env, lays: seq<seq<Laid>>, section: nat, k: nat, f: Shape) {
    && f.Relaxable?
    && env.backend.mayNeedRelaxation(f.inst)
    && exists j :: 0 <= j < |f.fixups| && FixupOverflows(env, lays, section, k, f.fixups[j])
  }

  /** None of the first n fragments of the section has to be relaxed. */
  ghost predicate NoneNeeded(env: Env, lays: seq<seq<Laid>>, section: nat, fs: seq<Shape>, n: nat) {
    forall k :: 0 <= k < n && k < |fs| ==> !NeedsRelaxation(env, lays, section, k, fs[k])
  }

  predicate MayNeedRelaxation(env: Env, lays: seq<seq<Laid>>, section: nat, k: nat, f: Shape) {
    && f.Relaxable?
    && env.backend.mayNeedRelaxation(f.inst)
    && exists j :: 0 <= j < |f.fixups| && FixupMayOverflow(env, lays, section, k, f.fixups[j])
  }

  ghost predicate MayNeedOneIn(env: Env, lays: seq<seq<Laid>>, section: nat, fs: seq<Shape>) {
    exists k :: 0 <= k < |fs| && MayNeedRelaxation(env, lays, section, k, fs[k])
  }
}
