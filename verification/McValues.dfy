/**
 What the layout makes of symbols and fixups, in one sum each: said of the places of the fragments,
 and not of how the evaluation goes about it.
 */
module McValues {
  import opened Arith
  import opened McModel
  import opened McEager
  import opened McFixup
  import opened McPatch

  /** The fragment a label is in is laid out, and the label is at this place. */
  predicate StandsAt(lays: seq<seq<Laid>>, loc: Loc, place: int) {
    && loc.section < |lays| && loc.fragment < |lays[loc.section]|
    && lays[loc.section][loc.fragment].start + lays[loc.section][loc.fragment].padding != OFFSET_UNSET
    && place == lays[loc.section][loc.fragment].start + lays[loc.section][loc.fragment].padding + loc.offset
  }

  /** A label that is not there counts as 0. */
  predicate Adds(lays: seq<seq<Laid>>, loc: Option<Loc>, place: int) {
    if loc.Some? then StandsAt(lays, loc.value, place) else place == 0
  }

  /** A label is worth its place; a variable its constant, plus one label, less another. */
  lemma SymbolWorth(lays: seq<seq<Laid>>, loc: Loc, v: VarValue, home: nat, place: int, a: int, b: int)
    ensures StandsAt(lays, loc, place) ==> OffsetOfSymbol(lays, Label(loc)) == Offset(place)
    ensures Adds(lays, v.symA, a) && Adds(lays, v.symB, b) ==>
      OffsetOfSymbol(lays, Variable(Some(v), home)) == Offset(v.constant + a - b)
    ensures OffsetOfSymbol(lays, Variable(None, home)) == NoOffset
  {
  }

  /** The symbol a reference names, if it is defined, has this value. */
  predicate Contributes(env: Env, lays: seq<seq<Laid>>, ref: Option<SymRef>, value: int) {
    if ref.None? then value == 0
    else
      && ref.value.symbol < |env.symbols| && !env.symbols[ref.value.symbol].Undefined?
      && OffsetOfSymbol(lays, env.symbols[ref.value.symbol]) == Offset(value)
  }

  /** A subtracted symbol that is undefined is passed over. */
  predicate TakesOff(env: Env, lays: seq<seq<Laid>>, ref: Option<SymRef>, value: int) {
    if ref.Some? && SymbolOf(env, ref.value.symbol).Undefined? then value == 0 else Contributes(env, lays, ref, value)
  }

  /** Where the processor counts from: the fixup, or the multiple of four at or below it. */
  predicate CountsFrom(env: Env, kind: nat, address: int, pc: int) {
    if !env.backend.isPCRel(kind) then pc == 0
    else if env.backend.alignsPC(kind) then pc % 4 == 0 && pc <= address < pc + 4
    else pc == address
  }

  lemma DownToFour(offset: nat, pc: int)
    requires pc % 4 == 0 && pc <= offset < pc + 4
    ensures pc == offset - offset % 4
  {
  }

  lemma FirstAdded(env: Env, lays: seq<seq<Laid>>, section: nat, fixup: Fixup, a: int)
    requires fixup.value.Some? && Contributes(env, lays, fixup.value.value.symA, a)
    ensures AfterSymA(env, lays, section, fixup)
         == Sum(fixup.value.value.constant + a, ResolvedInitially(env, section, fixup))
  {
  }

  lemma SecondTakenOff(env: Env, lays: seq<seq<Laid>>, ref: Option<SymRef>, value: int, resolved: bool, b: int)
    requires TakesOff(env, lays, ref, b)
    ensures SubtractSymbol(env, lays, ref, Sum(value, resolved)) == Sum(value - b, resolved)
  {
  }

  /** What the evaluation counts from. */
  lemma CountedPlace(env: Env, fixup: Fixup, offset: nat, pc: int)
    requires env.backend.isPCRel(fixup.kind) && CountsFrom(env, fixup.kind, offset + fixup.offset, pc)
    ensures PCOf(env, fixup, offset) == pc
  {
    if env.backend.alignsPC(fixup.kind) {
      DownToFour(offset + fixup.offset, pc);
    }
  }

  lemma CountedFrom(env: Env, lays: seq<seq<Laid>>, section: nat, k: nat, fixup: Fixup, here: int, value: int,
                    resolved: bool, pc: int)
    requires StandsAt(lays, Loc(section, k, fixup.offset), here) && CountsFrom(env, fixup.kind, here, pc)
    ensures SubtractPC(env, fixup, LabelOffset(lays, Loc(section, k, 0)), Sum(value, resolved))
         == Sum(value - pc, resolved)
  {
    if env.backend.isPCRel(fixup.kind) {
      CountedPlace(env, fixup, here - fixup.offset, pc);
    }
  }

  /**
   A fixup is worth the constant of its target, plus the first symbol, less the second, less the
   place it counts from.
   */
  lemma FixupWorth(env: Env, lays: seq<seq<Laid>>, section: nat, k: nat, fixup: Fixup, here: int, a: int, b: int,
                   pc: int)
    requires fixup.value.Some? && StandsAt(lays, Loc(section, k, fixup.offset), here)
    requires Contributes(env, lays, fixup.value.value.symA, a) && TakesOff(env, lays, fixup.value.value.symB, b)
    requires CountsFrom(env, fixup.kind, here, pc)
    ensures RawValue(env, lays, section, k, fixup)
         == Sum(fixup.value.value.constant + a - b - pc, ResolvedInitially(env, section, fixup))
  {
    var value, resolved := fixup.value.value.constant + a, ResolvedInitially(env, section, fixup);
    FirstAdded(env, lays, section, fixup, a);
    SecondTakenOff(env, lays, fixup.value.value.symB, value, resolved, b);
    CountedFrom(env, lays, section, k, fixup, here, value - b, resolved, pc);
  }

  /** A resolver's value takes the place of an undefined symbol, and of the constant; the fixup is then resolved. */
  lemma ResolverWorth(env: Env, lays: seq<seq<Laid>>, section: nat, k: nat, fixup: Fixup, here: int, imm: nat, b: int,
                      pc: int)
    requires fixup.value.Some? && StandsAt(lays, Loc(section, k, fixup.offset), here)
    requires fixup.value.value.symA.Some? && SymbolOf(env, fixup.value.value.symA.value.symbol).Undefined?
    requires env.backend.resolveSymbol.Some?
    requires env.backend.resolveSymbol.value(fixup.value.value.symA.value.symbol) == Some(imm)
    requires TakesOff(env, lays, fixup.value.value.symB, b) && CountsFrom(env, fixup.kind, here, pc)
    ensures RawValue(env, lays, section, k, fixup) == Sum(imm - b - pc, true)
  {
    SecondTakenOff(env, lays, fixup.value.value.symB, imm, true, b);
    CountedFrom(env, lays, section, k, fixup, here, imm - b, true, pc);
  }

  /** An undefined symbol that nothing resolves is an error, whatever else the fixup holds. */
  lemma MissingSymbol(env: Env, lays: seq<seq<Laid>>, section: nat, k: nat, fixup: Fixup)
    requires fixup.value.Some? && fixup.value.value.symA.Some?
    requires SymbolOf(env, fixup.value.value.symA.value.symbol).Undefined?
    requires env.backend.resolveSymbol.Some? ==>
      env.backend.resolveSymbol.value(fixup.value.value.symA.value.symbol).None?
    ensures EvalFixup(env, lays, section, k, fixup) == Error
  {
  }

  /** The section that a symbol belongs to. */
  predicate BelongsTo(symbol: Symbol, section: nat) {
    (symbol.Label? && symbol.loc.section == section) || (symbol.Variable? && symbol.home == section)
  }

  /** A fixup is held to be resolved if its value cannot change any more when the sections are placed. */
  lemma ResolvedWhen(env: Env, section: nat, fixup: Fixup)
    requires fixup.value.Some?
    ensures var t := fixup.value.value;
            ResolvedInitially(env, section, fixup) <==>
              t.symB.None? &&
              match t.symA
              case None => env.backend.isPCRel(fixup.kind) ==> env.backend.isX86
              case Some(a) =>
                && env.backend.isPCRel(fixup.kind) && a.plain && !env.backend.isWeak(a.symbol)
                && a.symbol < |env.symbols| && BelongsTo(env.symbols[a.symbol], section)
  {
  }

  /** The value is taken modulo 2^64 and shown to the backend with the verdict. */
  lemma EvaluatedValue(env: Env, lays: seq<seq<Laid>>, section: nat, k: nat, fixup: Fixup, value: int, resolved: bool,
                       word: Word64)
    requires RawValue(env, lays, section, k, fixup) == Sum(value, resolved) && (value - word) % TWO_64 == 0
    ensures var (w, r) := env.backend.processFixupValue(fixup, word, resolved);
            EvalFixup(env, lays, section, k, fixup) == Evaluated(w, r)
  {
    SameWord(value, word);
  }

  lemma SameWord(value: int, word: Word64)
    requires (value - word) % TWO_64 == 0
    ensures value % TWO_64 == word
  {
    var q := (value - word) / TWO_64;
    assert value == TWO_64 * q + word;
    DivModUnique(value, TWO_64, q, word);
  }

  /** What is stored for a fixup: its value if it is resolved, else what the object writer makes of it. */
  lemma StoredValue(env: Env, lays: seq<seq<Laid>>, section: nat, k: nat, fixup: Fixup, value: Word64, resolved: bool)
    requires EvalFixup(env, lays, section, k, fixup) == Evaluated(value, resolved) && fixup.value.Some?
    ensures resolved ==>
      AppliedValue(env, lays, section, k, fixup) == Apply(value, env.backend.isPCRel(fixup.kind))
    ensures !resolved && fixup.value.value.symB.Some? && !fixup.value.value.symB.value.plain ==>
      AppliedValue(env, lays, section, k, fixup) == Refused
    ensures !resolved && (fixup.value.value.symB.Some? ==> fixup.value.value.symB.value.plain) ==>
      var (adjusted, pcRel) :=
        env.backend.recordRelocation(Loc(section, k, 0), fixup, value, env.backend.isPCRel(fixup.kind));
      AppliedValue(env, lays, section, k, fixup) == Apply(adjusted, pcRel)
  {
  }
}
