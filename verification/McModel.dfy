/**
 Data model of the machine-code layer: what a fragment holds, what a symbol and a fixup
 denote, and the target backend, which the assembler only sees through a few hooks.
 */
module McModel {
  import opened Arith

  type Byte = x: nat | x < 0x100

  const TWO_32: nat := 0x1_0000_0000
  const TWO_64: nat := 0x1_0000_0000_0000_0000

  type Word64 = x: nat | x < TWO_64

  /** The value a fragment offset holds before it is laid out, `~UINT64_C(0)`. */
  const OFFSET_UNSET: nat := TWO_64 - 1

  datatype Option<+T> = None | Some(value: T)

  datatype Inst = Inst(opcode: nat, operands: seq<int>)

  /** A label: a byte position inside a fragment of a section. */
  datatype Loc = Loc(section: nat, fragment: nat, offset: nat)

  /** What a variable symbol evaluates to: a constant plus one label minus another. */
  datatype VarValue = VarValue(symA: Option<Loc>, symB: Option<Loc>, constant: int)

  /** `home` is the section a variable symbol is associated with. */
  datatype Symbol =
    | Undefined
    | Label(loc: Loc)
    | Variable(value: Option<VarValue>, home: nat)

  /** A reference to an entry of the symbol table; `plain` is the kind VK_None. */
  datatype SymRef = SymRef(plain: bool, symbol: nat)

  /** A relocatable value: constant + symA - symB. */
  datatype Target = Target(symA: Option<SymRef>, symB: Option<SymRef>, constant: int)

  /** `value` is None when the fixup's expression is not relocatable. */
  datatype Fixup = Fixup(offset: nat, kind: nat, value: Option<Target>)

  /** The target of `.org`: a constant, plus a label of the section given by fragment and offset. */
  datatype OrgTarget = OrgTarget(constant: int, anchor: Option<(nat, nat)>)

  /** The contents of a fragment, by fragment kind. */
  datatype Shape =
    | Align(alignment: nat, emitNops: bool, value: int, valueSize: nat, maxBytes: nat)
    | Data(contents: seq<Byte>, fixups: seq<Fixup>, hasInsts: bool, toBundleEnd: bool)
    | CompactInst(contents: seq<Byte>)
    | Fill(byte: Byte, count: nat)
    | Relaxable(inst: Inst, contents: seq<Byte>, fixups: seq<Fixup>)
    | Org(target: Option<OrgTarget>, byte: Byte)
    | Dwarf(contents: seq<Byte>)
    | DwarfFrame(contents: seq<Byte>)
    | SafeSEH(index: nat)
  {
    predicate HasInstructions() {
      Relaxable? || CompactInst? || (Data? && hasInsts)
    }

    /** Alignment with nops is only ever asked for with single bytes to fill. */
    predicate Sound() {
      Align? && emitNops ==> valueSize == 1
    }

    predicate AlignToBundleEnd() {
      Data? && toBundleEnd
    }
  }

  /** The hooks of the target backend, the code emitter and the object writer. */
  datatype Backend = Backend(
    isX86: bool,
    littleEndian: bool,
    minNopSize: nat,
    isPCRel: nat -> bool,
    alignsPC: nat -> bool,
    isWeak: nat -> bool,
    mayNeedRelaxation: Inst -> bool,
    relaxInstruction: Inst -> Inst,
    encode: Inst -> (seq<Byte>, seq<Fixup>),
    processFixupValue: (Fixup, Word64, bool) -> (Word64, bool),
    fixupNeedsRelaxation: (Fixup, bool, Word64) -> bool,
    recordRelocation: (Loc, Fixup, Word64, bool) -> (Word64, bool),
    applyFixup: (Fixup, seq<Byte>, Word64, bool) -> Option<seq<Byte>>,
    resolveSymbol: Option<nat -> Option<nat>>,
    writeNops: nat -> Option<seq<Byte>>)

  /** Everything that stays fixed while a file is laid out. `bundle` 0 turns bundling off. */
  datatype Env = Env(backend: Backend, base: nat, bundle: nat, relaxAll: bool, symbols: seq<Symbol>)

  predicate AllSound(fs: seq<Shape>) {
    forall k :: 0 <= k < |fs| ==> fs[k].Sound()
  }

  /** A nop writer that succeeds writes exactly the bytes asked for. */
  ghost predicate NopsExact(backend: Backend) {
    forall n: nat :: backend.writeNops(n).Some? ==> |backend.writeNops(n).value| == n
  }

  /** Relaxing an instruction that may need it lowers its rank. */
  ghost predicate RelaxationLowers(backend: Backend, rank: Inst -> nat) {
    forall inst :: backend.mayNeedRelaxation(inst) ==> rank(backend.relaxInstruction(inst)) < rank(inst)
  }

  /** x reduced to an unsigned 64-bit value. */
  function Wrap64(x: int): Word64 {
    x % TWO_64
  }

  /** Bitwise and of two unsigned values. */
  function BitAnd(x: nat, y: nat): (z: nat)
    ensures z <= x && z <= y
  {
    if x == 0 || y == 0 then 0
    else (if x % 2 == 1 && y % 2 == 1 then 1 else 0) + 2 * BitAnd(x / 2, y / 2)
  }

  function Pow2(n: nat): (p: nat)
    ensures p > 0
  {
    if n == 0 then 1 else 2 * Pow2(n - 1)
  }

  /** Masking with 2^n - 1 is the remainder by 2^n. */
  lemma {:induction false} MaskIsMod(x: nat, n: nat)
    ensures BitAnd(x, Pow2(n) - 1) == x % Pow2(n)
    decreases n
  {
    if n == 0 {
    } else {
      MaskIsMod(x / 2, n - 1);
      var p := Pow2(n - 1);
      assert (Pow2(n) - 1) / 2 == p - 1;
      assert x % (2 * p) == x % 2 + 2 * ((x / 2) % p) by { ModSplit(x, p); }
    }
  }

  lemma ModSplit(x: nat, p: nat)
    requires p > 0
    ensures x % (2 * p) == x % 2 + 2 * ((x / 2) % p)
  {
    var q, r := (x / 2) / p, (x / 2) % p;
    assert x / 2 == p * q + r;
    assert x == 2 * (p * q + r) + x % 2;
    assert x == (2 * p) * q + (2 * r + x % 2) by { assert 2 * (p * q) == (2 * p) * q; }
    DivModUnique(x, 2 * p, q, 2 * r + x % 2);
  }
}
