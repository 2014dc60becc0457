/**
 One lemma per kind of instruction: it takes a run one step further and says what the step
 changed. The runs are those of any relation that has the single steps and can be chained,
 so that a proof about a listing reads like the listing.
 */
module SignInSteps {
  import opened SignInCipher
  import opened SignInMachine

  /** An arithmetic, the code in the slots, and a relation between states and later states. */
  datatype Sys<!W> = Sys(alu: Alu<W>, code: Code<W>, later: (State<W>, State<W>) -> bool)

  predicate StepIsLater<W(==)>(sys: Sys<W>, s: State<W>, t: State<W>) {
    Step(sys.alu, sys.code, s) == Next(t) ==> sys.later(s, t)
  }

  predicate LaterChains<W>(sys: Sys<W>, s: State<W>, t: State<W>, u: State<W>) {
    sys.later(s, t) && sys.later(t, u) ==> sys.later(s, u)
  }

  ghost predicate Runs<W(!new)>(sys: Sys<W>) {
    && (forall s, t :: StepIsLater(sys, s, t))
    && (forall s, t, u :: LaterChains(sys, s, t, u))
    && (forall s :: sys.later(s, s))
  }

  /** The next instruction. */
  predicate Fetches<W(==)>(sys: Sys<W>, s: State<W>, i: Instr<W>) {
    && s.at.slot in sys.code && s.at.pc < |sys.code[s.at.slot]|
    && sys.code[s.at.slot][s.at.pc] == i
  }

  /** A step that went on to the next instruction and left these registers. */
  predicate Left<W(==)>(s: State<W>, t: State<W>, regs: Regs<W>) {
    && t.at == Place(s.at.slot, s.at.pc + 1) && t.stack == s.stack
    && t.core.regs == regs && t.core.mem == s.core.mem && t.core.df == s.core.df
  }

  /** A step that only went on to `pc`, apart from the state proper. */
  predicate Moved<W>(s: State<W>, t: State<W>, pc: nat) {
    t.at == Place(s.at.slot, pc) && t.stack == s.stack && t.core.df == s.core.df
  }

  lemma Further<W(!new)>(sys: Sys<W>, s0: State<W>, s: State<W>, t: State<W>)
    requires Runs(sys) && sys.later(s0, s) && Step(sys.alu, sys.code, s) == Next(t)
    ensures sys.later(s0, t)
  {
    assert StepIsLater(sys, s, t);
    assert LaterChains(sys, s0, s, t);
  }

  lemma DoMov<W(!new)>(sys: Sys<W>, s0: State<W>, s: State<W>, dst: Reg, src: Reg) returns (t: State<W>)
    requires Runs(sys) && sys.later(s0, s) && Fetches(sys, s, Instr<W>.Mov(dst, src))
    ensures sys.later(s0, t) && Left(s, t, Set(s.core.regs, dst, Get(s.core.regs, src)))
  {
    t := Step(sys.alu, sys.code, s).value;
    Further(sys, s0, s, t);
  }

  lemma DoMov32<W(!new)>(sys: Sys<W>, s0: State<W>, s: State<W>, dst: Reg, src: Reg, x: W) returns (t: State<W>)
    requires Runs(sys) && sys.later(s0, s) && Fetches(sys, s, Mov32(dst, src)) && Get(s.core.regs, src) == Word(x)
    ensures sys.later(s0, t) && Left(s, t, Set(s.core.regs, dst, Word(x)))
  {
    t := Step(sys.alu, sys.code, s).value;
    Further(sys, s0, s, t);
  }

  lemma DoShift<W(!new)>(sys: Sys<W>, s0: State<W>, s: State<W>, i: Instr<W>, dst: Reg, x: W, y: W)
    returns (t: State<W>)
    requires Runs(sys) && sys.later(s0, s) && Fetches(sys, s, i) && Get(s.core.regs, dst) == Word(x)
    requires || (i == And32By3(dst) && y == sys.alu.and3(x))
             || (i == Shl32By4(dst) && y == sys.alu.shl4(x))
             || (i == Shr32By5(dst) && y == sys.alu.shr5(x))
             || (i == Shr32By11(dst) && y == sys.alu.shr11(x))
    ensures sys.later(s0, t) && Left(s, t, Set(s.core.regs, dst, Word(y)))
  {
    t := Step(sys.alu, sys.code, s).value;
    Further(sys, s0, s, t);
  }

  lemma DoWord<W(!new)>(sys: Sys<W>, s0: State<W>, s: State<W>, i: Instr<W>, dst: Reg, x: W, w: W, y: W)
    returns (t: State<W>)
    requires Runs(sys) && sys.later(s0, s) && Fetches(sys, s, i) && Get(s.core.regs, dst) == Word(x)
    requires || (i == AddWord(dst, w) && y == sys.alu.add(x, w))
             || (i == SubWord(dst, w) && y == sys.alu.sub(x, w))
    ensures sys.later(s0, t) && Left(s, t, Set(s.core.regs, dst, Word(y)))
  {
    t := Step(sys.alu, sys.code, s).value;
    Further(sys, s0, s, t);
  }

  lemma DoBinary<W(!new)>(sys: Sys<W>, s0: State<W>, s: State<W>, i: Instr<W>, dst: Reg, src: Reg, x: W, w: W, y: W)
    returns (t: State<W>)
    requires Runs(sys) && sys.later(s0, s) && Fetches(sys, s, i)
    requires dst != src && Get(s.core.regs, dst) == Word(x) && Get(s.core.regs, src) == Word(w)
    requires || (i == Add32(dst, src) && y == sys.alu.add(x, w))
             || (i == Sub32(dst, src) && y == sys.alu.sub(x, w))
             || (i == Xor32(dst, src) && y == sys.alu.xor(x, w))
    ensures sys.later(s0, t) && Left(s, t, Set(s.core.regs, dst, Word(y)))
  {
    t := Step(sys.alu, sys.code, s).value;
    Further(sys, s0, s, t);
  }

  lemma DoLoadIndexed<W(!new)>(sys: Sys<W>, s0: State<W>, s: State<W>, dst: Reg, base: Reg, index: Reg,
                               b: Block, at: int, x: W, w: W)
    returns (t: State<W>)
    requires Runs(sys) && sys.later(s0, s) && Fetches(sys, s, LoadIndexed(dst, base, index))
    requires Get(s.core.regs, base) == Val<W>.Ptr(b, at) && Get(s.core.regs, index) == Word(x)
    requires LoadAt(sys.alu, s.core.mem, b, at + 4 * sys.alu.quarter(x)) == Next(w)
    ensures sys.later(s0, t) && Left(s, t, Set(s.core.regs, dst, Word(w)))
  {
    t := Step(sys.alu, sys.code, s).value;
    Further(sys, s0, s, t);
  }

  lemma DoLoad32<W(!new)>(sys: Sys<W>, s0: State<W>, s: State<W>, dst: Reg, base: Reg, disp: int, b: Block, at: int,
      w: W) returns (t: State<W>)
    requires Runs(sys) && sys.later(s0, s)
    requires Fetches(sys, s, Load32(dst, base, disp)) && Get(s.core.regs, base) == Val<W>.Ptr(b, at)
    requires LoadAt(sys.alu, s.core.mem, b, at + disp) == Next(w)
    ensures sys.later(s0, t) && Left(s, t, Set(s.core.regs, dst, Word(w)))
  {
    t := Step(sys.alu, sys.code, s).value;
    Further(sys, s0, s, t);
  }

  lemma DoClear<W(!new)>(sys: Sys<W>, s0: State<W>, s: State<W>, dst: Reg) returns (t: State<W>)
    requires Runs(sys) && sys.later(s0, s)
    requires Fetches(sys, s, Xor32(dst, dst))
    ensures sys.later(s0, t) && Left(s, t, Set(s.core.regs, dst, Word(sys.alu.zero)))
  {
    t := Step(sys.alu, sys.code, s).value;
    Further(sys, s0, s, t);
  }

  lemma DoMovWord<W(!new)>(sys: Sys<W>, s0: State<W>, s: State<W>, dst: Reg, w: W) returns (t: State<W>)
    requires Runs(sys) && sys.later(s0, s)
    requires Fetches(sys, s, MovWord(dst, w))
    ensures sys.later(s0, t) && Left(s, t, Set(s.core.regs, dst, Word(w)))
  {
    t := Step(sys.alu, sys.code, s).value;
    Further(sys, s0, s, t);
  }

  lemma DoMovPtr<W(!new)>(sys: Sys<W>, s0: State<W>, s: State<W>, dst: Reg, b: Block, at: int) returns (t: State<W>)
    requires Runs(sys) && sys.later(s0, s)
    requires Fetches(sys, s, Instr<W>.MovPtr(dst, b, at))
    ensures sys.later(s0, t) && Left(s, t, Set(s.core.regs, dst, Val<W>.Ptr(b, at)))
  {
    t := Step(sys.alu, sys.code, s).value;
    Further(sys, s0, s, t);
  }

  lemma DoMovNumber<W(!new)>(sys: Sys<W>, s0: State<W>, s: State<W>, dst: Reg, n: nat) returns (t: State<W>)
    requires Runs(sys) && sys.later(s0, s)
    requires Fetches(sys, s, Instr<W>.MovNumber(dst, n))
    ensures sys.later(s0, t) && Left(s, t, Set(s.core.regs, dst, Val<W>.Number(n)))
  {
    t := Step(sys.alu, sys.code, s).value;
    Further(sys, s0, s, t);
  }

  lemma DoNop<W(!new)>(sys: Sys<W>, s0: State<W>, s: State<W>) returns (t: State<W>)
    requires Runs(sys) && sys.later(s0, s)
    requires Fetches(sys, s, Instr<W>.Nop)
    ensures sys.later(s0, t) && Left(s, t, s.core.regs)
  {
    t := Step(sys.alu, sys.code, s).value;
    Further(sys, s0, s, t);
  }

  lemma DoStore32<W(!new)>(sys: Sys<W>, s0: State<W>, s: State<W>, base: Reg, disp: int, src: Reg, b: Block, at: int,
      w: W, m: Mem) returns (t: State<W>)
    requires Runs(sys) && sys.later(s0, s)
    requires Fetches(sys, s, Store32(base, disp, src))
    requires Get(s.core.regs, base) == Val<W>.Ptr(b, at) && Get(s.core.regs, src) == Word(w)
    requires StoreAt(sys.alu, s.core.mem, b, at + disp, w) == Next(m)
    ensures sys.later(s0, t) && Moved(s, t, s.at.pc + 1) && t.core.regs == s.core.regs && t.core.mem == m
  {
    t := Step(sys.alu, sys.code, s).value;
    Further(sys, s0, s, t);
  }

  lemma DoTest<W(!new)>(sys: Sys<W>, s0: State<W>, s: State<W>, i: Instr<W>, dst: Reg, x: W, zero: bool)
      returns (t: State<W>)
    requires Runs(sys) && sys.later(s0, s)
    requires Fetches(sys, s, i) && Get(s.core.regs, dst) == Word(x)
    requires || (i == Test32(dst) && zero == (x == sys.alu.zero))
             || (exists w :: i == CmpWord(dst, w) && zero == (x == w))
    ensures sys.later(s0, t) && Left(s, t, s.core.regs) && t.core.zf == zero
  {
    t := Step(sys.alu, sys.code, s).value;
    Further(sys, s0, s, t);
  }

  lemma DoJnz<W(!new)>(sys: Sys<W>, s0: State<W>, s: State<W>, target: nat) returns (t: State<W>)
    requires Runs(sys) && sys.later(s0, s)
    requires Fetches(sys, s, Instr<W>.Jnz(target))
    ensures sys.later(s0, t) && Moved(s, t, if s.core.zf then s.at.pc + 1 else target) && t.core == s.core
  {
    t := Step(sys.alu, sys.code, s).value;
    Further(sys, s0, s, t);
  }

  lemma DoCall<W(!new)>(sys: Sys<W>, s0: State<W>, s: State<W>, dst: Reg, slot: nat) returns (t: State<W>)
    requires Runs(sys) && sys.later(s0, s)
    requires Fetches(sys, s, Instr<W>.Call(dst)) && Get(s.core.regs, dst) == Val<W>.Ptr(Elements, SLOT_SIZE * slot)
    ensures sys.later(s0, t) && t == State(s.core, Place(slot, 0), s.stack + [Place(s.at.slot, s.at.pc + 1)])
  {
    t := Step(sys.alu, sys.code, s).value;
    Further(sys, s0, s, t);
  }

  lemma DoRet<W(!new)>(sys: Sys<W>, s0: State<W>, s: State<W>) returns (t: State<W>)
    requires Runs(sys) && sys.later(s0, s)
    requires Fetches(sys, s, Instr<W>.Ret) && s.stack != []
    ensures sys.later(s0, t) && t == State(s.core, s.stack[|s.stack| - 1], s.stack[..|s.stack| - 1])
  {
    t := Step(sys.alu, sys.code, s).value;
    Further(sys, s0, s, t);
  }
}
