/**
 A small-step machine for the x86 listings the server sends to the client: eight registers,
 two flags, byte memory in two blocks, and calls between the slots that hold code.
 */
module SignInMachine {
  import opened SignInCipher

  /** The client's memory: its global buffer, and the array of 500 slots of 256 bytes. */
  datatype Block = Globals | Elements

  /**
   What a register holds: a 32-bit word with the upper half clear, a pointer into a block,
   a 64-bit number, or only its low byte as far as known.
   */
  datatype Val<W> = Word(w: W) | Ptr(block: Block, offset: int) | Number(n: nat) | LowByte(al: bv8)

  datatype Reg = RAX | RCX | RDX | RSI | RDI | R8 | R9 | R10

  datatype Instr<W> =
    | Mov(dst: Reg, src: Reg)
    | Mov32(dst: Reg, src: Reg)
    | MovWord(dst: Reg, w: W)
    | MovPtr(dst: Reg, block: Block, offset: int)
    | MovNumber(dst: Reg, n: nat)
    | Load32(dst: Reg, base: Reg, disp: int)
    | LoadIndexed(dst: Reg, base: Reg, index: Reg)
    | Store32(base: Reg, disp: int, src: Reg)
    | Xor32(dst: Reg, src: Reg)
    | Add32(dst: Reg, src: Reg)
    | Sub32(dst: Reg, src: Reg)
    | AddWord(dst: Reg, w: W)
    | SubWord(dst: Reg, w: W)
    | And32By3(dst: Reg)
    | Shl32By4(dst: Reg)
    | Shr32By5(dst: Reg)
    | Shr32By11(dst: Reg)
    | CmpWord(dst: Reg, w: W)
    | Test32(dst: Reg)
    | CmpSelf(dst: Reg)
    | Cld
    | SetzAl
    | Nop
    | Jnz(target: nat)
    | RepeCmpsb
    | Call(dst: Reg)
    | Ret

  datatype Regs<W> = Regs(rax: Val<W>, rcx: Val<W>, rdx: Val<W>, rsi: Val<W>, rdi: Val<W>,
                          r8: Val<W>, r9: Val<W>, r10: Val<W>)

  datatype Mem = Mem(globals: seq<bv8>, elements: seq<bv8>)

  /** The state apart from the program counter. */
  datatype Core<W> = Core(regs: Regs<W>, zf: bool, df: bool, mem: Mem)

  datatype Opt<+T> = Stuck | Next(value: T)

  function Get<W>(r: Regs<W>, reg: Reg): Val<W> {
    match reg
    case RAX => r.rax
    case RCX => r.rcx
    case RDX => r.rdx
    case RSI => r.rsi
    case RDI => r.rdi
    case R8 => r.r8
    case R9 => r.r9
    case R10 => r.r10
  }

  function Set<W>(r: Regs<W>, reg: Reg, v: Val<W>): Regs<W> {
    match reg
    case RAX => r.(rax := v)
    case RCX => r.(rcx := v)
    case RDX => r.(rdx := v)
    case RSI => r.(rsi := v)
    case RDI => r.(rdi := v)
    case R8 => r.(r8 := v)
    case R9 => r.(r9 := v)
    case R10 => r.(r10 := v)
  }

  function BlockBytes(m: Mem, b: Block): seq<bv8> {
    match b
    case Globals => m.globals
    case Elements => m.elements
  }

  function WithBlock(m: Mem, b: Block, bytes: seq<bv8>): Mem {
    match b
    case Globals => m.(globals := bytes)
    case Elements => m.(elements := bytes)
  }

  function LoadAt<W>(alu: Alu<W>, m: Mem, b: Block, at: int): Opt<W> {
    if 0 <= at && at + 4 <= |BlockBytes(m, b)|
    then Next(alu.load(BlockBytes(m, b)[at..at + 4]))
    else Stuck
  }

  function StoreAt<W>(alu: Alu<W>, m: Mem, b: Block, at: int, w: W): Opt<Mem> {
    var bytes := BlockBytes(m, b);
    if 0 <= at && at + 4 <= |bytes| && |alu.store(w)| == 4
    then Next(WithBlock(m, b, bytes[..at] + alu.store(w) + bytes[at + 4..]))
    else Stuck
  }

  function SetReg<W>(c: Core<W>, reg: Reg, v: Val<W>): Core<W> {
    c.(regs := Set(c.regs, reg, v))
  }

  /** A 32-bit result: the upper half is cleared and ZF says whether it is zero. */
  function Result<W(==)>(alu: Alu<W>, c: Core<W>, reg: Reg, w: W): Opt<Core<W>> {
    Next(SetReg(c, reg, Word(w)).(zf := w == alu.zero))
  }

  function Unary<W(==)>(alu: Alu<W>, c: Core<W>, reg: Reg, f: W -> W): Opt<Core<W>> {
    var v := Get(c.regs, reg);
    if v.Word? then Result(alu, c, reg, f(v.w)) else Stuck
  }

  function Binary<W(==)>(alu: Alu<W>, c: Core<W>, dst: Reg, src: Reg, f: (W, W) -> W): Opt<Core<W>> {
    var v, w := Get(c.regs, dst), Get(c.regs, src);
    if v.Word? && w.Word? then Result(alu, c, dst, f(v.w, w.w)) else Stuck
  }

  /** The instructions that go on to the next one. */
  predicate Straight<W>(i: Instr<W>) {
    !(i.Jnz? || i.RepeCmpsb? || i.Call? || i.Ret?)
  }

  /** What a straight instruction does. */
  function Exec<W(==)>(alu: Alu<W>, i: Instr<W>, c: Core<W>): Opt<Core<W>>
    requires Straight(i)
  {
    match i
    case Mov(dst, src) => Next(SetReg(c, dst, Get(c.regs, src)))
    case Mov32(dst, src) =>
      if Get(c.regs, src).Word? then Next(SetReg(c, dst, Get(c.regs, src))) else Stuck
    case MovWord(dst, w) => Next(SetReg(c, dst, Word(w)))
    case MovPtr(dst, b, offset) => Next(SetReg(c, dst, Ptr(b, offset)))
    case MovNumber(dst, n) => Next(SetReg(c, dst, Number(n)))
    case Load32(dst, base, disp) =>
      var p := Get(c.regs, base);
      if !p.Ptr? then Stuck
      else (match LoadAt(alu, c.mem, p.block, p.offset + disp)
            case Next(w) => Next(SetReg(c, dst, Word(w)))
            case Stuck => Stuck)
    case LoadIndexed(dst, base, index) =>
      var p, x := Get(c.regs, base), Get(c.regs, index);
      if !p.Ptr? || !x.Word? then Stuck
      else (match LoadAt(alu, c.mem, p.block, p.offset + 4 * alu.quarter(x.w))
            case Next(w) => Next(SetReg(c, dst, Word(w)))
            case Stuck => Stuck)
    case Store32(base, disp, src) =>
      var p, v := Get(c.regs, base), Get(c.regs, src);
      if !p.Ptr? || !v.Word? then Stuck
      else (match StoreAt(alu, c.mem, p.block, p.offset + disp, v.w)
            case Next(m) => Next(c.(mem := m))
            case Stuck => Stuck)
    case Xor32(dst, src) =>
      if dst == src then Result(alu, c, dst, alu.zero) else Binary(alu, c, dst, src, alu.xor)
    case Add32(dst, src) => Binary(alu, c, dst, src, alu.add)
    case Sub32(dst, src) => Binary(alu, c, dst, src, alu.sub)
    case AddWord(dst, w) =>
      var v := Get(c.regs, dst);
      if v.Word? then Result(alu, c, dst, alu.add(v.w, w)) else Stuck
    case SubWord(dst, w) =>
      var v := Get(c.regs, dst);
      if v.Word? then Result(alu, c, dst, alu.sub(v.w, w)) else Stuck
    case And32By3(dst) => Unary(alu, c, dst, alu.and3)
    case Shl32By4(dst) => Unary(alu, c, dst, alu.shl4)
    case Shr32By5(dst) => Unary(alu, c, dst, alu.shr5)
    case Shr32By11(dst) => Unary(alu, c, dst, alu.shr11)
    case CmpWord(dst, w) =>
      if Get(c.regs, dst).Word? then Next(c.(zf := Get(c.regs, dst).w == w)) else Stuck
    case Test32(dst) =>
      if Get(c.regs, dst).Word? then Next(c.(zf := Get(c.regs, dst).w == alu.zero)) else Stuck
    case CmpSelf(_) => Next(c.(zf := true))
    case Cld => Next(c.(df := false))
    case SetzAl => Next(SetReg(c, RAX, LowByte(if c.zf then 1 else 0)))
    case Nop => Next(c)
  }

  datatype Place = Place(slot: nat, pc: nat)

  /** `stack` holds the places to return to, the nearest last. */
  datatype State<W> = State(core: Core<W>, at: Place, stack: seq<Place>)

  type Code<W> = map<nat, seq<Instr<W>>>

  function Goto<W>(s: State<W>, pc: nat): State<W> {
    s.(at := Place(s.at.slot, pc))
  }

  function ByteAt(m: Mem, v: Ptr): Opt<bv8> {
    if 0 <= v.offset < |BlockBytes(m, v.block)| then Next(BlockBytes(m, v.block)[v.offset]) else Stuck
  }

  /** One iteration of the repeated comparison; it goes on while the bytes agree. */
  function Compare<W>(s: State<W>): Opt<State<W>> {
    var r := s.core.regs;
    if !(r.rcx.Number? && r.rsi.Ptr? && r.rdi.Ptr?) || s.core.df then Stuck
    else if r.rcx.n == 0 then Next(Goto(s, s.at.pc + 1))
    else
      match (ByteAt(s.core.mem, PtrOf(r.rsi)), ByteAt(s.core.mem, PtrOf(r.rdi)))
      case (Next(x), Next(y)) =>
        var regs := r.(rcx := Number(r.rcx.n - 1), rsi := Ptr(r.rsi.block, r.rsi.offset + 1),
                       rdi := Ptr(r.rdi.block, r.rdi.offset + 1));
        var t := s.(core := s.core.(regs := regs, zf := x == y));
        Next(if x == y && r.rcx.n > 1 then t else Goto(t, s.at.pc + 1))
      case _ => Stuck
  }

  datatype Ptr = PtrTo(block: Block, offset: int)

  function PtrOf<W>(v: Val<W>): Ptr
    requires v.Ptr?
  {
    PtrTo(v.block, v.offset)
  }

  const SLOT_SIZE: int := 0x100

  /** One instruction. A return with nothing on the stack leaves the listing. */
  function Step<W(==)>(alu: Alu<W>, code: Code<W>, s: State<W>): Opt<State<W>> {
    if s.at.slot !in code || s.at.pc >= |code[s.at.slot]| then Stuck
    else
      var i := code[s.at.slot][s.at.pc];
      match i
      case Jnz(target) => Next(Goto(s, if s.core.zf then s.at.pc + 1 else target))
      case RepeCmpsb => Compare(s)
      case Call(dst) =>
        var p := Get(s.core.regs, dst);
        if p.Ptr? && p.block == Elements && p.offset >= 0 && p.offset % SLOT_SIZE == 0
        then Next(State(s.core, Place(p.offset / SLOT_SIZE, 0), s.stack + [Place(s.at.slot, s.at.pc + 1)]))
        else Stuck
      case Ret =>
        if s.stack == [] then Stuck
        else Next(State(s.core, s.stack[|s.stack| - 1], s.stack[..|s.stack| - 1]))
      case _ =>
        match Exec(alu, i, s.core)
        case Next(c) => Next(Goto(s, s.at.pc + 1).(core := c))
        case Stuck => Stuck
  }

  /** n steps of any machine. */
  function Iterate<S>(step: S -> Opt<S>, n: nat, s: S): Opt<S> {
    if n == 0 then Next(s)
    else
      match step(s)
      case Stuck => Stuck
      case Next(t) => Iterate(step, n - 1, t)
  }

  function Run<W(==)>(alu: Alu<W>, code: Code<W>, n: nat, s: State<W>): Opt<State<W>> {
    Iterate((u: State<W>) => Step(alu, code, u), n, s)
  }

  ghost predicate Reaches<W>(alu: Alu<W>, code: Code<W>, s: State<W>, t: State<W>) {
    exists n: nat :: Run(alu, code, n, s) == Next(t)
  }

  lemma {:induction false} IterateAdd<S>(step: S -> Opt<S>, m: nat, n: nat, s: S, t: S)
    requires Iterate(step, m, s) == Next(t)
    ensures Iterate(step, m + n, s) == Iterate(step, n, t)
  {
    if m > 0 {
      IterateAdd(step, m - 1, n, step(s).value, t);
    }
  }

  lemma ReachesTrans<W>(alu: Alu<W>, code: Code<W>, s: State<W>, t: State<W>, u: State<W>)
    requires Reaches(alu, code, s, t) && Reaches(alu, code, t, u)
    ensures Reaches(alu, code, s, u)
  {
    var m: nat :| Run(alu, code, m, s) == Next(t);
    var n: nat :| Run(alu, code, n, t) == Next(u);
    IterateAdd((x: State<W>) => Step(alu, code, x), m, n, s, t);
    assert Run(alu, code, m + n, s) == Next(u);
  }

  lemma ReachesStep<W>(alu: Alu<W>, code: Code<W>, s: State<W>, t: State<W>)
    requires Step(alu, code, s) == Next(t)
    ensures Reaches(alu, code, s, t)
  {
    assert Run(alu, code, 0, t) == Next(t);
    assert Run(alu, code, 1, s) == Next(t);
  }

  lemma ReachesSelf<W>(alu: Alu<W>, code: Code<W>, s: State<W>)
    ensures Reaches(alu, code, s, s)
  {
    assert Run(alu, code, 0, s) == Next(s);
  }
}
