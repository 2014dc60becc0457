/**
 The listings of slots 11 and 12, the cipher in x86 instructions, and what they compute:
 the same blocks as the C functions, because the sum sentinels stop the loops after exactly
 32 rounds.
 */
module SignInListings {
  import opened SignInCipher
  import opened SignInMachine
  import opened SignInSteps

  /** Slot 11: encrypt the block RDI points to with the key RSI points to. */
  function EncryptListing<W>(alu: Alu<W>): seq<Instr<W>> {
    [Mov(R9, RSI), Load32(RCX, RDI, 4), Load32(RSI, RDI, 0), Mov(R8, RDI), Xor32(RAX, RAX), Nop,
     Mov32(RDX, RAX), Mov32(R10, RCX), And32By3(RDX), Shr32By5(R10), LoadIndexed(RDI, R9, RDX),
     Mov32(RDX, RCX), Shl32By4(RDX), Xor32(RDX, R10), Add32(RDI, RAX), SubWord(RAX, alu.negDelta),
     Add32(RDX, RCX), Xor32(RDX, RDI), Add32(RSI, RDX), Mov32(RDX, RAX), Shr32By11(RDX),
     Mov32(R10, RSI), And32By3(RDX), Shr32By5(R10), LoadIndexed(RDI, R9, RDX), Mov32(RDX, RSI),
     Shl32By4(RDX), Xor32(RDX, R10), Add32(RDI, RAX), Add32(RDX, RSI), Xor32(RDX, RDI),
     Add32(RCX, RDX), CmpWord(RAX, alu.final), Jnz(6), Store32(R8, 0, RSI), Store32(R8, 4, RCX),
     Ret]
  }

  /** Slot 12: decrypt it. */
  function DecryptListing<W>(alu: Alu<W>): seq<Instr<W>> {
    [Mov(R9, RSI), Load32(RCX, RDI, 4), Load32(RSI, RDI, 0), Mov(R8, RDI), MovWord(RAX, alu.final),
     Nop, Mov32(RDX, RAX), Mov32(R10, RSI), Shr32By11(RDX), Shr32By5(R10), And32By3(RDX),
     LoadIndexed(RDI, R9, RDX), Mov32(RDX, RSI), Shl32By4(RDX), Xor32(RDX, R10), Add32(RDI, RAX),
     AddWord(RAX, alu.negDelta), Add32(RDX, RSI), Xor32(RDX, RDI), Sub32(RCX, RDX),
     Mov32(RDX, RAX), And32By3(RDX), Mov32(R10, RCX), LoadIndexed(RDI, R9, RDX), Mov32(RDX, RCX),
     Shr32By5(R10), Shl32By4(RDX), Xor32(RDX, R10), Add32(RDI, RAX), Add32(RDX, RCX),
     Xor32(RDX, RDI), Sub32(RSI, RDX), Test32(RAX), Jnz(6), Store32(R8, 0, RSI),
     Store32(R8, 4, RCX), Ret]
  }

  /** What comes before the rounds. */
  predicate EncryptFrameCode<W(==)>(alu: Alu<W>, l: seq<Instr<W>>) {
    && |l| > 5
    && l[0] == Instr<W>.Mov(R9, RSI)
    && l[1] == Load32(RCX, RDI, 4)
    && l[2] == Load32(RSI, RDI, 0)
    && l[3] == Instr<W>.Mov(R8, RDI)
    && l[4] == Xor32(RAX, RAX)
    && l[5] == Instr<W>.Nop
  }

  /** What comes after a round, and after the last one. */
  predicate EncryptEndCode<W(==)>(alu: Alu<W>, l: seq<Instr<W>>) {
    && |l| > 36
    && l[32] == CmpWord(RAX, alu.final)
    && l[33] == Instr<W>.Jnz(6)
    && l[34] == Store32(R8, 0, RSI)
    && l[35] == Store32(R8, 4, RCX)
    && l[36] == Instr<W>.Ret
  }

  /** A run of instructions that left the pointers, the memory and the stack alone. */
  predicate Kept<W(==)>(s: State<W>, t: State<W>, pc: nat) {
    && t.at == Place(s.at.slot, pc) && t.stack == s.stack
    && t.core.mem == s.core.mem && t.core.df == s.core.df
    && t.core.regs.r8 == s.core.regs.r8 && t.core.regs.r9 == s.core.regs.r9
  }

  /** The first half round of encryption: fetching the key word. */
  predicate EncryptFetchLowCode<W(==)>(alu: Alu<W>, l: seq<Instr<W>>) {
    && |l| > 11
    && l[6] == Mov32(RDX, RAX)
    && l[7] == Mov32(R10, RCX)
    && l[8] == And32By3(RDX)
    && l[9] == Shr32By5(R10)
    && l[10] == LoadIndexed(RDI, R9, RDX)
    && l[11] == Mov32(RDX, RCX)
  }

  /** The first half round of encryption: combining it. */
  predicate EncryptAddLowCode<W(==)>(alu: Alu<W>, l: seq<Instr<W>>) {
    && |l| > 18
    && l[12] == Shl32By4(RDX)
    && l[13] == Xor32(RDX, R10)
    && l[14] == Add32(RDI, RAX)
    && l[15] == SubWord(RAX, alu.negDelta)
    && l[16] == Add32(RDX, RCX)
    && l[17] == Xor32(RDX, RDI)
    && l[18] == Add32(RSI, RDX)
  }

  lemma EncryptFetchLow<W(!new)>(sys: Sys<W>, s0: State<W>, s: State<W>, sum: W, v0: W, v1: W, kb: Block, ko: int,
      word: W)
    returns (t: State<W>)
    requires Runs(sys) && sys.later(s0, s) && s.at.slot in sys.code && s.at.pc == 6
    requires EncryptFetchLowCode(sys.alu, sys.code[s.at.slot])
    requires s.core.regs.rax == Word(sum) && s.core.regs.rcx == Word(v1) && s.core.regs.rsi == Word(v0)
    requires s.core.regs.r9 == Val<W>.Ptr(kb, ko)
    requires LoadAt(sys.alu, s.core.mem, kb, ko + 4 * sys.alu.quarter(sys.alu.and3(sum))) == Next(word)
    ensures sys.later(s0, t) && Kept(s, t, 12)
    ensures t.core.regs.rax == Word(sum)
    ensures t.core.regs.rcx == Word(v1)
    ensures t.core.regs.rsi == Word(v0)
    ensures t.core.regs.rdx == Word(v1)
    ensures t.core.regs.rdi == Word(word)
    ensures t.core.regs.r10 == Word(sys.alu.shr5(v1))
  {
    var alu := sys.alu;
    t := DoMov32(sys, s0, s, RDX, RAX, sum);
    t := DoMov32(sys, s0, t, R10, RCX, v1);
    var x1 := alu.and3(sum);
    t := DoShift(sys, s0, t, And32By3(RDX), RDX, sum, x1);
    var x2 := alu.shr5(v1);
    t := DoShift(sys, s0, t, Shr32By5(R10), R10, v1, x2);
    t := DoLoadIndexed(sys, s0, t, RDI, R9, RDX, kb, ko, x1, word);
    t := DoMov32(sys, s0, t, RDX, RCX, v1);
  }

  lemma EncryptAddLow<W(!new)>(sys: Sys<W>, s0: State<W>, s: State<W>, sum: W, v0: W, v1: W, d: W, k: W, h: W)
    returns (t: State<W>)
    requires Runs(sys) && sys.later(s0, s) && s.at.slot in sys.code && s.at.pc == 12
    requires EncryptAddLowCode(sys.alu, sys.code[s.at.slot])
    requires s.core.regs.rax == Word(sum) && s.core.regs.rcx == Word(v1) && s.core.regs.rsi == Word(v0)
    requires s.core.regs.rdx == Word(d) && s.core.regs.rdi == Word(k) && s.core.regs.r10 == Word(h)
    ensures sys.later(s0, t) && Kept(s, t, 19)
    ensures t.core.regs.rax == Word(sys.alu.sub(sum, sys.alu.negDelta))
    ensures t.core.regs.rcx == Word(v1)
    ensures t.core.regs.rsi == Word(sys.alu.add(v0,
        sys.alu.xor(sys.alu.add(sys.alu.xor(sys.alu.shl4(d), h), v1), sys.alu.add(k, sum))))
  {
    var alu := sys.alu;
    var x1 := alu.shl4(d);
    t := DoShift(sys, s0, s, Shl32By4(RDX), RDX, d, x1);
    var x2 := alu.xor(x1, h);
    t := DoBinary(sys, s0, t, Xor32(RDX, R10), RDX, R10, x1, h, x2);
    var x3 := alu.add(k, sum);
    t := DoBinary(sys, s0, t, Add32(RDI, RAX), RDI, RAX, k, sum, x3);
    var x4 := alu.sub(sum, alu.negDelta);
    t := DoWord(sys, s0, t, SubWord(RAX, alu.negDelta), RAX, sum, alu.negDelta, x4);
    var x5 := alu.add(x2, v1);
    t := DoBinary(sys, s0, t, Add32(RDX, RCX), RDX, RCX, x2, v1, x5);
    var x6 := alu.xor(x5, x3);
    t := DoBinary(sys, s0, t, Xor32(RDX, RDI), RDX, RDI, x5, x3, x6);
    var x7 := alu.add(v0, x6);
    t := DoBinary(sys, s0, t, Add32(RSI, RDX), RSI, RDX, v0, x6, x7);
  }

  /** The second half round of encryption: fetching the key word. */
  predicate EncryptFetchHighCode<W(==)>(alu: Alu<W>, l: seq<Instr<W>>) {
    && |l| > 25
    && l[19] == Mov32(RDX, RAX)
    && l[20] == Shr32By11(RDX)
    && l[21] == Mov32(R10, RSI)
    && l[22] == And32By3(RDX)
    && l[23] == Shr32By5(R10)
    && l[24] == LoadIndexed(RDI, R9, RDX)
    && l[25] == Mov32(RDX, RSI)
  }

  /** The second half round of encryption: combining it. */
  predicate EncryptAddHighCode<W(==)>(alu: Alu<W>, l: seq<Instr<W>>) {
    && |l| > 31
    && l[26] == Shl32By4(RDX)
    && l[27] == Xor32(RDX, R10)
    && l[28] == Add32(RDI, RAX)
    && l[29] == Add32(RDX, RSI)
    && l[30] == Xor32(RDX, RDI)
    && l[31] == Add32(RCX, RDX)
  }

  lemma EncryptFetchHigh<W(!new)>(sys: Sys<W>, s0: State<W>, s: State<W>, sum: W, v0: W, v1: W, kb: Block, ko: int,
      word: W)
    returns (t: State<W>)
    requires Runs(sys) && sys.later(s0, s) && s.at.slot in sys.code && s.at.pc == 19
    requires EncryptFetchHighCode(sys.alu, sys.code[s.at.slot])
    requires s.core.regs.rax == Word(sum) && s.core.regs.rcx == Word(v1) && s.core.regs.rsi == Word(v0)
    requires s.core.regs.r9 == Val<W>.Ptr(kb, ko)
    requires LoadAt(sys.alu, s.core.mem, kb, ko + 4 * sys.alu.quarter(sys.alu.and3(sys.alu.shr11(sum)))) == Next(word)
    ensures sys.later(s0, t) && Kept(s, t, 26)
    ensures t.core.regs.rax == Word(sum)
    ensures t.core.regs.rcx == Word(v1)
    ensures t.core.regs.rsi == Word(v0)
    ensures t.core.regs.rdx == Word(v0)
    ensures t.core.regs.rdi == Word(word)
    ensures t.core.regs.r10 == Word(sys.alu.shr5(v0))
  {
    var alu := sys.alu;
    t := DoMov32(sys, s0, s, RDX, RAX, sum);
    var x1 := alu.shr11(sum);
    t := DoShift(sys, s0, t, Shr32By11(RDX), RDX, sum, x1);
    t := DoMov32(sys, s0, t, R10, RSI, v0);
    var x2 := alu.and3(x1);
    t := DoShift(sys, s0, t, And32By3(RDX), RDX, x1, x2);
    var x3 := alu.shr5(v0);
    t := DoShift(sys, s0, t, Shr32By5(R10), R10, v0, x3);
    t := DoLoadIndexed(sys, s0, t, RDI, R9, RDX, kb, ko, x2, word);
    t := DoMov32(sys, s0, t, RDX, RSI, v0);
  }

  lemma EncryptAddHigh<W(!new)>(sys: Sys<W>, s0: State<W>, s: State<W>, sum: W, v0: W, v1: W, d: W, k: W, h: W)
    returns (t: State<W>)
    requires Runs(sys) && sys.later(s0, s) && s.at.slot in sys.code && s.at.pc == 26
    requires EncryptAddHighCode(sys.alu, sys.code[s.at.slot])
    requires s.core.regs.rax == Word(sum) && s.core.regs.rcx == Word(v1) && s.core.regs.rsi == Word(v0)
    requires s.core.regs.rdx == Word(d) && s.core.regs.rdi == Word(k) && s.core.regs.r10 == Word(h)
    ensures sys.later(s0, t) && Kept(s, t, 32)
    ensures t.core.regs.rax == Word(sum)
    ensures t.core.regs.rcx == Word(sys.alu.add(v1,
        sys.alu.xor(sys.alu.add(sys.alu.xor(sys.alu.shl4(d), h), v0), sys.alu.add(k, sum))))
    ensures t.core.regs.rsi == Word(v0)
  {
    var alu := sys.alu;
    var x1 := alu.shl4(d);
    t := DoShift(sys, s0, s, Shl32By4(RDX), RDX, d, x1);
    var x2 := alu.xor(x1, h);
    t := DoBinary(sys, s0, t, Xor32(RDX, R10), RDX, R10, x1, h, x2);
    var x3 := alu.add(k, sum);
    t := DoBinary(sys, s0, t, Add32(RDI, RAX), RDI, RAX, k, sum, x3);
    var x4 := alu.add(x2, v0);
    t := DoBinary(sys, s0, t, Add32(RDX, RSI), RDX, RSI, x2, v0, x4);
    var x5 := alu.xor(x4, x3);
    t := DoBinary(sys, s0, t, Xor32(RDX, RDI), RDX, RDI, x4, x3, x5);
    var x6 := alu.add(v1, x5);
    t := DoBinary(sys, s0, t, Add32(RCX, RDX), RCX, RDX, v1, x5, x6);
  }

  predicate EncryptCode<W(==)>(alu: Alu<W>, l: seq<Instr<W>>) {
    EncryptFrameCode(alu, l) && EncryptFetchLowCode(alu, l) && EncryptAddLowCode(alu, l)
        && EncryptFetchHighCode(alu, l) && EncryptAddHighCode(alu, l) && EncryptEndCode(alu, l)
  }

  lemma EncryptFrame<W>(alu: Alu<W>)
    ensures EncryptFrameCode(alu, EncryptListing(alu))
  {
  }

  lemma EncryptFront<W>(alu: Alu<W>)
    ensures EncryptFetchLowCode(alu, EncryptListing(alu))
  {
  }

  lemma EncryptMiddle<W>(alu: Alu<W>)
    ensures EncryptAddLowCode(alu, EncryptListing(alu))
  {
  }

  lemma EncryptFetchHighPart<W>(alu: Alu<W>)
    ensures EncryptFetchHighCode(alu, EncryptListing(alu))
  {
  }

  lemma EncryptAddHighPart<W>(alu: Alu<W>)
    ensures EncryptAddHighCode(alu, EncryptListing(alu))
  {
  }

  lemma EncryptBack<W>(alu: Alu<W>)
    ensures EncryptEndCode(alu, EncryptListing(alu))
  {
  }

  lemma EncryptParts<W>(alu: Alu<W>)
    ensures EncryptCode(alu, EncryptListing(alu))
  {
    EncryptFrame(alu);
    EncryptFront(alu);
    EncryptMiddle(alu);
    EncryptFetchHighPart(alu);
    EncryptAddHighPart(alu);
    EncryptBack(alu);
  }

  /** What comes before the rounds. */
  predicate DecryptFrameCode<W(==)>(alu: Alu<W>, l: seq<Instr<W>>) {
    && |l| > 5
    && l[0] == Instr<W>.Mov(R9, RSI)
    && l[1] == Load32(RCX, RDI, 4)
    && l[2] == Load32(RSI, RDI, 0)
    && l[3] == Instr<W>.Mov(R8, RDI)
    && l[4] == MovWord(RAX, alu.final)
    && l[5] == Instr<W>.Nop
  }

  /** What comes after a round, and after the last one. */
  predicate DecryptEndCode<W(==)>(alu: Alu<W>, l: seq<Instr<W>>) {
    && |l| > 36
    && l[32] == Test32(RAX)
    && l[33] == Instr<W>.Jnz(6)
    && l[34] == Store32(R8, 0, RSI)
    && l[35] == Store32(R8, 4, RCX)
    && l[36] == Instr<W>.Ret
  }

  /** The first half round of decryption: fetching the key word. */
  predicate DecryptFetchHighCode<W(==)>(alu: Alu<W>, l: seq<Instr<W>>) {
    && |l| > 12
    && l[6] == Mov32(RDX, RAX)
    && l[7] == Mov32(R10, RSI)
    && l[8] == Shr32By11(RDX)
    && l[9] == Shr32By5(R10)
    && l[10] == And32By3(RDX)
    && l[11] == LoadIndexed(RDI, R9, RDX)
    && l[12] == Mov32(RDX, RSI)
  }

  /** The first half round of decryption: combining it. */
  predicate DecryptSubHighCode<W(==)>(alu: Alu<W>, l: seq<Instr<W>>) {
    && |l| > 19
    && l[13] == Shl32By4(RDX)
    && l[14] == Xor32(RDX, R10)
    && l[15] == Add32(RDI, RAX)
    && l[16] == AddWord(RAX, alu.negDelta)
    && l[17] == Add32(RDX, RSI)
    && l[18] == Xor32(RDX, RDI)
    && l[19] == Sub32(RCX, RDX)
  }

  lemma DecryptFetchHigh<W(!new)>(sys: Sys<W>, s0: State<W>, s: State<W>, sum: W, v0: W, v1: W, kb: Block, ko: int,
      word: W)
    returns (t: State<W>)
    requires Runs(sys) && sys.later(s0, s) && s.at.slot in sys.code && s.at.pc == 6
    requires DecryptFetchHighCode(sys.alu, sys.code[s.at.slot])
    requires s.core.regs.rax == Word(sum) && s.core.regs.rcx == Word(v1) && s.core.regs.rsi == Word(v0)
    requires s.core.regs.r9 == Val<W>.Ptr(kb, ko)
    requires LoadAt(sys.alu, s.core.mem, kb, ko + 4 * sys.alu.quarter(sys.alu.and3(sys.alu.shr11(sum)))) == Next(word)
    ensures sys.later(s0, t) && Kept(s, t, 13)
    ensures t.core.regs.rax == Word(sum)
    ensures t.core.regs.rcx == Word(v1)
    ensures t.core.regs.rsi == Word(v0)
    ensures t.core.regs.rdx == Word(v0)
    ensures t.core.regs.rdi == Word(word)
    ensures t.core.regs.r10 == Word(sys.alu.shr5(v0))
  {
    var alu := sys.alu;
    t := DoMov32(sys, s0, s, RDX, RAX, sum);
    t := DoMov32(sys, s0, t, R10, RSI, v0);
    var x1 := alu.shr11(sum);
    t := DoShift(sys, s0, t, Shr32By11(RDX), RDX, sum, x1);
    var x2 := alu.shr5(v0);
    t := DoShift(sys, s0, t, Shr32By5(R10), R10, v0, x2);
    var x3 := alu.and3(x1);
    t := DoShift(sys, s0, t, And32By3(RDX), RDX, x1, x3);
    t := DoLoadIndexed(sys, s0, t, RDI, R9, RDX, kb, ko, x3, word);
    t := DoMov32(sys, s0, t, RDX, RSI, v0);
  }

  lemma DecryptSubHigh<W(!new)>(sys: Sys<W>, s0: State<W>, s: State<W>, sum: W, v0: W, v1: W, d: W, k: W, h: W)
    returns (t: State<W>)
    requires Runs(sys) && sys.later(s0, s) && s.at.slot in sys.code && s.at.pc == 13
    requires DecryptSubHighCode(sys.alu, sys.code[s.at.slot])
    requires s.core.regs.rax == Word(sum) && s.core.regs.rcx == Word(v1) && s.core.regs.rsi == Word(v0)
    requires s.core.regs.rdx == Word(d) && s.core.regs.rdi == Word(k) && s.core.regs.r10 == Word(h)
    ensures sys.later(s0, t) && Kept(s, t, 20)
    ensures t.core.regs.rax == Word(sys.alu.add(sum, sys.alu.negDelta))
    ensures t.core.regs.rcx == Word(sys.alu.sub(v1,
        sys.alu.xor(sys.alu.add(sys.alu.xor(sys.alu.shl4(d), h), v0), sys.alu.add(k, sum))))
    ensures t.core.regs.rsi == Word(v0)
  {
    var alu := sys.alu;
    var x1 := alu.shl4(d);
    t := DoShift(sys, s0, s, Shl32By4(RDX), RDX, d, x1);
    var x2 := alu.xor(x1, h);
    t := DoBinary(sys, s0, t, Xor32(RDX, R10), RDX, R10, x1, h, x2);
    var x3 := alu.add(k, sum);
    t := DoBinary(sys, s0, t, Add32(RDI, RAX), RDI, RAX, k, sum, x3);
    var x4 := alu.add(sum, alu.negDelta);
    t := DoWord(sys, s0, t, AddWord(RAX, alu.negDelta), RAX, sum, alu.negDelta, x4);
    var x5 := alu.add(x2, v0);
    t := DoBinary(sys, s0, t, Add32(RDX, RSI), RDX, RSI, x2, v0, x5);
    var x6 := alu.xor(x5, x3);
    t := DoBinary(sys, s0, t, Xor32(RDX, RDI), RDX, RDI, x5, x3, x6);
    var x7 := alu.sub(v1, x6);
    t := DoBinary(sys, s0, t, Sub32(RCX, RDX), RCX, RDX, v1, x6, x7);
  }

  /** The second half round of decryption: fetching the key word. */
  predicate DecryptFetchLowCode<W(==)>(alu: Alu<W>, l: seq<Instr<W>>) {
    && |l| > 25
    && l[20] == Mov32(RDX, RAX)
    && l[21] == And32By3(RDX)
    && l[22] == Mov32(R10, RCX)
    && l[23] == LoadIndexed(RDI, R9, RDX)
    && l[24] == Mov32(RDX, RCX)
    && l[25] == Shr32By5(R10)
  }

  /** The second half round of decryption: combining it. */
  predicate DecryptSubLowCode<W(==)>(alu: Alu<W>, l: seq<Instr<W>>) {
    && |l| > 31
    && l[26] == Shl32By4(RDX)
    && l[27] == Xor32(RDX, R10)
    && l[28] == Add32(RDI, RAX)
    && l[29] == Add32(RDX, RCX)
    && l[30] == Xor32(RDX, RDI)
    && l[31] == Sub32(RSI, RDX)
  }

  lemma DecryptFetchLow<W(!new)>(sys: Sys<W>, s0: State<W>, s: State<W>, sum: W, v0: W, v1: W, kb: Block, ko: int,
      word: W)
    returns (t: State<W>)
    requires Runs(sys) && sys.later(s0, s) && s.at.slot in sys.code && s.at.pc == 20
    requires DecryptFetchLowCode(sys.alu, sys.code[s.at.slot])
    requires s.core.regs.rax == Word(sum) && s.core.regs.rcx == Word(v1) && s.core.regs.rsi == Word(v0)
    requires s.core.regs.r9 == Val<W>.Ptr(kb, ko)
    requires LoadAt(sys.alu, s.core.mem, kb, ko + 4 * sys.alu.quarter(sys.alu.and3(sum))) == Next(word)
    ensures sys.later(s0, t) && Kept(s, t, 26)
    ensures t.core.regs.rax == Word(sum)
    ensures t.core.regs.rcx == Word(v1)
    ensures t.core.regs.rsi == Word(v0)
    ensures t.core.regs.rdx == Word(v1)
    ensures t.core.regs.rdi == Word(word)
    ensures t.core.regs.r10 == Word(sys.alu.shr5(v1))
  {
    var alu := sys.alu;
    t := DoMov32(sys, s0, s, RDX, RAX, sum);
    var x1 := alu.and3(sum);
    t := DoShift(sys, s0, t, And32By3(RDX), RDX, sum, x1);
    t := DoMov32(sys, s0, t, R10, RCX, v1);
    t := DoLoadIndexed(sys, s0, t, RDI, R9, RDX, kb, ko, x1, word);
    t := DoMov32(sys, s0, t, RDX, RCX, v1);
    var x2 := alu.shr5(v1);
    t := DoShift(sys, s0, t, Shr32By5(R10), R10, v1, x2);
  }

  lemma DecryptSubLow<W(!new)>(sys: Sys<W>, s0: State<W>, s: State<W>, sum: W, v0: W, v1: W, d: W, k: W, h: W)
    returns (t: State<W>)
    requires Runs(sys) && sys.later(s0, s) && s.at.slot in sys.code && s.at.pc == 26
    requires DecryptSubLowCode(sys.alu, sys.code[s.at.slot])
    requires s.core.regs.rax == Word(sum) && s.core.regs.rcx == Word(v1) && s.core.regs.rsi == Word(v0)
    requires s.core.regs.rdx == Word(d) && s.core.regs.rdi == Word(k) && s.core.regs.r10 == Word(h)
    ensures sys.later(s0, t) && Kept(s, t, 32)
    ensures t.core.regs.rax == Word(sum)
    ensures t.core.regs.rcx == Word(v1)
    ensures t.core.regs.rsi == Word(sys.alu.sub(v0,
        sys.alu.xor(sys.alu.add(sys.alu.xor(sys.alu.shl4(d), h), v1), sys.alu.add(k, sum))))
  {
    var alu := sys.alu;
    var x1 := alu.shl4(d);
    t := DoShift(sys, s0, s, Shl32By4(RDX), RDX, d, x1);
    var x2 := alu.xor(x1, h);
    t := DoBinary(sys, s0, t, Xor32(RDX, R10), RDX, R10, x1, h, x2);
    var x3 := alu.add(k, sum);
    t := DoBinary(sys, s0, t, Add32(RDI, RAX), RDI, RAX, k, sum, x3);
    var x4 := alu.add(x2, v1);
    t := DoBinary(sys, s0, t, Add32(RDX, RCX), RDX, RCX, x2, v1, x4);
    var x5 := alu.xor(x4, x3);
    t := DoBinary(sys, s0, t, Xor32(RDX, RDI), RDX, RDI, x4, x3, x5);
    var x6 := alu.sub(v0, x5);
    t := DoBinary(sys, s0, t, Sub32(RSI, RDX), RSI, RDX, v0, x5, x6);
  }

  predicate DecryptCode<W(==)>(alu: Alu<W>, l: seq<Instr<W>>) {
    DecryptFrameCode(alu, l) && DecryptFetchHighCode(alu, l) && DecryptSubHighCode(alu, l)
        && DecryptFetchLowCode(alu, l) && DecryptSubLowCode(alu, l) && DecryptEndCode(alu, l)
  }

  lemma DecryptFrame<W>(alu: Alu<W>)
    ensures DecryptFrameCode(alu, DecryptListing(alu))
  {
  }

  lemma DecryptFront<W>(alu: Alu<W>)
    ensures DecryptFetchHighCode(alu, DecryptListing(alu))
  {
  }

  lemma DecryptMiddle<W>(alu: Alu<W>)
    ensures DecryptSubHighCode(alu, DecryptListing(alu))
  {
  }

  lemma DecryptFetchLowPart<W>(alu: Alu<W>)
    ensures DecryptFetchLowCode(alu, DecryptListing(alu))
  {
  }

  lemma DecryptSubLowPart<W>(alu: Alu<W>)
    ensures DecryptSubLowCode(alu, DecryptListing(alu))
  {
  }

  lemma DecryptBack<W>(alu: Alu<W>)
    ensures DecryptEndCode(alu, DecryptListing(alu))
  {
  }

  lemma DecryptParts<W>(alu: Alu<W>)
    ensures DecryptCode(alu, DecryptListing(alu))
  {
    DecryptFrame(alu);
    DecryptFront(alu);
    DecryptMiddle(alu);
    DecryptFetchLowPart(alu);
    DecryptSubLowPart(alu);
    DecryptBack(alu);
  }

  // The rounds.

  /** The four key words are in memory. */
  ghost predicate KeyIn<W>(alu: Alu<W>, m: Mem, kb: Block, ko: int, key: seq<W>) {
    && |key| == 4
    && forall i :: 0 <= i < 4 ==> LoadAt(alu, m, kb, ko + 4 * i) == Next(key[i])
  }

  /** At the top of the loop with this sum and these two words. */
  predicate AtLoop<W(==)>(s: State<W>, sum: W, p: Pair<W>, kb: Block, ko: int) {
    && s.at.pc == 6
    && s.core.regs.rax == Word(sum) && s.core.regs.rcx == Word(p.v1) && s.core.regs.rsi == Word(p.v0)
    && s.core.regs.r9 == Val<W>.Ptr(kb, ko)
  }

  lemma EncryptHalf<W(!new)>(sys: Sys<W>, s0: State<W>, s: State<W>, sum: W, p: Pair<W>, kb: Block, ko: int,
      key: seq<W>)
    returns (t: State<W>)
    requires Runs(sys) && Arithmetic(sys.alu) && sys.later(s0, s) && AtLoop(s, sum, p, kb, ko)
    requires s.at.slot in sys.code && EncryptCode(sys.alu, sys.code[s.at.slot])
    requires KeyIn(sys.alu, s.core.mem, kb, ko, key)
    ensures sys.later(s0, t) && Kept(s, t, 19)
    ensures t.core.regs.rax == Word(sys.alu.add(sum, sys.alu.delta)) && t.core.regs.rcx == Word(p.v1)
    ensures t.core.regs.rsi == Word(sys.alu.add(p.v0, sys.alu.xor(Mix(sys.alu, p.v1), Low(sys.alu, key, sum))))
  {
    var word := key[sys.alu.quarter(sys.alu.and3(sum))];
    t := EncryptFetchLow(sys, s0, s, sum, p.v0, p.v1, kb, ko, word);
    t := EncryptAddLow(sys, s0, t, sum, p.v0, p.v1, p.v1, word, sys.alu.shr5(p.v1));
  }

  /** From the top of the loop to behind the jump: one round of encryption. */
  lemma EncryptTurn<W(!new)>(sys: Sys<W>, s0: State<W>, s: State<W>, sum: W, p: Pair<W>, kb: Block, ko: int,
      key: seq<W>)
    returns (t: State<W>)
    requires Runs(sys) && Arithmetic(sys.alu) && sys.later(s0, s) && AtLoop(s, sum, p, kb, ko)
    requires s.at.slot in sys.code && EncryptCode(sys.alu, sys.code[s.at.slot])
    requires KeyIn(sys.alu, s.core.mem, kb, ko, key)
    ensures sys.later(s0, t) && Kept(s, t, 32)
    ensures var q := EncryptRound(sys.alu, key, sum, p);
            && t.core.regs.rax == Word(sys.alu.add(sum, sys.alu.delta))
            && t.core.regs.rcx == Word(q.v1) && t.core.regs.rsi == Word(q.v0)
  {
    var next := sys.alu.add(sum, sys.alu.delta);
    var v0 := sys.alu.add(p.v0, sys.alu.xor(Mix(sys.alu, p.v1), Low(sys.alu, key, sum)));
    var word := key[sys.alu.quarter(sys.alu.and3(sys.alu.shr11(next)))];
    t := EncryptHalf(sys, s0, s, sum, p, kb, ko, key);
    t := EncryptFetchHigh(sys, s0, t, next, v0, p.v1, kb, ko, word);
    t := EncryptAddHigh(sys, s0, t, next, v0, p.v1, v0, word, sys.alu.shr5(v0));
  }

  /** The comparison with the sentinel and the jump. */
  lemma EncryptBranch<W(!new)>(sys: Sys<W>, s0: State<W>, s: State<W>, sum: W) returns (t: State<W>)
    requires Runs(sys) && sys.later(s0, s) && s.at.pc == 32 && s.core.regs.rax == Word(sum)
    requires s.at.slot in sys.code && EncryptEndCode(sys.alu, sys.code[s.at.slot])
    ensures sys.later(s0, t) && Kept(s, t, if sum == sys.alu.final then 34 else 6) && t.core.regs == s.core.regs
  {
    t := DoTest(sys, s0, s, CmpWord(RAX, sys.alu.final), RAX, sum, sum == sys.alu.final);
    t := DoJnz(sys, s0, t, 6);
  }

  predicate Holds<W(==)>(sys: Sys<W>, slot: nat, listing: seq<Instr<W>>) {
    slot in sys.code && sys.code[slot] == listing
  }

  lemma EncryptOnce<W(!new)>(sys: Sys<W>, s0: State<W>, s: State<W>, sum: W, next: W, p: Pair<W>, q: Pair<W>,
                             kb: Block, ko: int, key: seq<W>)
    returns (t: State<W>)
    requires Runs(sys) && Arithmetic(sys.alu) && sys.later(s0, s) && AtLoop(s, sum, p, kb, ko)
    requires Holds(sys, s.at.slot, EncryptListing(sys.alu))
    requires KeyIn(sys.alu, s.core.mem, kb, ko, key)
    requires next == sys.alu.add(sum, sys.alu.delta) && q == EncryptRound(sys.alu, key, sum, p)
    ensures sys.later(s0, t) && Kept(s, t, if next == sys.alu.final then 34 else 6)
    ensures t.core.regs.rax == Word(next) && t.core.regs.rcx == Word(q.v1) && t.core.regs.rsi == Word(q.v0)
  {
    EncryptParts(sys.alu);
    t := EncryptTurn(sys, s0, s, sum, p, kb, ko, key);
    t := EncryptBranch(sys, s0, t, next);
  }

  /** Sums and words as they develop from round to round. */
  ghost predicate Develops<W(!new)>(alu: Alu<W>, key: seq<W>, sums: nat -> W, pairs: nat -> Pair<W>, n: nat)
    requires Arithmetic(alu) && |key| == 4
  {
    sums(n + 1) == alu.add(sums(n), alu.delta) && pairs(n + 1) == EncryptRound(alu, key, sums(n), pairs(n))
  }

  /** The loop runs on until 32 rounds are done, since the sum is not the sentinel before. */
  lemma {:induction false} EncryptLoopRun<W(!new)>(sys: Sys<W>, s0: State<W>, s: State<W>, n: nat, sums: nat -> W,
                                                   pairs: nat -> Pair<W>, kb: Block, ko: int, key: seq<W>)
    returns (t: State<W>)
    requires Runs(sys) && Arithmetic(sys.alu) && sys.later(s0, s)
    requires Holds(sys, s.at.slot, EncryptListing(sys.alu))
    requires KeyIn(sys.alu, s.core.mem, kb, ko, key)
    requires forall k: nat :: Develops(sys.alu, key, sums, pairs, k)
    requires forall k :: 1 <= k <= ROUNDS ==> (sums(k) == sys.alu.final <==> k == ROUNDS)
    requires n < ROUNDS && AtLoop(s, sums(n), pairs(n), kb, ko)
    ensures sys.later(s0, t) && Kept(s, t, 34)
    ensures t.core.regs.rcx == Word(pairs(ROUNDS).v1) && t.core.regs.rsi == Word(pairs(ROUNDS).v0)
    decreases ROUNDS - n
  {
    assert Develops(sys.alu, key, sums, pairs, n);
    t := EncryptOnce(sys, s0, s, sums(n), sums(n + 1), pairs(n), pairs(n + 1), kb, ko, key);
    if n + 1 < ROUNDS {
      t := EncryptLoopRun(sys, s0, t, n + 1, sums, pairs, kb, ko, key);
    }
  }

  lemma DecryptHalf<W(!new)>(sys: Sys<W>, s0: State<W>, s: State<W>, sum: W, p: Pair<W>, kb: Block, ko: int,
      key: seq<W>)
    returns (t: State<W>)
    requires Runs(sys) && Arithmetic(sys.alu) && sys.later(s0, s) && AtLoop(s, sum, p, kb, ko)
    requires s.at.slot in sys.code && DecryptCode(sys.alu, sys.code[s.at.slot])
    requires KeyIn(sys.alu, s.core.mem, kb, ko, key)
    ensures sys.later(s0, t) && Kept(s, t, 20)
    ensures t.core.regs.rax == Word(sys.alu.sub(sum, sys.alu.delta)) && t.core.regs.rsi == Word(p.v0)
    ensures t.core.regs.rcx == Word(sys.alu.sub(p.v1, sys.alu.xor(Mix(sys.alu, p.v0), High(sys.alu, key, sum))))
  {
    var word := key[sys.alu.quarter(sys.alu.and3(sys.alu.shr11(sum)))];
    t := DecryptFetchHigh(sys, s0, s, sum, p.v0, p.v1, kb, ko, word);
    t := DecryptSubHigh(sys, s0, t, sum, p.v0, p.v1, p.v0, word, sys.alu.shr5(p.v0));
  }

  /** From the top of the loop to behind the jump: one round of decryption. */
  lemma DecryptTurn<W(!new)>(sys: Sys<W>, s0: State<W>, s: State<W>, sum: W, p: Pair<W>, kb: Block, ko: int,
      key: seq<W>)
    returns (t: State<W>)
    requires Runs(sys) && Arithmetic(sys.alu) && sys.later(s0, s) && AtLoop(s, sum, p, kb, ko)
    requires s.at.slot in sys.code && DecryptCode(sys.alu, sys.code[s.at.slot])
    requires KeyIn(sys.alu, s.core.mem, kb, ko, key)
    ensures sys.later(s0, t) && Kept(s, t, 32)
    ensures var q := DecryptRound(sys.alu, key, sum, p);
            && t.core.regs.rax == Word(sys.alu.sub(sum, sys.alu.delta))
            && t.core.regs.rcx == Word(q.v1) && t.core.regs.rsi == Word(q.v0)
  {
    var next := sys.alu.sub(sum, sys.alu.delta);
    var v1 := sys.alu.sub(p.v1, sys.alu.xor(Mix(sys.alu, p.v0), High(sys.alu, key, sum)));
    var word := key[sys.alu.quarter(sys.alu.and3(next))];
    t := DecryptHalf(sys, s0, s, sum, p, kb, ko, key);
    t := DecryptFetchLow(sys, s0, t, next, p.v0, v1, kb, ko, word);
    t := DecryptSubLow(sys, s0, t, next, p.v0, v1, v1, word, sys.alu.shr5(v1));
  }

  /** The test for the sentinel, which is zero, and the jump. */
  lemma DecryptBranch<W(!new)>(sys: Sys<W>, s0: State<W>, s: State<W>, sum: W) returns (t: State<W>)
    requires Runs(sys) && sys.later(s0, s) && s.at.pc == 32 && s.core.regs.rax == Word(sum)
    requires s.at.slot in sys.code && DecryptEndCode(sys.alu, sys.code[s.at.slot])
    ensures sys.later(s0, t) && Kept(s, t, if sum == sys.alu.zero then 34 else 6) && t.core.regs == s.core.regs
  {
    t := DoTest(sys, s0, s, Test32(RAX), RAX, sum, sum == sys.alu.zero);
    t := DoJnz(sys, s0, t, 6);
  }

  lemma DecryptOnce<W(!new)>(sys: Sys<W>, s0: State<W>, s: State<W>, sum: W, next: W, p: Pair<W>, q: Pair<W>,
                             kb: Block, ko: int, key: seq<W>)
    returns (t: State<W>)
    requires Runs(sys) && Arithmetic(sys.alu) && sys.later(s0, s) && AtLoop(s, sum, p, kb, ko)
    requires Holds(sys, s.at.slot, DecryptListing(sys.alu))
    requires KeyIn(sys.alu, s.core.mem, kb, ko, key)
    requires next == sys.alu.sub(sum, sys.alu.delta) && q == DecryptRound(sys.alu, key, sum, p)
    ensures sys.later(s0, t) && Kept(s, t, if next == sys.alu.zero then 34 else 6)
    ensures t.core.regs.rax == Word(next) && t.core.regs.rcx == Word(q.v1) && t.core.regs.rsi == Word(q.v0)
  {
    DecryptParts(sys.alu);
    t := DecryptTurn(sys, s0, s, sum, p, kb, ko, key);
    t := DecryptBranch(sys, s0, t, next);
  }

  /** The sums go down. */
  ghost predicate DevelopsDown<W(!new)>(alu: Alu<W>, key: seq<W>, sums: nat -> W, pairs: nat -> Pair<W>, n: nat)
    requires Arithmetic(alu) && |key| == 4
  {
    sums(n + 1) == alu.sub(sums(n), alu.delta) && pairs(n + 1) == DecryptRound(alu, key, sums(n), pairs(n))
  }

  /** The loop runs on until 32 rounds are done, since the sum is not the sentinel before. */
  lemma {:induction false} DecryptLoopRun<W(!new)>(sys: Sys<W>, s0: State<W>, s: State<W>, n: nat, sums: nat -> W,
                                                   pairs: nat -> Pair<W>, kb: Block, ko: int, key: seq<W>)
    returns (t: State<W>)
    requires Runs(sys) && Arithmetic(sys.alu) && sys.later(s0, s)
    requires Holds(sys, s.at.slot, DecryptListing(sys.alu))
    requires KeyIn(sys.alu, s.core.mem, kb, ko, key)
    requires forall k :: 0 <= k < ROUNDS ==> DevelopsDown(sys.alu, key, sums, pairs, k)
    requires forall k :: 1 <= k <= ROUNDS ==> (sums(k) == sys.alu.zero <==> k == ROUNDS)
    requires n < ROUNDS && AtLoop(s, sums(n), pairs(n), kb, ko)
    ensures sys.later(s0, t) && Kept(s, t, 34)
    ensures t.core.regs.rcx == Word(pairs(ROUNDS).v1) && t.core.regs.rsi == Word(pairs(ROUNDS).v0)
    decreases ROUNDS - n
  {
    assert DevelopsDown(sys.alu, key, sums, pairs, n);
    t := DecryptOnce(sys, s0, s, sums(n), sums(n + 1), pairs(n), pairs(n + 1), kb, ko, key);
    if n + 1 < ROUNDS {
      t := DecryptLoopRun(sys, s0, t, n + 1, sums, pairs, kb, ko, key);
    }
  }

  // Entering and leaving.

  lemma EncryptEnter<W(!new)>(sys: Sys<W>, s0: State<W>, s: State<W>, p: Pair<W>, vb: Block, vo: int, kb: Block,
      ko: int)
    returns (t: State<W>)
    requires Runs(sys) && sys.later(s0, s) && s.at.pc == 0 && Holds(sys, s.at.slot, EncryptListing(sys.alu))
    requires s.core.regs.rdi == Val<W>.Ptr(vb, vo) && s.core.regs.rsi == Val<W>.Ptr(kb, ko)
    requires LoadAt(sys.alu, s.core.mem, vb, vo) == Next(p.v0) && LoadAt(sys.alu, s.core.mem, vb, vo + 4) == Next(p.v1)
    ensures sys.later(s0, t) && AtLoop(t, sys.alu.zero, p, kb, ko) && t.core.regs.r8 == Val<W>.Ptr(vb, vo)
    ensures t.at.slot == s.at.slot && t.stack == s.stack && t.core.mem == s.core.mem && t.core.df == s.core.df
  {
    EncryptFrame(sys.alu);
    t := DoMov(sys, s0, s, R9, RSI);
    t := DoLoad32(sys, s0, t, RCX, RDI, 4, vb, vo, p.v1);
    t := DoLoad32(sys, s0, t, RSI, RDI, 0, vb, vo, p.v0);
    t := DoMov(sys, s0, t, R8, RDI);
    t := DoClear(sys, s0, t, RAX);
    t := DoNop(sys, s0, t);
  }

  lemma StorePairAt<W(!new)>(alu: Alu<W>, m: Mem, b: Block, at: int, p: Pair<W>) returns (m1: Mem, m2: Mem)
    requires Bytes(alu) && 0 <= at && at + 8 <= |BlockBytes(m, b)|
    ensures StoreAt(alu, m, b, at, p.v0) == Next(m1) && StoreAt(alu, m1, b, at + 4, p.v1) == Next(m2)
    ensures m2 == WithBlock(m, b, BlockBytes(m, b)[..at] + FromPair(alu, p) + BlockBytes(m, b)[at + 8..])
  {
    var bytes := BlockBytes(m, b);
    m1 := StoreAt(alu, m, b, at, p.v0).value;
    var bytes1 := bytes[..at] + alu.store(p.v0) + bytes[at + 4..];
    assert BlockBytes(m1, b) == bytes1;
    m2 := StoreAt(alu, m1, b, at + 4, p.v1).value;
    assert bytes1[..at + 4] == bytes[..at] + alu.store(p.v0) && bytes1[at + 8..] == bytes[at + 8..];
    assert bytes1[..at + 4] + alu.store(p.v1) + bytes1[at + 8..] == bytes[..at] + FromPair(alu, p) + bytes[at + 8..];
  }

  /** The words go back to memory and control to the caller. */
  lemma EncryptLeave<W(!new)>(sys: Sys<W>, s0: State<W>, s: State<W>, p: Pair<W>, vb: Block, vo: int)
    returns (t: State<W>)
    requires Runs(sys) && Bytes(sys.alu) && sys.later(s0, s) && s.at.pc == 34 && s.stack != []
    requires s.at.slot in sys.code && EncryptEndCode(sys.alu, sys.code[s.at.slot])
    requires s.core.regs.r8 == Val<W>.Ptr(vb, vo) && s.core.regs.rsi == Word(p.v0) && s.core.regs.rcx == Word(p.v1)
    requires 0 <= vo && vo + 8 <= |BlockBytes(s.core.mem, vb)|
    ensures sys.later(s0, t) && Returned(s, t)
    ensures var bytes := BlockBytes(s.core.mem, vb);
            t.core.mem == WithBlock(s.core.mem, vb, bytes[..vo] + FromPair(sys.alu, p) + bytes[vo + 8..])
  {
    var m1, m2 := StorePairAt(sys.alu, s.core.mem, vb, vo, p);
    t := DoStore32(sys, s0, s, R8, 0, RSI, vb, vo, p.v0, m1);
    t := DoStore32(sys, s0, t, R8, 4, RCX, vb, vo, p.v1, m2);
    t := DoRet(sys, s0, t);
  }

  /** Control is back at the place on top of the stack. */
  predicate Returned<W>(s: State<W>, t: State<W>) {
    s.stack != [] && t.at == s.stack[|s.stack| - 1] && t.stack == s.stack[..|s.stack| - 1] && t.core.df == s.core.df
  }

  /** The key bytes are in memory. */
  predicate KeyBytes(m: Mem, kb: Block, ko: int, key: seq<bv8>) {
    |key| == 16 && 0 <= ko && ko + 16 <= |BlockBytes(m, kb)| && BlockBytes(m, kb)[ko..ko + 16] == key
  }

  lemma PartOfPart<T>(s: seq<T>, from: nat, to: nat, a: nat, b: nat)
    requires from <= to <= |s| && a <= b <= to - from
    ensures s[from..to][a..b] == s[from + a..from + b]
  {
    forall i | 0 <= i < b - a
      ensures s[from..to][a..b][i] == s[from + a..from + b][i]
    {
    }
  }

  lemma KeyLoads<W>(alu: Alu<W>, m: Mem, kb: Block, ko: int, key: seq<bv8>)
    requires KeyBytes(m, kb, ko, key)
    ensures KeyIn(alu, m, kb, ko, KeyWords(alu, key))
  {
    var bytes := BlockBytes(m, kb);
    forall i | 0 <= i < 4
      ensures LoadAt(alu, m, kb, ko + 4 * i) == Next(KeyWords(alu, key)[i])
    {
      PartOfPart(bytes, ko, ko + 16, 4 * i, 4 * i + 4);
    }
  }

  lemma BlockLoads<W(!new)>(alu: Alu<W>, m: Mem, b: Block, at: int, block: seq<bv8>)
    requires 0 <= at && at + 8 <= |BlockBytes(m, b)| && block == BlockBytes(m, b)[at..at + 8]
    ensures LoadAt(alu, m, b, at) == Next(ToPair(alu, block).v0)
    ensures LoadAt(alu, m, b, at + 4) == Next(ToPair(alu, block).v1)
  {
    var bytes := BlockBytes(m, b);
    assert bytes[at..at + 4] == block[..4] && bytes[at + 4..at + 8] == block[4..];
  }

  /** From the first instruction to the return: the block is encrypted as `myencrypt` does. */
  lemma EncryptListingRuns<W(!new)>(sys: Sys<W>, s0: State<W>, s: State<W>, vb: Block, vo: int, kb: Block, ko: int,
                                    key: seq<bv8>)
    returns (t: State<W>)
    requires Runs(sys) && Arithmetic(sys.alu) && Bytes(sys.alu) && Sentinels(sys.alu)
    requires sys.later(s0, s) && s.at.pc == 0 && Holds(sys, s.at.slot, EncryptListing(sys.alu)) && s.stack != []
    requires s.core.regs.rdi == Val<W>.Ptr(vb, vo) && s.core.regs.rsi == Val<W>.Ptr(kb, ko)
    requires KeyBytes(s.core.mem, kb, ko, key) && 0 <= vo && vo + 8 <= |BlockBytes(s.core.mem, vb)|
    ensures sys.later(s0, t) && Returned(s, t)
    ensures var bytes := BlockBytes(s.core.mem, vb);
            t.core.mem == WithBlock(s.core.mem, vb,
                            bytes[..vo] + EncryptBlock(sys.alu, key, bytes[vo..vo + 8]) + bytes[vo + 8..])
  {
    var alu, words := sys.alu, KeyWords(sys.alu, key);
    var block := BlockBytes(s.core.mem, vb)[vo..vo + 8];
    var p := ToPair(alu, block);
    KeyLoads(alu, s.core.mem, kb, ko, key);
    BlockLoads(alu, s.core.mem, vb, vo, block);
    t := EncryptEnter(sys, s0, s, p, vb, vo, kb, ko);
    var sums, pairs := EncryptTrace(alu, words, p);
    t := EncryptLoopRun(sys, s0, t, 0, sums, pairs, kb, ko, words);
    EncryptBack(alu);
    t := EncryptLeave(sys, s0, t, pairs(ROUNDS), vb, vo);
  }

  /** The sums and words of all rounds. */
  lemma EncryptTrace<W(!new)>(alu: Alu<W>, key: seq<W>, p: Pair<W>) returns (sums: nat -> W, pairs: nat -> Pair<W>)
    requires Arithmetic(alu) && Sentinels(alu) && |key| == 4
    ensures sums(0) == alu.zero && pairs(0) == p
    ensures pairs(ROUNDS) == Encrypted(alu, key, ROUNDS, p)
    ensures forall k: nat :: Develops(alu, key, sums, pairs, k)
    ensures forall k :: 1 <= k <= ROUNDS ==> (sums(k) == alu.final <==> k == ROUNDS)
  {
    sums := (n: nat) => SumAfter(alu, n);
    pairs := (n: nat) => Encrypted(alu, key, n, p);
  }

  lemma DecryptEnter<W(!new)>(sys: Sys<W>, s0: State<W>, s: State<W>, p: Pair<W>, vb: Block, vo: int, kb: Block,
      ko: int)
    returns (t: State<W>)
    requires Runs(sys) && sys.later(s0, s) && s.at.pc == 0 && Holds(sys, s.at.slot, DecryptListing(sys.alu))
    requires s.core.regs.rdi == Val<W>.Ptr(vb, vo) && s.core.regs.rsi == Val<W>.Ptr(kb, ko)
    requires LoadAt(sys.alu, s.core.mem, vb, vo) == Next(p.v0) && LoadAt(sys.alu, s.core.mem, vb, vo + 4) == Next(p.v1)
    ensures sys.later(s0, t) && AtLoop(t, sys.alu.final, p, kb, ko) && t.core.regs.r8 == Val<W>.Ptr(vb, vo)
    ensures t.at.slot == s.at.slot && t.stack == s.stack && t.core.mem == s.core.mem && t.core.df == s.core.df
  {
    DecryptFrame(sys.alu);
    t := DoMov(sys, s0, s, R9, RSI);
    t := DoLoad32(sys, s0, t, RCX, RDI, 4, vb, vo, p.v1);
    t := DoLoad32(sys, s0, t, RSI, RDI, 0, vb, vo, p.v0);
    t := DoMov(sys, s0, t, R8, RDI);
    t := DoMovWord(sys, s0, t, RAX, sys.alu.final);
    t := DoNop(sys, s0, t);
  }

  /** The words go back to memory and control to the caller. */
  lemma DecryptLeave<W(!new)>(sys: Sys<W>, s0: State<W>, s: State<W>, p: Pair<W>, vb: Block, vo: int)
    returns (t: State<W>)
    requires Runs(sys) && Bytes(sys.alu) && sys.later(s0, s) && s.at.pc == 34 && s.stack != []
    requires s.at.slot in sys.code && DecryptEndCode(sys.alu, sys.code[s.at.slot])
    requires s.core.regs.r8 == Val<W>.Ptr(vb, vo) && s.core.regs.rsi == Word(p.v0) && s.core.regs.rcx == Word(p.v1)
    requires 0 <= vo && vo + 8 <= |BlockBytes(s.core.mem, vb)|
    ensures sys.later(s0, t) && Returned(s, t)
    ensures var bytes := BlockBytes(s.core.mem, vb);
            t.core.mem == WithBlock(s.core.mem, vb, bytes[..vo] + FromPair(sys.alu, p) + bytes[vo + 8..])
  {
    var m1, m2 := StorePairAt(sys.alu, s.core.mem, vb, vo, p);
    t := DoStore32(sys, s0, s, R8, 0, RSI, vb, vo, p.v0, m1);
    t := DoStore32(sys, s0, t, R8, 4, RCX, vb, vo, p.v1, m2);
    t := DoRet(sys, s0, t);
  }

  /** From the first instruction to the return: the block is decrypted as `mydecrypt` does. */
  lemma DecryptListingRuns<W(!new)>(sys: Sys<W>, s0: State<W>, s: State<W>, vb: Block, vo: int, kb: Block, ko: int,
                                    key: seq<bv8>)
    returns (t: State<W>)
    requires Runs(sys) && Arithmetic(sys.alu) && Bytes(sys.alu) && Sentinels(sys.alu)
    requires sys.later(s0, s) && s.at.pc == 0 && Holds(sys, s.at.slot, DecryptListing(sys.alu)) && s.stack != []
    requires s.core.regs.rdi == Val<W>.Ptr(vb, vo) && s.core.regs.rsi == Val<W>.Ptr(kb, ko)
    requires KeyBytes(s.core.mem, kb, ko, key) && 0 <= vo && vo + 8 <= |BlockBytes(s.core.mem, vb)|
    ensures sys.later(s0, t) && Returned(s, t)
    ensures var bytes := BlockBytes(s.core.mem, vb);
            t.core.mem == WithBlock(s.core.mem, vb,
                            bytes[..vo] + DecryptBlock(sys.alu, key, bytes[vo..vo + 8]) + bytes[vo + 8..])
  {
    var alu, words := sys.alu, KeyWords(sys.alu, key);
    var block := BlockBytes(s.core.mem, vb)[vo..vo + 8];
    var p := ToPair(alu, block);
    KeyLoads(alu, s.core.mem, kb, ko, key);
    BlockLoads(alu, s.core.mem, vb, vo, block);
    t := DecryptEnter(sys, s0, s, p, vb, vo, kb, ko);
    var sums, pairs := DecryptTrace(alu, words, p);
    t := DecryptLoopRun(sys, s0, t, 0, sums, pairs, kb, ko, words);
    DecryptBack(alu);
    t := DecryptLeave(sys, s0, t, pairs(ROUNDS), vb, vo);
  }

  lemma DecryptTrace<W(!new)>(alu: Alu<W>, key: seq<W>, p: Pair<W>) returns (sums: nat -> W, pairs: nat -> Pair<W>)
    requires Arithmetic(alu) && Sentinels(alu) && |key| == 4
    ensures sums(0) == alu.final && pairs(0) == p
    ensures pairs(ROUNDS) == Decrypted(alu, key, ROUNDS, ROUNDS, p)
    ensures forall k :: 0 <= k < ROUNDS ==> DevelopsDown(alu, key, sums, pairs, k)
    ensures forall k :: 1 <= k <= ROUNDS ==> (sums(k) == alu.zero <==> k == ROUNDS)
  {
    sums := (n: nat) => if n <= ROUNDS then SumAfter(alu, ROUNDS - n) else alu.zero;
    pairs := (n: nat) => if n <= ROUNDS then Decrypted(alu, key, ROUNDS, n, p) else p;
    forall k | 0 <= k < ROUNDS
      ensures DevelopsDown(alu, key, sums, pairs, k)
    {
      DecryptDevelops(alu, key, p, k);
    }
  }

  lemma DecryptDevelops<W(!new)>(alu: Alu<W>, key: seq<W>, p: Pair<W>, k: nat)
    requires Arithmetic(alu) && |key| == 4 && k < ROUNDS
    ensures SumAfter(alu, ROUNDS - (k + 1)) == alu.sub(SumAfter(alu, ROUNDS - k), alu.delta)
    ensures Decrypted(alu, key, ROUNDS, k + 1, p)
         == DecryptRound(alu, key, SumAfter(alu, ROUNDS - k), Decrypted(alu, key, ROUNDS, k, p))
  {
    var m := ROUNDS - k;
    assert SumAfter(alu, m) == alu.add(SumAfter(alu, m - 1), alu.delta);
  }
}
