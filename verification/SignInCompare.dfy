/**
 The listings of slots 401 and 13: the byte comparison, and the validation that calls the
 cipher four times and then the comparison.
 */
module SignInCompare {
  import opened SignInCipher
  import opened SignInMachine
  import opened SignInSteps
  import opened SignInListings
  import opened SignInValidators

  /** Slot 401: compare RCX bytes at RSI and RDI, result in AL. */
  function CompareListing<W>(): seq<Instr<W>> {
    [Cld, CmpSelf(RCX), RepeCmpsb, SetzAl, Ret]
  }

  const FLAG_SLOT: nat := 13
  const COMPARE_SLOT: nat := 401
  const ANSWER_AT: int := 0x700
  const KEY_AT: int := 0x800

  function CallCipher<W>(slot: nat, at: int): seq<Instr<W>> {
    [MovPtr(RAX, Elements, SLOT_SIZE * slot), MovPtr(RDI, Globals, at), MovPtr(RSI, Elements, KEY_AT), Call(RAX)]
  }

  function CallCompare<W>(): seq<Instr<W>> {
    [MovPtr(RDI, Elements, ANSWER_AT), MovPtr(RSI, Globals, 0), MovNumber(RCX, 32),
     MovPtr(RAX, Elements, SLOT_SIZE * COMPARE_SLOT), Call(RAX), Ret]
  }

  /** Slot 13: transform the four blocks of the data, compare them with the answer. */
  function ValidateListing<W>(): seq<Instr<W>> {
    CallCipher(11, 0) + CallCipher(11, 8) + CallCipher(12, 16) + CallCipher(12, 24) + CallCompare()
  }

  /** The client's slots after the server has loaded them. */
  predicate Loaded<W(==)>(sys: Sys<W>) {
    && Holds(sys, 11, EncryptListing(sys.alu))
    && Holds(sys, 12, DecryptListing(sys.alu))
    && Holds(sys, 13, ValidateListing())
    && Holds(sys, COMPARE_SLOT, CompareListing())
  }

  /** `n` bytes from `at` on. */
  function Piece(m: Mem, b: Block, at: int, n: nat): seq<bv8>
    requires 0 <= at && at + n <= |BlockBytes(m, b)|
  {
    BlockBytes(m, b)[at..at + n]
  }

  predicate InRange(m: Mem, b: Block, at: int, n: nat) {
    0 <= at && at + n <= |BlockBytes(m, b)|
  }

  /** At the repeated comparison of `n` bytes, with everything equal so far. */
  predicate AtCompare<W(==)>(s: State<W>, n: nat, x: Block, i: int, y: Block, j: int) {
    && s.at.pc == 2 && s.core.zf && !s.core.df
    && s.core.regs.rcx == Val<W>.Number(n)
    && s.core.regs.rsi == Val<W>.Ptr(x, i) && s.core.regs.rdi == Val<W>.Ptr(y, j)
    && InRange(s.core.mem, x, i, n) && InRange(s.core.mem, y, j, n)
  }

  lemma CompareOne<W(!new)>(sys: Sys<W>, s0: State<W>, s: State<W>, n: nat, x: Block, i: int, y: Block, j: int)
    returns (t: State<W>)
    requires Runs(sys) && sys.later(s0, s) && AtCompare(s, n, x, i, y, j)
    requires Holds(sys, s.at.slot, CompareListing())
    ensures sys.later(s0, t)
    ensures t.at.slot == s.at.slot && t.stack == s.stack && t.core.mem == s.core.mem && !t.core.df
    ensures n == 0 ==> t.at.pc == 3 && t.core.zf
    ensures n > 0 ==>
      var same := BlockBytes(s.core.mem, x)[i] == BlockBytes(s.core.mem, y)[j];
      if same && n > 1 then AtCompare(t, n - 1, x, i + 1, y, j + 1) else t.at.pc == 3 && t.core.zf == same
  {
    t := Step(sys.alu, sys.code, s).value;
    Further(sys, s0, s, t);
  }

  lemma FirstByte(a: seq<bv8>, b: seq<bv8>)
    requires |a| == |b| > 0
    ensures a == b <==> a[0] == b[0] && a[1..] == b[1..]
  {
    assert a == [a[0]] + a[1..] && b == [b[0]] + b[1..];
  }

  /** The repeated comparison ends with ZF set exactly when all bytes agree. */
  lemma {:induction false} CompareRun<W(!new)>(sys: Sys<W>, s0: State<W>, s: State<W>, n: nat,
                                               x: Block, i: int, y: Block, j: int)
    returns (t: State<W>)
    requires Runs(sys) && sys.later(s0, s) && AtCompare(s, n, x, i, y, j)
    requires Holds(sys, s.at.slot, CompareListing())
    ensures sys.later(s0, t)
    ensures t.at == Place(s.at.slot, 3) && t.stack == s.stack && t.core.mem == s.core.mem && !t.core.df
    ensures t.core.zf <==> Piece(s.core.mem, x, i, n) == Piece(s.core.mem, y, j, n)
    decreases n
  {
    t := CompareOne(sys, s0, s, n, x, i, y, j);
    if n > 0 {
      var a, b := Piece(s.core.mem, x, i, n), Piece(s.core.mem, y, j, n);
      FirstByte(a, b);
      assert a[0] == BlockBytes(s.core.mem, x)[i] && b[0] == BlockBytes(s.core.mem, y)[j];
      if a[0] == b[0] && n > 1 {
        t := CompareRun(sys, s0, t, n - 1, x, i + 1, y, j + 1);
        assert a[1..] == Piece(s.core.mem, x, i + 1, n - 1) && b[1..] == Piece(s.core.mem, y, j + 1, n - 1);
      }
    }
  }

  /** The whole comparison, from its first instruction to the return. */
  lemma CompareListingRuns<W(!new)>(sys: Sys<W>, s0: State<W>, s: State<W>, n: nat, x: Block, i: int, y: Block, j: int)
    returns (t: State<W>)
    requires Runs(sys) && sys.later(s0, s) && s.at.pc == 0 && s.stack != []
    requires Holds(sys, s.at.slot, CompareListing())
    requires s.core.regs.rcx == Val<W>.Number(n)
    requires s.core.regs.rsi == Val<W>.Ptr(x, i) && s.core.regs.rdi == Val<W>.Ptr(y, j)
    requires InRange(s.core.mem, x, i, n) && InRange(s.core.mem, y, j, n)
    ensures sys.later(s0, t) && t.at == s.stack[|s.stack| - 1] && t.stack == s.stack[..|s.stack| - 1]
    ensures t.core.mem == s.core.mem
    ensures t.core.regs.rax ==
            Val<W>.LowByte(if Piece(s.core.mem, x, i, n) == Piece(s.core.mem, y, j, n) then 1 else 0)
  {
    t := CompareStart(sys, s0, s);
    t := CompareRun(sys, s0, t, n, x, i, y, j);
    t := CompareEnd(sys, s0, t);
  }

  lemma CompareStart<W(!new)>(sys: Sys<W>, s0: State<W>, s: State<W>) returns (t: State<W>)
    requires Runs(sys) && sys.later(s0, s) && s.at.pc == 0 && Holds(sys, s.at.slot, CompareListing())
    ensures sys.later(s0, t) && t.at == Place(s.at.slot, 2) && t.stack == s.stack && t.core.mem == s.core.mem
    ensures t.core.regs == s.core.regs && t.core.zf && !t.core.df
  {
    var u := Step(sys.alu, sys.code, s).value;
    Further(sys, s0, s, u);
    t := Step(sys.alu, sys.code, u).value;
    Further(sys, s0, u, t);
  }

  lemma CompareEnd<W(!new)>(sys: Sys<W>, s0: State<W>, s: State<W>) returns (t: State<W>)
    requires Runs(sys) && sys.later(s0, s) && s.at.pc == 3 && Holds(sys, s.at.slot, CompareListing()) && s.stack != []
    ensures sys.later(s0, t) && t.at == s.stack[|s.stack| - 1] && t.stack == s.stack[..|s.stack| - 1]
    ensures t.core.mem == s.core.mem && t.core.regs.rax == Val<W>.LowByte(if s.core.zf then 1 else 0)
  {
    var u := Step(sys.alu, sys.code, s).value;
    Further(sys, s0, s, u);
    t := Step(sys.alu, sys.code, u).value;
    Further(sys, s0, u, t);
  }

  // The calls of slot 13.

  predicate CallCode<W(==)>(l: seq<Instr<W>>, pc: nat, slot: nat, at: int) {
    && |l| > pc + 3
    && l[pc] == Instr<W>.MovPtr(RAX, Elements, SLOT_SIZE * slot)
    && l[pc + 1] == Instr<W>.MovPtr(RDI, Globals, at)
    && l[pc + 2] == Instr<W>.MovPtr(RSI, Elements, KEY_AT)
    && l[pc + 3] == Instr<W>.Call(RAX)
  }

  predicate FinishCode<W(==)>(l: seq<Instr<W>>) {
    && |l| > 21
    && l[16] == Instr<W>.MovPtr(RDI, Elements, ANSWER_AT)
    && l[17] == Instr<W>.MovPtr(RSI, Globals, 0)
    && l[18] == Instr<W>.MovNumber(RCX, 32)
    && l[19] == Instr<W>.MovPtr(RAX, Elements, SLOT_SIZE * COMPARE_SLOT)
    && l[20] == Instr<W>.Call(RAX)
    && l[21] == Instr<W>.Ret
  }

  lemma ValidateParts<W>()
    ensures var l := ValidateListing<W>();
            && CallCode(l, 0, 11, 0) && CallCode(l, 4, 11, 8) && CallCode(l, 8, 12, 16) && CallCode(l, 12, 12, 24)
            && FinishCode(l)
  {
  }

  /** What slot 13 is found to hold: its calls of slot 11, those of slot 12, and the comparison. */
  lemma FrontCode<W>(sys: Sys<W>)
    requires Loaded(sys)
    ensures FLAG_SLOT in sys.code
    ensures CallCode(sys.code[FLAG_SLOT], 0, 11, 0) && CallCode(sys.code[FLAG_SLOT], 4, 11, 8)
  {
    ValidateParts<W>();
  }

  lemma BackCode<W>(sys: Sys<W>)
    requires Loaded(sys)
    ensures FLAG_SLOT in sys.code
    ensures CallCode(sys.code[FLAG_SLOT], 8, 12, 16) && CallCode(sys.code[FLAG_SLOT], 12, 12, 24)
  {
    ValidateParts<W>();
  }

  lemma EndCode<W>(sys: Sys<W>)
    requires Loaded(sys)
    ensures FLAG_SLOT in sys.code && FinishCode(sys.code[FLAG_SLOT]) && COMPARE_SLOT in sys.code
  {
    ValidateParts<W>();
  }

  /** Setting up the registers and calling a cipher slot. */
  lemma EnterCipher<W(!new)>(sys: Sys<W>, s0: State<W>, s: State<W>, slot: nat, at: int) returns (t: State<W>)
    requires Runs(sys) && sys.later(s0, s) && s.at.slot in sys.code
    requires CallCode(sys.code[s.at.slot], s.at.pc, slot, at)
    ensures sys.later(s0, t) && t.at == Place(slot, 0) && t.stack == s.stack + [Place(s.at.slot, s.at.pc + 4)]
    ensures t.core.mem == s.core.mem
    ensures t.core.regs.rdi == Val<W>.Ptr(Globals, at) && t.core.regs.rsi == Val<W>.Ptr(Elements, KEY_AT)
  {
    t := DoMovPtr(sys, s0, s, RAX, Elements, SLOT_SIZE * slot);
    t := DoMovPtr(sys, s0, t, RDI, Globals, at);
    t := DoMovPtr(sys, s0, t, RSI, Elements, KEY_AT);
    t := DoCall(sys, s0, t, RAX, slot);
  }

  /** The client's memory with the data in pieces. */
  predicate DataIs(m: Mem, done: seq<bv8>, block: seq<bv8>, rest: seq<bv8>) {
    m.globals == done + block + rest && |block| == 8
  }

  lemma CallEncrypt<W(!new)>(sys: Sys<W>, s0: State<W>, s: State<W>, key: seq<bv8>, f: seq<bv8> -> seq<bv8>,
                             done: seq<bv8>, block: seq<bv8>, rest: seq<bv8>)
    returns (t: State<W>)
    requires Runs(sys) && Arithmetic(sys.alu) && Bytes(sys.alu) && Sentinels(sys.alu) && Loaded(sys)
    requires sys.later(s0, s) && s.at.slot in sys.code && CallCode(sys.code[s.at.slot], s.at.pc, 11, |done|)
    requires KeyBytes(s.core.mem, Elements, KEY_AT, key) && Encrypts(sys.alu, key, f)
    requires DataIs(s.core.mem, done, block, rest)
    ensures sys.later(s0, t) && t.at == Place(s.at.slot, s.at.pc + 4) && t.stack == s.stack
    ensures t.core.mem == Mem(done + f(block) + rest, s.core.mem.elements)
  {
    var at := |done|;
    assert s.core.mem.globals[at..at + 8] == block && s.core.mem.globals[..at] == done;
    assert s.core.mem.globals[at + 8..] == rest;
    t := EnterCipher(sys, s0, s, 11, at);
    t := EncryptListingRuns(sys, s0, t, Globals, at, Elements, KEY_AT, key);
  }

  lemma CallDecrypt<W(!new)>(sys: Sys<W>, s0: State<W>, s: State<W>, key: seq<bv8>, g: seq<bv8> -> seq<bv8>,
                             done: seq<bv8>, block: seq<bv8>, rest: seq<bv8>)
    returns (t: State<W>)
    requires Runs(sys) && Arithmetic(sys.alu) && Bytes(sys.alu) && Sentinels(sys.alu) && Loaded(sys)
    requires sys.later(s0, s) && s.at.slot in sys.code && CallCode(sys.code[s.at.slot], s.at.pc, 12, |done|)
    requires KeyBytes(s.core.mem, Elements, KEY_AT, key) && Decrypts(sys.alu, key, g)
    requires DataIs(s.core.mem, done, block, rest)
    ensures sys.later(s0, t) && t.at == Place(s.at.slot, s.at.pc + 4) && t.stack == s.stack
    ensures t.core.mem == Mem(done + g(block) + rest, s.core.mem.elements)
  {
    var at := |done|;
    assert s.core.mem.globals[at..at + 8] == block && s.core.mem.globals[..at] == done;
    assert s.core.mem.globals[at + 8..] == rest;
    t := EnterCipher(sys, s0, s, 12, at);
    t := DecryptListingRuns(sys, s0, t, Globals, at, Elements, KEY_AT, key);
  }

  /** What slot 13 finds in memory: data in the global buffer, answer and key in slots 7 and 8. */
  predicate Prepared(m: Mem, data: seq<bv8>, rest: seq<bv8>, answer: seq<bv8>, key: seq<bv8>) {
    && |data| == 32 && m.globals == data + rest
    && |answer| == 32 && InRange(m, Elements, ANSWER_AT, 32) && Piece(m, Elements, ANSWER_AT, 32) == answer
    && KeyBytes(m, Elements, KEY_AT, key)
  }

  lemma Assoc(x: seq<bv8>, y: seq<bv8>, z: seq<bv8>)
    ensures x + y + z == x + (y + z)
  {
  }

  lemma EncryptTwoRuns<W(!new)>(sys: Sys<W>, s0: State<W>, s: State<W>, key: seq<bv8>, f: seq<bv8> -> seq<bv8>,
                                done: seq<bv8>, a: seq<bv8>, b: seq<bv8>, rest: seq<bv8>)
    returns (t: State<W>)
    requires Runs(sys) && Arithmetic(sys.alu) && Bytes(sys.alu) && Sentinels(sys.alu) && Loaded(sys)
    requires sys.later(s0, s) && s.at == Place(FLAG_SLOT, 0)
    requires KeyBytes(s.core.mem, Elements, KEY_AT, key) && Encrypts(sys.alu, key, f)
    requires s.core.mem.globals == done + a + b + rest && |done| == 0 && |a| == |b| == |f(a)| == 8
    ensures sys.later(s0, t) && t.at == Place(FLAG_SLOT, 8) && t.stack == s.stack
    ensures t.core.mem == Mem(done + f(a) + f(b) + rest, s.core.mem.elements)
  {
    FrontCode(sys);
    Assoc(done + a, b, rest);
    t := CallEncrypt(sys, s0, s, key, f, done, a, b + rest);
    Assoc(done + f(a), b, rest);
    t := CallEncrypt(sys, s0, t, key, f, done + f(a), b, rest);
  }

  lemma DecryptTwoRuns<W(!new)>(sys: Sys<W>, s0: State<W>, s: State<W>, key: seq<bv8>, g: seq<bv8> -> seq<bv8>,
                                done: seq<bv8>, a: seq<bv8>, b: seq<bv8>, rest: seq<bv8>)
    returns (t: State<W>)
    requires Runs(sys) && Arithmetic(sys.alu) && Bytes(sys.alu) && Sentinels(sys.alu) && Loaded(sys)
    requires sys.later(s0, s) && s.at == Place(FLAG_SLOT, 8)
    requires KeyBytes(s.core.mem, Elements, KEY_AT, key) && Decrypts(sys.alu, key, g)
    requires s.core.mem.globals == done + a + b + rest && |done| == 16 && |a| == |b| == |g(a)| == 8
    ensures sys.later(s0, t) && t.at == Place(FLAG_SLOT, 16) && t.stack == s.stack
    ensures t.core.mem == Mem(done + g(a) + g(b) + rest, s.core.mem.elements)
  {
    BackCode(sys);
    Assoc(done + a, b, rest);
    t := CallDecrypt(sys, s0, s, key, g, done, a, b + rest);
    Assoc(done + g(a), b, rest);
    t := CallDecrypt(sys, s0, t, key, g, done + g(a), b, rest);
  }

  /** The global buffer as the two pairs of calls see it. */
  lemma DataInPieces(data: seq<bv8>, rest: seq<bv8>, a: seq<bv8>, b: seq<bv8>, c: seq<bv8>, d: seq<bv8>)
    requires data == a + b + (c + d)
    ensures data + rest == [] + a + b + (c + d + rest)
  {
  }

  lemma MiddleInPieces(x: seq<bv8>, y: seq<bv8>, c: seq<bv8>, d: seq<bv8>, rest: seq<bv8>)
    ensures [] + x + y + (c + d + rest) == (x + y) + c + d + rest
  {
  }

  /** Setting up the registers and calling the comparison. */
  lemma EnterCompare<W(!new)>(sys: Sys<W>, s0: State<W>, s: State<W>) returns (t: State<W>)
    requires Runs(sys) && sys.later(s0, s) && s.at == Place(FLAG_SLOT, 16)
    requires FLAG_SLOT in sys.code && FinishCode(sys.code[FLAG_SLOT]) && COMPARE_SLOT in sys.code
    ensures sys.later(s0, t) && t.at == Place(COMPARE_SLOT, 0) && t.stack == s.stack + [Place(FLAG_SLOT, 21)]
    ensures t.core.mem == s.core.mem && t.core.regs.rcx == Val<W>.Number(32)
    ensures t.core.regs.rsi == Val<W>.Ptr(Globals, 0) && t.core.regs.rdi == Val<W>.Ptr(Elements, ANSWER_AT)
  {
    t := DoMovPtr(sys, s0, s, RDI, Elements, ANSWER_AT);
    t := DoMovPtr(sys, s0, t, RSI, Globals, 0);
    t := DoMovNumber(sys, s0, t, RCX, 32);
    t := DoMovPtr(sys, s0, t, RAX, Elements, SLOT_SIZE * COMPARE_SLOT);
    t := DoCall(sys, s0, t, RAX, COMPARE_SLOT);
  }

  /** The last part: the transformed data is compared with the answer. */
  lemma FinishRuns<W(!new)>(sys: Sys<W>, s0: State<W>, s: State<W>, data: seq<bv8>, rest: seq<bv8>,
                            answer: seq<bv8>, key: seq<bv8>)
    returns (t: State<W>)
    requires Runs(sys) && Loaded(sys) && sys.later(s0, s) && s.at == Place(FLAG_SLOT, 16) && s.stack != []
    requires Prepared(s.core.mem, data, rest, answer, key)
    ensures sys.later(s0, t) && t.at == s.stack[|s.stack| - 1] && t.stack == s.stack[..|s.stack| - 1]
    ensures t.core.regs.rax == Val<W>.LowByte(if answer == data then 1 else 0)
  {
    EndCode(sys);
    t := EnterCompare(sys, s0, s);
    assert Piece(t.core.mem, Globals, 0, 32) == data;
    t := CompareListingRuns(sys, s0, t, 32, Globals, 0, Elements, ANSWER_AT);
    t := DoRet(sys, s0, t);
  }

  /** Slot 13 leaves 1 in AL exactly when the transformed data is the answer. */
  lemma ValidateListingRuns<W(!new)>(sys: Sys<W>, s: State<W>, data: seq<bv8>, rest: seq<bv8>,
                                     answer: seq<bv8>, key: seq<bv8>)
    returns (t: State<W>)
    requires Runs(sys) && Arithmetic(sys.alu) && Bytes(sys.alu) && Sentinels(sys.alu) && Loaded(sys)
    requires s.at == Place(FLAG_SLOT, 0) && s.stack != [] && Prepared(s.core.mem, data, rest, answer, key)
    ensures sys.later(s, t) && t.at == s.stack[|s.stack| - 1] && t.stack == s.stack[..|s.stack| - 1]
    ensures t.core.regs.rax ==
            Val<W>.LowByte(if answer == ClientTransform(sys.alu, key, data) then 1 else 0)
  {
    var f, g := CipherFunctions(sys.alu, key, data);
    var a, b, c, d := Quarters(f, g, data);
    assert Inverts(f, g, a) && Inverts(f, g, b) && Inverts(g, f, c) && Inverts(g, f, d);
    DataInPieces(data, rest, a, b, c, d);
    t := EncryptTwoRuns(sys, s, s, key, f, [], a, b, c + d + rest);
    MiddleInPieces(f(a), f(b), c, d, rest);
    t := DecryptTwoRuns(sys, s, t, key, g, f(a) + f(b), c, d, rest);
    t := FinishRuns(sys, s, t, OnBlocks(f, g, data), rest, answer, key);
  }
}
