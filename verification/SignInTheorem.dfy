/** The sign-in check on real 32-bit words: the client's listing and the server agree. */
module SignInTheorem {
  import opened SignInCipher
  import opened SignInMachine
  import opened SignInSteps
  import opened SignInWords
  import opened SignInListings
  import opened SignInValidators
  import opened SignInCompare

  /** The runs of the machine, as the relation the step lemmas work with. */
  ghost function Machine<W(!new)>(alu: Alu<W>, code: Code<W>): Sys<W> {
    Sys(alu, code, (s: State<W>, t: State<W>) => Reaches(alu, code, s, t))
  }

  lemma MachineRuns<W(!new)>(alu: Alu<W>, code: Code<W>)
    ensures Runs(Machine(alu, code))
  {
    var sys := Machine(alu, code);
    forall s, t
      ensures StepIsLater(sys, s, t)
    {
      if Step(alu, code, s) == Next(t) {
        ReachesStep(alu, code, s, t);
      }
    }
    forall s, t, u
      ensures LaterChains(sys, s, t, u)
    {
      if Reaches(alu, code, s, t) && Reaches(alu, code, t, u) {
        ReachesTrans(alu, code, s, t, u);
      }
    }
    forall s
      ensures sys.later(s, s)
    {
      ReachesSelf(alu, code, s);
    }
  }

  /** What the server makes of the answer on 32-bit words. */
  ghost function ServerSide(key: seq<bv8>, answer: seq<bv8>): seq<bv8>
    requires |key| == 16 && |answer| == 32
  {
    AluArithmetic();
    ServerTransform(ALU, key, answer)
  }

  /**
   Slot 13, called with any data, answer and key, returns after some number of steps, and
   AL is 1 exactly when the server, transforming the answer back, finds the data.
   */
  lemma ClientAgreesWithServer(code: Code<bv32>, s: State<bv32>, data: seq<bv8>, rest: seq<bv8>,
                               answer: seq<bv8>, key: seq<bv8>)
    returns (n: nat, t: State<bv32>)
    requires Loaded(Machine(ALU, code))
    requires s.at == Place(FLAG_SLOT, 0) && s.stack != [] && Prepared(s.core.mem, data, rest, answer, key)
    ensures Run(ALU, code, n, s) == Next(t)
    ensures t.at == s.stack[|s.stack| - 1] && t.stack == s.stack[..|s.stack| - 1]
    ensures t.core.regs.rax ==
            Val<bv32>.LowByte(if ServerSide(key, answer) == data then 1 else 0)
  {
    AluArithmetic();
    AluBytes();
    SumsMeetTheSentinelsLast();
    MachineRuns(ALU, code);
    t := ValidateListingRuns(Machine(ALU, code), s, data, rest, answer, key);
    ValidatorsAgree(ALU, key, data, answer);
    assert Reaches(ALU, code, s, t);
    n :| Run(ALU, code, n, s) == Next(t);
  }

  /** What `myencrypt` and `mydecrypt` make of a block, on 32-bit words. */
  ghost function MyEncrypted(key: seq<bv8>, block: seq<bv8>): seq<bv8>
    requires |key| == 16 && |block| == 8
  {
    AluArithmetic();
    EncryptBlock(ALU, key, block)
  }

  ghost function MyDecrypted(key: seq<bv8>, block: seq<bv8>): seq<bv8>
    requires |key| == 16 && |block| == 8
  {
    AluArithmetic();
    DecryptBlock(ALU, key, block)
  }

  /** At the first instruction of a listing, with the block at `v` and the key at `k`. */
  ghost predicate Called(code: Code<bv32>, s: State<bv32>, listing: seq<Instr<bv32>>, v: Ptr, k: Ptr, key: seq<bv8>) {
    && s.at.pc == 0 && s.at.slot in code && code[s.at.slot] == listing && s.stack != []
    && s.core.regs.rdi == Val<bv32>.Ptr(v.block, v.offset) && s.core.regs.rsi == Val<bv32>.Ptr(k.block, k.offset)
    && KeyBytes(s.core.mem, k.block, k.offset, key)
    && 0 <= v.offset && v.offset + 8 <= |BlockBytes(s.core.mem, v.block)|
  }

  /** Slot 11 ends, and has done to the block what `myencrypt` does, and nothing else. */
  lemma EncryptListingIsMyEncrypt(code: Code<bv32>, s: State<bv32>, v: Ptr, k: Ptr, key: seq<bv8>)
    returns (n: nat, t: State<bv32>)
    requires Called(code, s, EncryptListing(ALU), v, k, key)
    ensures Run(ALU, code, n, s) == Next(t) && Returned(s, t)
    ensures var bytes := BlockBytes(s.core.mem, v.block);
            t.core.mem == WithBlock(s.core.mem, v.block,
              bytes[..v.offset] + MyEncrypted(key, bytes[v.offset..v.offset + 8]) + bytes[v.offset + 8..])
  {
    AluArithmetic();
    AluBytes();
    SumsMeetTheSentinelsLast();
    MachineRuns(ALU, code);
    t := EncryptListingRuns(Machine(ALU, code), s, s, v.block, v.offset, k.block, k.offset, key);
    assert Reaches(ALU, code, s, t);
    n :| Run(ALU, code, n, s) == Next(t);
  }

  /** Slot 12 likewise is `mydecrypt`. */
  lemma DecryptListingIsMyDecrypt(code: Code<bv32>, s: State<bv32>, v: Ptr, k: Ptr, key: seq<bv8>)
    returns (n: nat, t: State<bv32>)
    requires Called(code, s, DecryptListing(ALU), v, k, key)
    ensures Run(ALU, code, n, s) == Next(t) && Returned(s, t)
    ensures var bytes := BlockBytes(s.core.mem, v.block);
            t.core.mem == WithBlock(s.core.mem, v.block,
              bytes[..v.offset] + MyDecrypted(key, bytes[v.offset..v.offset + 8]) + bytes[v.offset + 8..])
  {
    AluArithmetic();
    AluBytes();
    SumsMeetTheSentinelsLast();
    MachineRuns(ALU, code);
    t := DecryptListingRuns(Machine(ALU, code), s, s, v.block, v.offset, k.block, k.offset, key);
    assert Reaches(ALU, code, s, t);
    n :| Run(ALU, code, n, s) == Next(t);
  }
}
