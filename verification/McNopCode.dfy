/**
 Why the bytes the nop writer puts out do nothing: each run of them is an instruction of the 32-bit
 and 64-bit x86 encoding that has no effect, by its opcode and operand bytes.
 */
module McNopCode {
  import opened McModel
  import opened McImage
  import opened McNops

  /** How many bytes a memory operand has from its ModRM byte on; `sib` is the byte after that. */
  function OperandLength(modrm: Byte, sib: Byte): nat {
    var mode, rm := modrm / 64, modrm % 8;
    1 + (if rm == 4 then 1 else 0)
    + (if mode == 1 then 1
       else if mode == 2 || rm == 5 || (rm == 4 && sib % 8 == 5) then 4
       else 0)
  }

  /** The bytes from a ModRM byte on are exactly a memory operand. */
  predicate IsMemory(b: seq<Byte>) {
    |b| > 0 && b[0] / 64 < 3 && |b| == OperandLength(b[0], if |b| > 1 then b[1] else 0)
  }

  /** The register that a base-only operand is based on, in its ModRM byte or in the SIB byte without an index. */
  function BaseOf(modrm: Byte, sib: Byte): nat {
    if modrm % 8 != 4 then modrm % 8 else if sib / 8 == 4 then sib % 8 else 8
  }

  /** LEA of a register from itself, with a displacement of 0. */
  predicate LoadsItself(b: seq<Byte>) {
    && IsMemory(b) && 1 <= b[0] / 64 <= 2
    && b[0] / 8 % 8 == BaseOf(b[0], if |b| > 1 then b[1] else 0)
    && forall i :: (if b[0] % 8 == 4 then 2 else 1) <= i < |b| ==> b[i] == 0
  }

  /** One instruction without effect: XCHG of the accumulator, the long NOP, or such a LEA; 66 and 2E are prefixes. */
  predicate IsNop(b: seq<Byte>) {
    |b| > 0 &&
    (|| ((b[0] == 0x66 || b[0] == 0x2E) && IsNop(b[1..]))
     || b == [0x90]
     || (|b| > 2 && b[0] == 0x0F && b[1] == 0x1F && b[2] / 8 % 8 == 0 && IsMemory(b[2..]))
     || (b[0] == 0x8D && LoadsItself(b[1..])))
  }

  /** Such instructions one after the other. */
  ghost predicate AllNops(b: seq<Byte>)
    decreases |b|
  {
    b == [] || exists n :: 0 < n <= |b| && IsNop(b[..n]) && AllNops(b[n..])
  }

  lemma ShortNops()
    ensures IsNop(TRUE_NOPS[0]) && IsNop(TRUE_NOPS[1]) && IsNop(TRUE_NOPS[2]) && IsNop(TRUE_NOPS[3])
  {
    assert [0x66, 0x90][1..] == [0x90];
    assert [0x0f, 0x1f, 0x00][2..] == [0x00] && [0x0f, 0x1f, 0x40, 0x00][2..] == [0x40, 0x00];
  }

  lemma MiddleNops()
    ensures IsNop(TRUE_NOPS[4]) && IsNop(TRUE_NOPS[5]) && IsNop(TRUE_NOPS[6]) && IsNop(TRUE_NOPS[7])
  {
    var five: seq<Byte> := [0x0f, 0x1f, 0x44, 0x00, 0x00];
    assert five[2..] == [0x44, 0x00, 0x00];
    assert TRUE_NOPS[5][1..] == five;
    assert TRUE_NOPS[6][2..] == [0x80, 0x00, 0x00, 0x00, 0x00];
    assert TRUE_NOPS[7][2..] == [0x84, 0x00, 0x00, 0x00, 0x00, 0x00];
  }

  lemma LongNops()
    ensures IsNop(TRUE_NOPS[8]) && IsNop(TRUE_NOPS[9])
  {
    MiddleNops();
    assert TRUE_NOPS[8][1..] == TRUE_NOPS[7];
    assert TRUE_NOPS[9][1..][1..] == TRUE_NOPS[7] && TRUE_NOPS[9][1..][0] == 0x2E;
  }

  lemma OldNops()
    ensures IsNop(ALT_NOPS[0]) && IsNop(ALT_NOPS[1]) && IsNop(ALT_NOPS[2]) && IsNop(ALT_NOPS[3])
    ensures ALT_NOPS[4] == ALT_NOPS[0] + ALT_NOPS[3] && IsNop(ALT_NOPS[5]) && IsNop(ALT_NOPS[6])
  {
    assert [0x66, 0x90][1..] == [0x90];
    assert ALT_NOPS[2][1..] == [0x76, 0x00] && ALT_NOPS[3][1..] == [0x74, 0x26, 0x00];
    assert ALT_NOPS[5][1..] == [0xb6, 0x00, 0x00, 0x00, 0x00];
    assert ALT_NOPS[6][1..] == [0xb4, 0x26, 0x00, 0x00, 0x00, 0x00];
  }

  lemma {:induction false} PrefixedNop(prefixes: nat, b: seq<Byte>)
    requires IsNop(b)
    ensures IsNop(Repeat([0x66], prefixes) + b)
  {
    if prefixes == 0 {
      assert Repeat([0x66], 0) + b == b;
    } else {
      var more := Repeat([0x66], prefixes) + b;
      PrefixedNop(prefixes - 1, b);
      assert more[0] == 0x66 && more[1..] == Repeat([0x66], prefixes - 1) + b by {
        forall i | 0 <= i < |more| - 1
          ensures more[1..][i] == (Repeat([0x66], prefixes - 1) + b)[i]
        {
        }
      }
    }
  }

  lemma OneNop(b: seq<Byte>, rest: seq<Byte>)
    requires IsNop(b) && AllNops(rest)
    ensures AllNops(b + rest)
  {
    var all := b + rest;
    assert all[..|b|] == b && all[|b|..] == rest;
  }

  lemma LongTable(i: nat)
    requires i < 10
    ensures IsNop(TRUE_NOPS[i])
  {
    ShortNops();
    MiddleNops();
    LongNops();
  }

  lemma OldEntry(i: nat)
    requires i < 7 && i != 4
    ensures IsNop(ALT_NOPS[i])
  {
    OldNops();
  }

  lemma TwoNops(a: seq<Byte>, b: seq<Byte>, rest: seq<Byte>)
    requires IsNop(a) && IsNop(b) && AllNops(rest)
    ensures AllNops((a + b) + rest)
  {
    OneNop(b, rest);
    OneNop(a, b + rest);
    Regroup(a, b, rest);
  }

  /** The entry of five bytes is two instructions. */
  lemma FiveBytes() returns (a: seq<Byte>, b: seq<Byte>)
    ensures IsNop(a) && IsNop(b) && ALT_NOPS[4] == a + b
  {
    OldNops();
    a, b := ALT_NOPS[0], ALT_NOPS[3];
  }

  lemma OldTable(i: nat, rest: seq<Byte>)
    requires i < 7 && AllNops(rest)
    ensures AllNops(ALT_NOPS[i] + rest)
  {
    if i == 4 {
      var a, b := FiveBytes();
      TwoNops(a, b, rest);
    } else {
      OldEntry(i);
      OneNop(ALT_NOPS[i], rest);
    }
  }

  /** A nop of the writer is an instruction without effect, or two of them. */
  lemma NopIsNop(hasNopl: bool, length: nat, rest: seq<Byte>)
    requires 1 <= length <= LongestNop(hasNopl) && AllNops(rest)
    ensures AllNops(Nop(hasNopl, length) + rest)
  {
    var prefixes := if length <= 10 then 0 else length - 10;
    var i := length - prefixes - 1;
    if hasNopl {
      LongTable(i);
      PrefixedNop(prefixes, TRUE_NOPS[i]);
      OneNop(Nop(hasNopl, length), rest);
    } else {
      OldTable(i, rest);
      assert Nop(hasNopl, length) == ALT_NOPS[i];
    }
  }

  /** What the x86 nop writer writes does nothing. */
  lemma {:induction false} SequenceDoesNothing(hasNopl: bool, count: nat, longest: nat)
    requires 1 <= longest <= LongestNop(hasNopl)
    ensures AllNops(NopSequence(hasNopl, count, longest))
    decreases count
  {
    if 0 < count <= longest {
      NopIsNop(hasNopl, count, []);
      assert Nop(hasNopl, count) + [] == Nop(hasNopl, count);
    } else if count > longest {
      SequenceDoesNothing(hasNopl, count - longest, longest);
      NopIsNop(hasNopl, longest, NopSequence(hasNopl, count - longest, longest));
    }
  }
}
