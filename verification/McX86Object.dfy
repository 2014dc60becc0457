/**
 A whole file for x86: the jumps that relaxation left short lead to their labels, from the bytes
 that stand in the file.
 */
module McX86Object {
  import opened McModel
  import opened McEager
  import opened McFixup
  import opened McPatch
  import opened McRelax
  import opened McAssembler
  import opened McWriter
  import opened McObject
  import opened McX86Fixup

  /** Fixup j of fragment k of section s is a jump to a label in its short form, a field of one byte of its own. */
  ghost predicate ShortJumpAt(env: Env, width: nat -> nat, lays: seq<seq<Laid>>, all: seq<seq<Shape>>, s: nat, k: nat,
                              j: nat, id: nat, constant: int)
  {
    && s < |all| && k < |all[s]| && LabelOffset(lays, Loc(s, k, 0)).Some?
    && var f := all[s][k];
       && f.Relaxable? && env.backend.mayNeedRelaxation(f.inst)
       && j < |f.fixups| && IsJump(env, s, f.fixups[j], id, constant)
       && width(f.fixups[j].kind) == 1 && ApartFromLater(width, f.fixups, j, |f.fixups|)
  }

  /** The byte standing at `field`, added to the pc, gives the address of the label. */
  predicate LeadsFrom(env: Env, lays: seq<seq<Laid>>, s: nat, k: nat, fixup: Fixup, id: nat, constant: int, field: int,
                      file: seq<Byte>)
    requires SymbolOf(env, id).Label? && LabelOffset(lays, Loc(s, k, 0)).Some?
  {
    && 0 <= field < |file|
    && Reaches(env, lays, fixup, id, constant, LabelOffset(lays, Loc(s, k, 0)).value, file[field..field + 1])
  }

  /** Where the field of fixup j stands in the file. */
  function FieldAt(env: Env, all: seq<seq<Shape>>, lays: seq<seq<Laid>>, images: seq<seq<Byte>>, before: seq<Byte>,
                   alignments: seq<nat>, s: nat, k: nat, j: nat): int
    requires s < |all| == |lays| == |images| <= |alignments| && AllPositive(alignments)
    requires k < |all[s]| && k < |lays[s]| && HasFixups(all[s][k]) && j < |all[s][k].fixups|
  {
    SectionStart(before, images, alignments, s) + lays[s][k].Offset() - env.base + all[s][k].fixups[j].offset
  }

  lemma JumpLeads(env: Env, width: nat -> nat, lays: seq<seq<Laid>>, relaxed: seq<seq<Shape>>, patched: seq<seq<Shape>>,
                  sizes: seq<seq<nat>>, images: seq<seq<Byte>>, before: seq<Byte>, alignments: seq<nat>, s: nat, k: nat,
                  j: nat, id: nat, constant: int, file: seq<Byte>)
    requires RelaxesLikeX86(env.backend) && AppliesLikeX86(env.backend, width) && AllPositive(alignments)
    requires |relaxed| == |patched| == |lays| == |images| == |sizes| <= |alignments|
    requires FilePatched(env, lays, relaxed, patched, |relaxed|)
    requires ShortJumpAt(env, width, lays, relaxed, s, k, j, id, constant)
    requires NoneNeeded(env, lays, s, relaxed[s], |relaxed[s]|)
    requires k < |patched[s]| && InPlace(env, patched, lays, sizes, images, before, alignments, s, k, file)
    ensures LeadsFrom(env, lays, s, k, relaxed[s][k].fixups[j], id, constant,
                      FieldAt(env, relaxed, lays, images, before, alignments, s, k, j), file)
  {
    assert SectionPatched(env, lays, s, relaxed[s], patched[s], |relaxed[s]|);
    assert Patched(env, lays, s, k, relaxed[s][k], patched[s][k]);
    ShortJumpInFile(env, width, lays, s, k, relaxed[s][k], patched[s][k], j, id, constant,
      LabelOffset(lays, Loc(s, k, 0)).value, sizes[s][k],
      SectionStart(before, images, alignments, s) + lays[s][k].Offset() - env.base, file);
  }

  /** Every short jump of the file does. */
  ghost predicate AllJumpsLead(env: Env, width: nat -> nat, lays: seq<seq<Laid>>, all: seq<seq<Shape>>,
                               images: seq<seq<Byte>>, before: seq<Byte>, alignments: seq<nat>, file: seq<Byte>)
    requires |all| == |lays| == |images| <= |alignments| && AllPositive(alignments)
  {
    forall s: nat, k: nat, j: nat, id: nat, constant ::
      ShortJumpAt(env, width, lays, all, s, k, j, id, constant) ==>
        LeadsFrom(env, lays, s, k, all[s][k].fixups[j], id, constant,
                  FieldAt(env, all, lays, images, before, alignments, s, k, j), file)
  }

  /** Every fragment of a file is in place. */
  ghost predicate AllInPlace(env: Env, all: seq<seq<Shape>>, lays: seq<seq<Laid>>, sizes: seq<seq<nat>>,
                             images: seq<seq<Byte>>, before: seq<Byte>, alignments: seq<nat>, file: seq<Byte>)
    requires |all| == |lays| == |images| == |sizes| <= |alignments| && AllPositive(alignments)
  {
    forall s, k :: 0 <= s < |all| && 0 <= k < |all[s]| ==>
      InPlace(env, all, lays, sizes, images, before, alignments, s, k, file)
  }

  lemma JumpsLead(env: Env, width: nat -> nat, lays: seq<seq<Laid>>, relaxed: seq<seq<Shape>>, patched: seq<seq<Shape>>,
                  sizes: seq<seq<nat>>, images: seq<seq<Byte>>, before: seq<Byte>, alignments: seq<nat>,
                  file: seq<Byte>)
    requires RelaxesLikeX86(env.backend) && AppliesLikeX86(env.backend, width) && AllPositive(alignments)
    requires |relaxed| == |patched| == |lays| == |images| == |sizes| <= |alignments|
    requires FilePatched(env, lays, relaxed, patched, |relaxed|)
    requires forall s :: 0 <= s < |relaxed| ==> NoneNeeded(env, lays, s, relaxed[s], |relaxed[s]|)
    requires AllInPlace(env, patched, lays, sizes, images, before, alignments, file)
    ensures AllJumpsLead(env, width, lays, relaxed, images, before, alignments, file)
  {
    forall s: nat, k: nat, j: nat, id: nat, constant | ShortJumpAt(env, width, lays, relaxed, s, k, j, id, constant)
      ensures LeadsFrom(env, lays, s, k, relaxed[s][k].fixups[j], id, constant,
                        FieldAt(env, relaxed, lays, images, before, alignments, s, k, j), file)
    {
      assert SectionPatched(env, lays, s, relaxed[s], patched[s], |relaxed[s]|);
      JumpLeads(env, width, lays, relaxed, patched, sizes, images, before, alignments, s, k, j, id, constant, file);
    }
  }

  lemma X86KeepsLength(backend: Backend, width: nat -> nat)
    requires AppliesLikeX86(backend, width)
    ensures FixupsKeepLength(backend)
  {
  }

  /**
   From any file to the bytes: once it is written, every jump left short leads to its label, from
   the byte that stands at its field.
   */
  method FinishX86(asm: MCAssembler, w: MCObjectWriter, alignments: seq<nat>, ghost rank: Inst -> nat,
                   ghost width: nat -> nat)
    returns (outcome: Outcome, ghost relaxed: seq<seq<Shape>>, ghost images: seq<seq<Byte>>)
    requires asm.Valid() && asm.Quiet() && RelaxationLowers(asm.env.backend, rank)
    requires asm.AllFit(asm.shapes) && asm.EncodingsFit()
    requires NopsExact(asm.env.backend)
    requires |alignments| == |asm.sections| && AllPositive(alignments)
    requires RelaxesLikeX86(asm.env.backend) && AppliesLikeX86(asm.env.backend, width)
    modifies asm`shapes, asm`put, asm`passed, asm`counts, asm`lays, asm`snug, asm.sections, asm.Fragments(), w
    ensures asm.Valid() && RelaxedFrom(asm.env.backend, old(asm.shapes), relaxed)
    ensures |relaxed| == |asm.sections| && forall s :: 0 <= s < |relaxed| ==> asm.lays[s] == Eager(asm.env, relaxed[s])
    ensures outcome.FileWritten? ==>
      && |relaxed| == |asm.lays| == |images| == |alignments| && w.out == Object(old(w.out), images, alignments)
      && AllJumpsLead(asm.env, width, asm.lays, relaxed, images, old(w.out), alignments, w.out)
  {
    X86KeepsLength(asm.env.backend, width);
    ghost var run, sizes;
    outcome, run, relaxed, sizes, images := Finish(asm, w, alignments, rank);
    if outcome.FileWritten? {
      JumpsLead(asm.env, width, asm.lays, relaxed, asm.shapes, sizes, images, old(w.out), alignments, w.out);
    }
  }
}
