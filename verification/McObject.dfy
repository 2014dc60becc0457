/**
 The whole of a file: layout to the fixpoint, and then every section written after zeros
 that bring it to its alignment.
 */
module McObject {
  import opened McModel
  import opened McEager
  import opened McFixup
  import opened McImage
  import opened McPatch
  import opened McRelax
  import opened McAssembler
  import opened McTrace
  import opened McWriter

  predicate AllPositive(alignments: seq<nat>) {
    forall s :: 0 <= s < |alignments| ==> alignments[s] > 0
  }

  /** The file once the images of some sections have followed `before`. */
  function Object(before: seq<Byte>, images: seq<seq<Byte>>, alignments: seq<nat>): (bytes: seq<Byte>)
    requires |images| <= |alignments| && AllPositive(alignments)
    decreases |images|
  {
    if images == [] then before
    else
      var n := |images| - 1;
      var rest := Object(before, images[..n], alignments);
      rest + Repeat([0], OffsetToAlignment(|rest|, alignments[n])) + images[n]
  }

  /** Where section s starts in the file. */
  function SectionStart(before: seq<Byte>, images: seq<seq<Byte>>, alignments: seq<nat>, s: nat): nat
    requires s < |images| <= |alignments| && AllPositive(alignments)
  {
    var end := |Object(before, images[..s], alignments)|;
    end + OffsetToAlignment(end, alignments[s])
  }

  /** Every section starts at a multiple of its alignment. */
  lemma SectionAligned(before: seq<Byte>, images: seq<seq<Byte>>, alignments: seq<nat>, s: nat)
    requires s < |images| <= |alignments| && AllPositive(alignments)
    ensures SectionStart(before, images, alignments, s) % alignments[s] == 0
  {
    AlignmentRoundsUp(|Object(before, images[..s], alignments)|, alignments[s]);
  }

  /** `part` stands in the file at `start`. */
  predicate Contains(file: seq<Byte>, start: nat, part: seq<Byte>) {
    start + |part| <= |file| && file[start..start + |part|] == part
  }

  /** The image of every section stands at its start. */
  lemma {:induction false} SectionStands(before: seq<Byte>, images: seq<seq<Byte>>, alignments: seq<nat>, s: nat)
    requires s < |images| <= |alignments| && AllPositive(alignments)
    ensures Contains(Object(before, images, alignments), SectionStart(before, images, alignments, s), images[s])
    decreases |images|
  {
    var n := |images| - 1;
    var file, rest := Object(before, images, alignments), Object(before, images[..n], alignments);
    var start := SectionStart(before, images, alignments, s);
    if s < n {
      SectionStands(before, images[..n], alignments, s);
      assert images[..n][..s] == images[..s];
      assert rest <= file;
      assert file[start..start + |images[s]|] == rest[start..start + |images[s]|];
    } else {
      RepeatLength([0], OffsetToAlignment(|rest|, alignments[n]));
      assert file[start..start + |images[s]|] == images[s];
    }
  }

  /** The images are those of the sections of the file. */
  ghost predicate AreImages(env: Env, all: seq<seq<Shape>>, lays: seq<seq<Laid>>, sizes: seq<seq<nat>>,
                            images: seq<seq<Byte>>)
  {
    && |all| == |lays| && |images| == |sizes| <= |all|
    && forall s :: 0 <= s < |images| ==> IsImage(env, all[s], lays[s], sizes[s], images[s])
  }

  ghost predicate IsImage(env: Env, fs: seq<Shape>, laid: seq<Laid>, sizes: seq<nat>, image: seq<Byte>) {
    PartWritten(env, fs, laid, sizes, |fs|, image)
  }

  /** Every fragment stands in the image of its section where the layout puts it. */
  ghost predicate AllStandIn(env: Env, fs: seq<Shape>, laid: seq<Laid>, sizes: seq<nat>, image: seq<Byte>) {
    |sizes| == |laid| == |fs| && forall k :: 0 <= k < |fs| ==>
      StandsAt(env.backend, fs[k], sizes[k], laid[k].Offset() - env.base, image)
  }

  /**
   In a file written from its layout, the contents of fragment k of section s stand at the
   start of the section plus the offset of the fragment less the base address.
   */
  lemma FragmentStands(env: Env, fs: seq<Shape>, laid: seq<Laid>, sizes: seq<nat>, images: seq<seq<Byte>>,
                       before: seq<Byte>, alignments: seq<nat>, s: nat, k: nat)
    requires AllPositive(alignments) && s < |images| <= |alignments| && k < |fs|
    requires AllStandIn(env, fs, laid, sizes, images[s])
    ensures StandsAt(env.backend, fs[k], sizes[k],
                     SectionStart(before, images, alignments, s) + laid[k].Offset() - env.base,
                     Object(before, images, alignments))
  {
    SectionStands(before, images, alignments, s);
    ImageStands(env.backend, fs[k], sizes[k], laid[k].Offset(), env.base, images[s],
      SectionStart(before, images, alignments, s), Object(before, images, alignments));
  }

  lemma ImageSound(env: Env, fs: seq<Shape>, laid: seq<Laid>, sizes: seq<nat>, image: seq<Byte>)
    requires NopsExact(env.backend) && AllLookBack(fs) && laid == Eager(env, fs) && fs != []
    requires IsImage(env, fs, laid, sizes, image) && AllSound(fs)
    requires forall k :: 0 <= k < |fs| ==> FitsBundle(env, fs[k])
    ensures AllStandIn(env, fs, laid, sizes, image)
  {
    EmissionMatchesLayout(env, fs, laid, sizes, image);
  }

  lemma ImageStands(backend: Backend, f: Shape, size: nat, offset: nat, base: nat, image: seq<Byte>, start: nat,
                    file: seq<Byte>)
    requires StandsAt(backend, f, size, offset - base, image) && Contains(file, start, image)
    ensures StandsAt(backend, f, size, start + offset - base, file)
  {
    StandsInside(backend, f, size, offset - base, image, start, file);
  }

  /** What stands somewhere in a part of the file stands in the file. */
  lemma StandsInside(backend: Backend, f: Shape, size: nat, at: int, part: seq<Byte>, start: nat, file: seq<Byte>)
    requires StandsAt(backend, f, size, at, part)
    requires Contains(file, start, part)
    ensures StandsAt(backend, f, size, start + at, file)
  {
    SliceOfSlice(file, start, start + |part|, at, at + size);
  }

  /** Every section is laid out as far as it goes, and can be written. */
  ghost predicate AllReady(asm: MCAssembler)
    reads asm, asm.sections, asm.Fragments()
  {
    && asm.Valid() && asm.Quiet() && asm.AllFit(asm.shapes)
    && (forall s :: 0 <= s < |asm.sections| ==> asm.counts[s] == |asm.lays[s]|)
  }

  lemma SectionReady(asm: MCAssembler, s: nat)
    requires AllReady(asm) && s < |asm.sections|
    ensures MCObjectWriter.Ready(asm.sections[s])
    ensures asm.sections[s].laid == asm.lays[s] && asm.sections[s].shapes == asm.shapes[s]
    ensures asm.sections[s].env == asm.env
  {
    assert asm.SectionOk(s);
  }

  /** Zeros up to the next multiple of the alignment. */
  method AlignOutput(w: MCObjectWriter, alignment: nat)
    requires alignment > 0
    modifies w`out
    ensures w.out == old(w.out) + Repeat([0], OffsetToAlignment(|old(w.out)|, alignment))
  {
    w.WriteRepeated([0], OffsetToAlignment(|w.out|, alignment));
  }

  method WriteContents(asm: MCAssembler, w: MCObjectWriter, s: nat)
    returns (ok: bool, ghost sizes: seq<nat>, ghost image: seq<Byte>)
    requires AllReady(asm) && s < |asm.sections|
    modifies w, asm.sections`lastValid, asm.Fragments()`offset, asm.Fragments()`bundlePadding
    ensures AllReady(asm)
    ensures !ok || w.error ==> Unwritable(asm.env, asm.shapes[s], asm.lays[s])
    ensures ok && !w.error ==>
      IsImage(asm.env, asm.shapes[s], asm.lays[s], sizes, image) && w.out == old(w.out) + image
  {
    SectionReady(asm, s);
    ok, sizes, image := w.WriteSectionData(asm.sections[s]);
    asm.OthersOk(s);
  }

  /** Aligns the file and writes section s. */
  method WriteSection(asm: MCAssembler, w: MCObjectWriter, s: nat, alignment: nat)
    returns (ok: bool, ghost sizes: seq<nat>, ghost image: seq<Byte>)
    requires AllReady(asm) && s < |asm.sections| && alignment > 0
    modifies w, asm.sections`lastValid, asm.Fragments()`offset, asm.Fragments()`bundlePadding
    ensures AllReady(asm)
    ensures !ok || w.error ==> Unwritable(asm.env, asm.shapes[s], asm.lays[s])
    ensures ok && !w.error ==>
      && IsImage(asm.env, asm.shapes[s], asm.lays[s], sizes, image)
      && w.out == old(w.out) + Repeat([0], OffsetToAlignment(|old(w.out)|, alignment)) + image
  {
    AlignOutput(w, alignment);
    ok, sizes, image := WriteContents(asm, w, s);
  }

  lemma OneMoreSection(env: Env, all: seq<seq<Shape>>, lays: seq<seq<Laid>>, sizes: seq<seq<nat>>,
                       images: seq<seq<Byte>>, size: seq<nat>, image: seq<Byte>, before: seq<Byte>,
                       alignments: seq<nat>)
    requires AreImages(env, all, lays, sizes, images) && |images| < |all| == |alignments| && AllPositive(alignments)
    requires IsImage(env, all[|images|], lays[|images|], size, image)
    ensures AreImages(env, all, lays, sizes + [size], images + [image])
    ensures var rest := Object(before, images, alignments);
            Object(before, images + [image], alignments)
            == rest + Repeat([0], OffsetToAlignment(|rest|, alignments[|images|])) + image
  {
    assert (images + [image])[..|images|] == images;
  }

  /** The sections one after the other, up to the first that cannot be written. */
  method WriteObject(asm: MCAssembler, w: MCObjectWriter, alignments: seq<nat>)
    returns (ok: bool, ghost sizes: seq<seq<nat>>, ghost images: seq<seq<Byte>>)
    requires AllReady(asm) && |alignments| == |asm.sections|
    requires AllPositive(alignments)
    modifies w, asm.sections`lastValid, asm.Fragments()`offset, asm.Fragments()`bundlePadding
    ensures AllReady(asm)
    ensures AreImages(asm.env, asm.shapes, asm.lays, sizes, images)
    ensures ok ==> |images| == |asm.sections| && w.out == Object(old(w.out), images, alignments)
    ensures !ok ==> |images| < |asm.sections| &&
                    Unwritable(asm.env, asm.shapes[|images|], asm.lays[|images|])
  {
    sizes, images := [], [];
    var s := 0;
    while s < |asm.sections|
      invariant 0 <= s <= |asm.sections| && |images| == s
      invariant AllReady(asm) && AreImages(asm.env, asm.shapes, asm.lays, sizes, images)
      invariant w.out == Object(old(w.out), images, alignments)
    {
      ghost var size, image;
      ok, size, image := WriteSection(asm, w, s, alignments[s]);
      if !ok || w.error {
        return false, sizes, images;
      }
      OneMoreSection(asm.env, asm.shapes, asm.lays, sizes, images, size, image, old(w.out), alignments);
      sizes, images := sizes + [size], images + [image];
      s := s + 1;
    }
    ok := true;
  }

  /** Fragment k of section s is where the layout puts it. */
  ghost predicate InPlace(env: Env, all: seq<seq<Shape>>, lays: seq<seq<Laid>>, sizes: seq<seq<nat>>,
                          images: seq<seq<Byte>>, before: seq<Byte>, alignments: seq<nat>, s: nat, k: nat,
                          file: seq<Byte>)
    requires |all| == |lays| == |images| == |sizes| <= |alignments| && AllPositive(alignments)
    requires s < |all| && k < |all[s]|
  {
    && k < |lays[s]| && k < |sizes[s]|
    && StandsAt(env.backend, all[s][k], sizes[s][k],
                SectionStart(before, images, alignments, s) + lays[s][k].Offset() - env.base, file)
  }

  lemma SectionSound(asm: MCAssembler, sizes: seq<seq<nat>>, images: seq<seq<Byte>>, s: nat)
    requires asm.Valid() && asm.AllFit(asm.shapes) && NopsExact(asm.env.backend)
    requires AreImages(asm.env, asm.shapes, asm.lays, sizes, images) && s < |images| == |asm.sections|
    requires asm.shapes[s] != []
    requires asm.lays[s] == Eager(asm.env, asm.shapes[s])
    ensures AllStandIn(asm.env, asm.shapes[s], asm.lays[s], sizes[s], images[s])
  {
    assert asm.SectionOk(s) && IsImage(asm.env, asm.shapes[s], asm.lays[s], sizes[s], images[s]);
    ImageSound(asm.env, asm.shapes[s], asm.lays[s], sizes[s], images[s]);
  }

  lemma AllStand(env: Env, all: seq<seq<Shape>>, lays: seq<seq<Laid>>, sizes: seq<seq<nat>>,
                 images: seq<seq<Byte>>, before: seq<Byte>, alignments: seq<nat>, s: nat, k: nat)
    requires |all| == |lays| == |images| == |sizes| == |alignments| && AllPositive(alignments)
    requires s < |all| && k < |all[s]| && AllStandIn(env, all[s], lays[s], sizes[s], images[s])
    ensures InPlace(env, all, lays, sizes, images, before, alignments, s, k, Object(before, images, alignments))
  {
    FragmentStands(env, all[s], lays[s], sizes[s], images, before, alignments, s, k);
  }

  /** Every section is its eager layout still, and can be written. */
  lemma StillReady(asm: MCAssembler)
    requires asm.Valid() && asm.Complete()
    ensures AllReady(asm)
    ensures forall s :: 0 <= s < |asm.sections| ==>
      asm.lays[s] == Eager(asm.env, asm.shapes[s]) && |asm.shapes[s]| == |asm.sections[s].fragments|
  {
    forall s | 0 <= s < |asm.sections|
      ensures asm.lays[s] == Eager(asm.env, asm.shapes[s]) && asm.sections[s].Fits()
      ensures asm.shapes[s] == asm.sections[s].shapes && |asm.shapes[s]| == |asm.sections[s].fragments|
    {
      assert asm.SectionOk(s);
      asm.FinishedSection(s);
    }
  }

  /** Writing a file that is laid out: every fragment's contents stand where the layout puts them. */
  method WriteLaidOut(asm: MCAssembler, w: MCObjectWriter, alignments: seq<nat>)
    returns (ok: bool, ghost sizes: seq<seq<nat>>, ghost images: seq<seq<Byte>>)
    requires asm.Valid() && asm.Complete() && NopsExact(asm.env.backend)
    requires |alignments| == |asm.sections| && AllPositive(alignments)
    modifies w, asm.sections`lastValid, asm.Fragments()`offset, asm.Fragments()`bundlePadding
    ensures asm.Valid()
    ensures AreImages(asm.env, asm.shapes, asm.lays, sizes, images)
    ensures !ok ==> |images| < |asm.sections| &&
                    Unwritable(asm.env, asm.shapes[|images|], asm.lays[|images|])
    ensures ok ==> |images| == |asm.sections| && w.out == Object(old(w.out), images, alignments)
    ensures ok ==> forall s, k ::
      0 <= s < |asm.sections| && 0 <= k < |asm.shapes[s]| ==>
        InPlace(asm.env, asm.shapes, asm.lays, sizes, images, old(w.out), alignments, s, k, w.out)
  {
    StillReady(asm);
    ok, sizes, images := WriteObject(asm, w, alignments);
    if ok {
      forall s, k | 0 <= s < |asm.sections| && 0 <= k < |asm.shapes[s]|
        ensures InPlace(asm.env, asm.shapes, asm.lays, sizes, images, old(w.out), alignments, s, k, w.out)
      {
        SectionSound(asm, sizes, images, s);
        AllStand(asm.env, asm.shapes, asm.lays, sizes, images, old(w.out), alignments, s, k);
      }
    }
  }

  /** How producing a file ends. */
  datatype Outcome = FixupError | WriteError | FileWritten

  /**
   Layout, fixups and writing. `relaxed` is the file once no instruction needs relaxing. When
   it is written, its fragments, with their fixups applied, stand where the layout puts them.
   */
  method Finish(asm: MCAssembler, w: MCObjectWriter, alignments: seq<nat>, ghost rank: Inst -> nat)
    returns (outcome: Outcome, ghost run: seq<State>, ghost relaxed: seq<seq<Shape>>, ghost sizes: seq<seq<nat>>,
             ghost images: seq<seq<Byte>>)
    requires asm.Valid() && asm.Quiet() && RelaxationLowers(asm.env.backend, rank)
    requires asm.AllFit(asm.shapes) && asm.EncodingsFit()
    requires NopsExact(asm.env.backend) && FixupsKeepLength(asm.env.backend)
    requires |alignments| == |asm.sections| && AllPositive(alignments)
    modifies asm`shapes, asm`put, asm`passed, asm`counts, asm`lays, asm`snug, asm.sections, asm.Fragments(), w
    ensures asm.Valid() && RelaxedFrom(asm.env.backend, old(asm.shapes), relaxed)
    ensures exists last: File ::
      Gets(asm.env, run, State(old(asm.Now()), At(0, 0, None, false)), State(last, Done)) && last.all == relaxed
    ensures |relaxed| == |asm.sections| && forall s :: 0 <= s < |relaxed| ==>
      asm.lays[s] == Eager(asm.env, relaxed[s]) &&
      NoneNeeded(asm.env, asm.lays, s, relaxed[s], |relaxed[s]|)
    ensures outcome.FixupError? ==> FileCannotBePatched(asm.env, asm.lays, relaxed) && w.out == old(w.out)
    ensures !outcome.FixupError? ==>
      && FilePatched(asm.env, asm.lays, relaxed, asm.shapes, |relaxed|)
      && AreImages(asm.env, asm.shapes, asm.lays, sizes, images)
    ensures outcome.WriteError? ==>
      |images| < |asm.sections| && Unwritable(asm.env, asm.shapes[|images|], asm.lays[|images|])
    ensures outcome.FileWritten? ==>
      && |images| == |asm.sections| && w.out == Object(old(w.out), images, alignments)
      && forall s, k :: 0 <= s < |asm.sections| && 0 <= k < |asm.shapes[s]| ==>
           InPlace(asm.env, asm.shapes, asm.lays, sizes, images, old(w.out), alignments, s, k, w.out)
  {
    ghost var last;
    run, last := asm.Layout(rank);
    relaxed, sizes, images := asm.shapes, [], [];
    StillReady(asm);
    var fixed := asm.ApplyFixups();
    if !fixed {
      return FixupError, run, relaxed, sizes, images;
    }
    var ok;
    ok, sizes, images := WriteLaidOut(asm, w, alignments);
    outcome := if ok then FileWritten else WriteError;
  }
}
