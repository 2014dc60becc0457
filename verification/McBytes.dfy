/**
 The bytes of a finished file: what stands in the place of a fragment, byte by byte and number by
 number, said of the file and not of how fragments are written.
 */
module McBytes {
  import opened Arith
  import opened McModel
  import opened McEager
  import opened McImage
  import opened McObject

  /** The number these bytes are, least significant byte first. */
  function Number(bytes: seq<Byte>): nat {
    if bytes == [] then 0 else bytes[0] + 0x100 * Number(bytes[1..])
  }

  /** The number these bytes are, most significant byte first. */
  function BigNumber(bytes: seq<Byte>): nat {
    if bytes == [] then 0 else BigNumber(bytes[..|bytes| - 1]) * 0x100 + bytes[|bytes| - 1]
  }

  /** What a machine of this byte order reads. */
  function ReadAs(backend: Backend, bytes: seq<Byte>): nat {
    if backend.littleEndian then Number(bytes) else BigNumber(bytes)
  }

  function Power256(n: nat): (p: nat)
    ensures p > 0
  {
    if n == 0 then 1 else 0x100 * Power256(n - 1)
  }

  /** The remainder by 256 m is the last digit and 256 times the remainder of the rest by m. */
  lemma LastDigit(value: int, m: nat)
    requires m > 0
    ensures value % (0x100 * m) == value % 0x100 + 0x100 * (value / 0x100 % m)
  {
    var q, r := value / 0x100 / m, value / 0x100 % m;
    assert value / 0x100 == m * q + r;
    assert value == 0x100 * (m * q + r) + value % 0x100;
    assert 0x100 * (m * q) == (0x100 * m) * q;
    DivModUnique(value, 0x100 * m, q, 0x100 * r + value % 0x100);
  }

  lemma {:induction false} LowBytesRead(value: int, n: nat)
    ensures Number(LittleEndian(value, n)) == value % Power256(n)
    decreases n
  {
    if n > 0 {
      LowBytesRead(value / 0x100, n - 1);
      LastDigit(value, Power256(n - 1));
      assert LittleEndian(value, n)[1..] == LittleEndian(value / 0x100, n - 1);
    }
  }

  lemma {:induction false} ReversedReads(bytes: seq<Byte>)
    ensures BigNumber(Reversed(bytes)) == Number(bytes)
  {
    if bytes != [] {
      ReversedReads(bytes[1..]);
      assert Reversed(bytes)[..|bytes| - 1] == Reversed(bytes[1..]);
    }
  }

  lemma ValueReads(backend: Backend, value: int, n: nat)
    ensures ReadAs(backend, ValueBytes(backend, value, n)) == value % Power256(n)
  {
    LowBytesRead(value, n);
    ReversedReads(LittleEndian(value, n));
  }

  lemma {:induction false} UnitOfRepeat(unit: seq<Byte>, count: nat, u: nat)
    requires u < count
    ensures |Repeat(unit, count)| == |unit| * count && 0 <= |unit| * u <= |unit| * (u + 1) <= |unit| * count
    ensures Repeat(unit, count)[|unit| * u..|unit| * (u + 1)] == unit
  {
    RepeatLength(unit, count);
    RepeatLength(unit, count - 1);
    var n := |unit|;
    assert n * count == n * (count - 1) + n && n * (u + 1) == n * u + n;
    MulNonneg(n, u);
    MulNonneg(n, count - 1 - u);
    assert n * (count - 1) == n * u + n * (count - 1 - u);
    if u < count - 1 {
      UnitOfRepeat(unit, count - 1, u);
      assert Repeat(unit, count)[n * u..n * (u + 1)] == Repeat(unit, count - 1)[n * u..n * (u + 1)];
    }
  }

  /** Every byte of a part of the file is this one. */
  predicate AllAre(file: seq<Byte>, from: int, to: int, byte: Byte) {
    0 <= from <= to <= |file| && forall i :: from <= i < to ==> file[i] == byte
  }

  /** A fill of n bytes is n times its byte. */
  lemma FillStands(backend: Backend, f: Shape, size: nat, at: int, file: seq<Byte>)
    requires StandsAt(backend, f, size, at, file) && f.Fill?
    ensures size == f.count && AllAre(file, at, at + f.count, f.byte)
  {
    var part := file[at..at + size];
    assert part == Repeat([f.byte], f.count);
    forall i | at <= i < at + size
      ensures file[i] == f.byte
    {
      assert file[i] == part[i - at];
    }
  }

  /** An `.org` is filled with its byte. */
  lemma OrgStands(backend: Backend, f: Shape, size: nat, at: int, file: seq<Byte>)
    requires StandsAt(backend, f, size, at, file) && f.Org?
    ensures AllAre(file, at, at + size, f.byte)
  {
    var part := file[at..at + size];
    assert part == Repeat([f.byte], size);
    forall i | at <= i < at + size
      ensures file[i] == f.byte
    {
      assert file[i] == part[i - at];
    }
  }

  lemma UnitInFile(file: seq<Byte>, at: int, size: nat, unit: seq<Byte>, count: nat, u: nat)
    requires 0 <= at <= at + size <= |file| && file[at..at + size] == Repeat(unit, count) && u < count
    requires size == |unit| * count
    ensures 0 <= at + |unit| * u <= at + |unit| * u + |unit| <= |file|
    ensures file[at + |unit| * u..at + |unit| * u + |unit|] == unit
  {
    var n := |unit|;
    assert n * (u + 1) == n * u + n && n * (u + 1) <= n * count;
    UnitOfRepeat(unit, count, u);
    SliceOfSlice(file, at, at + size, n * u, n * u + n);
  }

  /** An alignment without nops is made of whole units, each of which reads back as its value. */
  lemma AlignStands(backend: Backend, f: Shape, size: nat, at: int, file: seq<Byte>, u: nat)
    requires StandsAt(backend, f, size, at, file) && f.Align? && !f.emitNops
    ensures f.valueSize in {1, 2, 4, 8} && size % f.valueSize == 0
    ensures u < size / f.valueSize ==>
      var from := at + f.valueSize * u;
      && 0 <= from <= from + f.valueSize <= |file|
      && ReadAs(backend, file[from..from + f.valueSize]) == f.value % Power256(f.valueSize)
  {
    if u < size / f.valueSize {
      CountOfUnits(size, f.valueSize);
      ValueReads(backend, f.value, f.valueSize);
      UnitInFile(file, at, size, ValueBytes(backend, f.value, f.valueSize), size / f.valueSize, u);
    }
  }

  /** An alignment with nops is what the backend writes for as many bytes. */
  lemma NopsStand(backend: Backend, f: Shape, size: nat, at: int, file: seq<Byte>)
    requires StandsAt(backend, f, size, at, file) && f.Align? && f.emitNops && f.Sound()
    ensures backend.writeNops(size) == Some(file[at..at + size])
  {
  }

  /** The four bytes of a table entry read back as the index of its symbol. */
  lemma IndexStands(backend: Backend, f: Shape, size: nat, at: int, file: seq<Byte>)
    requires StandsAt(backend, f, size, at, file) && f.SafeSEH? && size == 4
    ensures ReadAs(backend, file[at..at + 4]) == f.index % TWO_32
  {
    ValueReads(backend, f.index, 4);
    assert Power256(4) == TWO_32;
  }

  /** Every other fragment stands there byte for byte. */
  lemma ContentsStand(backend: Backend, f: Shape, size: nat, at: int, file: seq<Byte>)
    requires StandsAt(backend, f, size, at, file)
    requires !f.Align? && !f.Fill? && !f.Org? && !f.SafeSEH?
    ensures file[at..at + size] == f.contents
  {
  }

  /** Fragment k of section s in a finished file, whatever its kind. */
  lemma KindsInFile(env: Env, all: seq<seq<Shape>>, lays: seq<seq<Laid>>, sizes: seq<seq<nat>>, images: seq<seq<Byte>>,
                    before: seq<Byte>, alignments: seq<nat>, s: nat, k: nat, u: nat, file: seq<Byte>)
    requires |all| == |lays| == |images| == |sizes| <= |alignments| && AllPositive(alignments)
    requires s < |all| && k < |all[s]| && all[s][k].Sound()
    requires InPlace(env, all, lays, sizes, images, before, alignments, s, k, file) && SizeFor(all[s][k], sizes[s][k])
    ensures var f, size := all[s][k], sizes[s][k];
            var at := SectionStart(before, images, alignments, s) + lays[s][k].Offset() - env.base;
            && 0 <= at <= at + size <= |file|
            && match f
               case Fill(byte, count) => size == count && AllAre(file, at, at + count, byte)
               case Org(_, byte) => AllAre(file, at, at + size, byte)
               case SafeSEH(index) => size == 4 && ReadAs(env.backend, file[at..at + 4]) == index % TWO_32
               case Align(_, emitNops, value, n, _) =>
                 if emitNops then env.backend.writeNops(size) == Some(file[at..at + size])
                 else n in {1, 2, 4, 8} && size % n == 0 &&
                      (u < size / n ==> UnitAt(env.backend, file, at + n * u, n, value))
               case _ => file[at..at + size] == f.contents
  {
    var f, size := all[s][k], sizes[s][k];
    var at := SectionStart(before, images, alignments, s) + lays[s][k].Offset() - env.base;
    match f
    case Fill(_, _) => FillStands(env.backend, f, size, at, file);
    case Org(_, _) => OrgStands(env.backend, f, size, at, file);
    case SafeSEH(_) => IndexStands(env.backend, f, size, at, file);
    case Align(_, emitNops, _, _, _) =>
      if emitNops {
        NopsStand(env.backend, f, size, at, file);
      } else {
        AlignStands(env.backend, f, size, at, file, u);
      }
    case _ => ContentsStand(env.backend, f, size, at, file);
  }

  /** The n bytes at `from` read back as the value, as far as they hold it. */
  predicate UnitAt(backend: Backend, file: seq<Byte>, from: int, n: nat, value: int) {
    0 <= from <= from + n <= |file| && ReadAs(backend, file[from..from + n]) == value % Power256(n)
  }

  // The padding before an instruction.

  /** The padding of a fragment fills the image from where the fragment starts to where its contents stand. */
  predicate PaddingStands(env: Env, f: Shape, from: int, to: int, image: seq<Byte>) {
    0 <= from <= to <= |image| && PaddingBytes(env, f, to - from) == Some(image[from..to])
  }

  lemma WithLast(env: Env, fs: seq<Shape>, laid: seq<Laid>, sizes: seq<nat>, n: nat)
      returns (image: seq<Byte>, written: seq<Byte>)
    requires 0 < n <= |fs| && n <= |laid| && n <= |sizes| && Image(env, fs, laid, sizes, n).Some?
    ensures Image(env, fs, laid, sizes, n - 1) == Some(image)
    ensures Written(env, fs[n - 1], laid[n - 1].padding, sizes[n - 1]) == Some(written)
    ensures Image(env, fs, laid, sizes, n) == Some(image + written)
  {
    image := Image(env, fs, laid, sizes, n - 1).value;
    written := Written(env, fs[n - 1], laid[n - 1].padding, sizes[n - 1]).value;
  }

  lemma NopsOfLast(env: Env, fs: seq<Shape>, laid: seq<Laid>, sizes: seq<nat>, k: nat)
    requires NopsExact(env.backend) && AllOrderly(env, fs, laid, sizes) && Chained(env.base, laid, sizes)
    requires k < |fs| && Image(env, fs, laid, sizes, k + 1).Some?
    ensures PaddingStands(env, fs[k], laid[k].start - env.base, laid[k].Offset() - env.base,
                          Image(env, fs, laid, sizes, k + 1).value)
  {
    var image, written := WithLast(env, fs, laid, sizes, k + 1);
    assert Orderly(env, fs[k], laid[k].padding, sizes[k]);
    ImageReaches(env, fs, laid, sizes, k);
    NopsFirst(env, fs[k], laid[k].padding, sizes[k]);
    ComesFirst(env, fs[k], laid[k].padding, image, written);
  }

  lemma {:induction false} NopsBefore(env: Env, fs: seq<Shape>, laid: seq<Laid>, sizes: seq<nat>, k: nat, n: nat)
    requires NopsExact(env.backend) && AllOrderly(env, fs, laid, sizes) && Chained(env.base, laid, sizes)
    requires k < n <= |fs| && Image(env, fs, laid, sizes, n).Some?
    ensures PaddingStands(env, fs[k], laid[k].start - env.base, laid[k].Offset() - env.base,
                          Image(env, fs, laid, sizes, n).value)
    decreases n
  {
    if n == k + 1 {
      NopsOfLast(env, fs, laid, sizes, k);
    } else {
      var image, written := WithLast(env, fs, laid, sizes, n);
      NopsBefore(env, fs, laid, sizes, k, n - 1);
      StaysBefore(env, fs[k], laid[k].start - env.base, laid[k].Offset() - env.base, image, written);
    }
  }

  lemma NopsFirst(env: Env, f: Shape, padding: nat, size: nat)
    requires NopsExact(env.backend) && Orderly(env, f, padding, size) && Written(env, f, padding, size).Some?
    ensures var written := Written(env, f, padding, size).value;
            padding <= |written| && PaddingBytes(env, f, padding) == Some(written[..padding])
  {
    PaddingLength(env, f, padding);
  }

  lemma StaysBefore(env: Env, f: Shape, from: int, to: int, image: seq<Byte>, more: seq<Byte>)
    requires PaddingStands(env, f, from, to, image)
    ensures PaddingStands(env, f, from, to, image + more)
  {
    assert (image + more)[from..to] == image[from..to];
  }

  lemma ComesFirst(env: Env, f: Shape, padding: nat, image: seq<Byte>, written: seq<Byte>)
    requires padding <= |written| && PaddingBytes(env, f, padding) == Some(written[..padding])
    ensures PaddingStands(env, f, |image|, |image| + padding, image + written)
  {
    assert (image + written)[|image|..|image| + padding] == written[..padding];
  }

  /**
   In the image of a section the bytes before an instruction are nops of the backend: one run of them,
   or two where the padding reaches over a bundle boundary, which parts them.
   */
  lemma PaddingInImage(env: Env, fs: seq<Shape>, laid: seq<Laid>, sizes: seq<nat>, image: seq<Byte>, k: nat)
    requires NopsExact(env.backend) && AllLookBack(fs) && k < |fs|
    requires laid == Eager(env, fs) && |laid| == |fs| && SizesAre(env, fs, laid, sizes)
    requires AllSound(fs) && forall i :: 0 <= i < |fs| ==> FitsBundle(env, fs[i])
    requires Image(env, fs, laid, sizes, |fs|) == Some(image)
    ensures var from, to := laid[k].start - env.base, laid[k].Offset() - env.base;
            && 0 <= from <= to <= |image|
            && (to > from ==> fs[k].HasInstructions() && IsNops(env, fs[k], image[from..to]))
  {
    EagerIsLayout(env, fs);
    LayoutChained(env, fs, laid, sizes);
    forall i | 0 <= i < |fs|
      ensures Orderly(env, fs[i], laid[i].padding, sizes[i])
    {
      SizeIsFor(env, fs, laid, sizes, i);
      assert LaidAt(env, fs, laid, i) && SizeAt(env, fs, laid, sizes, i);
    }
    NopsBefore(env, fs, laid, sizes, k, |fs|);
    if laid[k].padding > 0 {
      assert Orderly(env, fs[k], laid[k].padding, sizes[k]);
      NopRuns(env, fs[k], image[laid[k].start - env.base..laid[k].Offset() - env.base]);
    }
  }

  /** Nops that the backend writes, parted at the bundle boundary that they reach over. */
  predicate IsNops(env: Env, f: Shape, nops: seq<Byte>)
    requires f.HasInstructions()
  {
    var over := |nops| + |f.contents| - env.bundle;
    if f.AlignToBundleEnd() && over > 0 then
      && over <= |nops| && env.backend.writeNops(over) == Some(nops[..over])
      && env.backend.writeNops(|nops| - over) == Some(nops[over..])
    else env.backend.writeNops(|nops|) == Some(nops)
  }

  lemma NopRuns(env: Env, f: Shape, nops: seq<Byte>)
    requires NopsExact(env.backend) && f.HasInstructions() && |f.contents| <= env.bundle <= 0x4000_0000
    requires nops != [] && PaddingBytes(env, f, |nops|) == Some(nops)
    ensures IsNops(env, f, nops)
  {
    var over := |nops| + |f.contents| - env.bundle;
    if f.AlignToBundleEnd() && over > 0 {
      FewPieces(env.backend, over, |nops| - over);
    } else {
      FewPieces(env.backend, |nops|, 0);
    }
  }

  /** Where the part of the file before section s ends. */
  function EndBefore(before: seq<Byte>, images: seq<seq<Byte>>, alignments: seq<nat>, s: nat): nat
    requires s < |images| <= |alignments| && AllPositive(alignments)
  {
    if s == 0 then |before| else SectionStart(before, images, alignments, s - 1) + |images[s - 1]|
  }

  lemma {:induction false} PartOfObject(before: seq<Byte>, images: seq<seq<Byte>>, alignments: seq<nat>, n: nat)
    requires n <= |images| <= |alignments| && AllPositive(alignments)
    ensures Object(before, images[..n], alignments) <= Object(before, images, alignments)
    decreases |images|
  {
    if n == |images| {
      assert images[..n] == images;
    } else {
      var m := |images| - 1;
      PartOfObject(before, images[..m], alignments, n);
      assert images[..m][..n] == images[..n];
    }
  }

  lemma ObjectGrows(before: seq<Byte>, images: seq<seq<Byte>>, alignments: seq<nat>, n: nat)
    requires n < |images| <= |alignments| && AllPositive(alignments)
    ensures var rest := Object(before, images[..n], alignments);
            Object(before, images[..n + 1], alignments)
            == rest + Repeat([0], OffsetToAlignment(|rest|, alignments[n])) + images[n]
  {
    assert images[..n + 1][..n] == images[..n];
  }

  /** Between a section and the next there are zeros, fewer than the alignment; the file ends with the last section. */
  lemma GapsAreZero(before: seq<Byte>, images: seq<seq<Byte>>, alignments: seq<nat>, s: nat)
    requires s < |images| <= |alignments| && AllPositive(alignments)
    ensures var file, end := Object(before, images, alignments), EndBefore(before, images, alignments, s);
            var start := SectionStart(before, images, alignments, s);
            && end <= start < end + alignments[s] && AllAre(file, end, start, 0) && before <= file
            && (s == |images| - 1 ==> |file| == start + |images[s]|)
  {
    var file, rest := Object(before, images, alignments), Object(before, images[..s], alignments);
    var pad := OffsetToAlignment(|rest|, alignments[s]);
    PartOfObject(before, images, alignments, s + 1);
    PartOfObject(before, images, alignments, 0);
    ObjectGrows(before, images, alignments, s);
    RepeatLength([0], pad);
    if s > 0 {
      ObjectGrows(before, images, alignments, s - 1);
      RepeatLength([0], OffsetToAlignment(|Object(before, images[..s - 1], alignments)|, alignments[s - 1]));
    }
    var part := rest + Repeat([0], pad) + images[s];
    forall i | |rest| <= i < |rest| + pad
      ensures file[i] == 0
    {
      assert file[i] == part[i] == Repeat([0], pad)[i - |rest|];
    }
    assert images[..|images|] == images;
  }
}
