/**
 What a laid-out section looks like in the output file, fragment by fragment, and why the
 positions in the file are the offsets of the layout.
 */
module McImage {
  import opened Arith
  import opened McModel
  import opened McEager

  /** `count` copies of `unit`, one after the other. */
  function Repeat(unit: seq<Byte>, count: nat): (r: seq<Byte>)
    ensures |unit| == 1 ==> |r| == count && forall i :: 0 <= i < count ==> r[i] == unit[0]
  {
    if count == 0 then [] else Repeat(unit, count - 1) + unit
  }

  lemma {:induction false} RepeatLength(unit: seq<Byte>, count: nat)
    ensures |Repeat(unit, count)| == |unit| * count
  {
    if count > 0 {
      RepeatLength(unit, count - 1);
      assert |unit| * count == |unit| * (count - 1) + |unit|;
    }
  }

  /** Repeats of one byte join up. */
  lemma {:induction false} RepeatSum(b: Byte, m: nat, n: nat)
    ensures Repeat([b], m) + Repeat([b], n) == Repeat([b], m + n)
  {
    if n == 0 {
      assert Repeat([b], m) + [] == Repeat([b], m);
    } else {
      RepeatSum(b, m, n - 1);
      assert Repeat([b], m) + (Repeat([b], n - 1) + [b]) == (Repeat([b], m) + Repeat([b], n - 1)) + [b];
    }
  }

  /** The low n bytes of a value, least significant first. */
  function LittleEndian(value: int, n: nat): (bytes: seq<Byte>)
    ensures |bytes| == n
    decreases n
  {
    if n == 0 then [] else [value % 0x100] + LittleEndian(value / 0x100, n - 1)
  }

  function Reversed(bytes: seq<Byte>): (r: seq<Byte>)
    ensures |r| == |bytes|
  {
    if bytes == [] then [] else Reversed(bytes[1..]) + [bytes[0]]
  }

  function ValueBytes(backend: Backend, value: int, n: nat): (bytes: seq<Byte>)
    ensures |bytes| == n
  {
    if backend.littleEndian then LittleEndian(value, n) else Reversed(LittleEndian(value, n))
  }

  /** The bytes of a fragment of `size` bytes, None when writing it is a fatal error. */
  function Body(backend: Backend, f: Shape, size: nat): Option<seq<Byte>> {
    match f
    case Align(_, emitNops, value, valueSize, _) =>
      if valueSize == 0 || size % valueSize != 0 then None
      else if emitNops then backend.writeNops(size / valueSize)
      else if valueSize in {1, 2, 4, 8}
      then Some(Repeat(ValueBytes(backend, value, valueSize), size / valueSize))
      else None
    case Fill(byte, count) => Some(Repeat([byte], count))
    case Org(_, byte) => Some(Repeat([byte], size))
    case SafeSEH(index) => Some(ValueBytes(backend, index, 4))
    case _ => Some(f.contents)
  }

  /** Every fragment has a size: `sizes` lists them. */
  ghost predicate SizesAre(env: Env, fs: seq<Shape>, laid: seq<Laid>, sizes: seq<nat>) {
    |sizes| == |fs| && forall k :: 0 <= k < |fs| ==> SizeAt(env, fs, laid, sizes, k)
  }

  ghost predicate SizeAt(env: Env, fs: seq<Shape>, laid: seq<Laid>, sizes: seq<nat>, k: nat)
    requires k < |fs| && k < |sizes|
  {
    FragmentSize(env.backend, fs[k], laid, k) == Some(sizes[k])
  }

  /** Each fragment starts where the one before it ends, the first at the base address. */
  predicate Chained(base: nat, laid: seq<Laid>, sizes: seq<nat>)
    requires |laid| == |sizes|
  {
    && (|laid| > 0 ==> laid[0].start == base)
    && forall k :: 0 < k < |laid| ==> laid[k].start == laid[k - 1].Offset() + sizes[k - 1]
  }

  lemma LayoutChained(env: Env, fs: seq<Shape>, laid: seq<Laid>, sizes: seq<nat>)
    requires IsLayout(env, fs, laid) && |laid| == |fs| && SizesAre(env, fs, laid, sizes)
    ensures Chained(env.base, laid, sizes)
  {
    assert |laid| > 0 ==> LaidAt(env, fs, laid, 0);
    forall k | 0 < k < |laid|
      ensures laid[k].start == laid[k - 1].Offset() + sizes[k - 1]
    {
      assert LaidAt(env, fs, laid, k) && SizeAt(env, fs, laid, sizes, k - 1);
    }
  }

  /** The bytes a fragment can have, given its size. */
  predicate SizeFor(f: Shape, size: nat) {
    match f
    case Align(_, _, _, _, _) => true
    case Fill(_, count) => size == count
    case Org(_, _) => true
    case SafeSEH(_) => size == 4
    case _ => size == |f.contents|
  }

  lemma SizeIsFor(env: Env, fs: seq<Shape>, laid: seq<Laid>, sizes: seq<nat>, k: nat)
    requires k < |fs| && k < |sizes| && SizeAt(env, fs, laid, sizes, k)
    ensures SizeFor(fs[k], sizes[k])
  {
  }

  /** A fragment that can be written fills exactly its size. */
  lemma BodyLength(backend: Backend, f: Shape, size: nat)
    requires NopsExact(backend) && SizeFor(f, size) && f.Sound()
    requires Body(backend, f, size).Some?
    ensures |Body(backend, f, size).value| == size
  {
    if f.Align? {
      AlignLength(backend, f, size);
    }
  }

  lemma AlignLength(backend: Backend, f: Shape, size: nat)
    requires NopsExact(backend) && f.Align? && f.Sound() && Body(backend, f, size).Some?
    ensures |Body(backend, f, size).value| == size
  {
    CountOfUnits(size, f.valueSize);
    RepeatLength(ValueBytes(backend, f.value, f.valueSize), size / f.valueSize);
  }

  /**
   The lengths of the nop sequences that make up the padding before a fragment of `size`
   bytes; the subtraction is unsigned.
   */
  function Pieces(bundle: nat, toEnd: bool, size: nat, padding: nat): (pieces: seq<nat>) {
    if padding == 0 then []
    else if toEnd && padding + size > bundle
    then [padding + size - bundle, (padding - (padding + size - bundle)) % TWO_32]
    else [padding]
  }

  function PaddingPieces(env: Env, f: Shape, padding: nat): (pieces: seq<nat>)
    requires f.HasInstructions()
  {
    Pieces(env.bundle, f.AlignToBundleEnd(), |f.contents|, padding)
  }

  function NopPieces(backend: Backend, pieces: seq<nat>): Option<seq<Byte>> {
    if pieces == [] then Some([])
    else
      match NopPieces(backend, pieces[..|pieces| - 1])
      case None => None
      case Some(before) =>
        match backend.writeNops(pieces[|pieces| - 1])
        case None => None
        case Some(last) => Some(before + last)
  }

  lemma FewPieces(backend: Backend, a: nat, b: nat)
    ensures NopPieces(backend, [a]) == backend.writeNops(a)
    ensures NopPieces(backend, [a, b]) ==
            match (backend.writeNops(a), backend.writeNops(b))
            case (Some(first), Some(second)) => Some(first + second)
            case _ => None
  {
    assert [a][..0] == [] && [a, b][..1] == [a];
    assert backend.writeNops(a).Some? ==> [] + backend.writeNops(a).value == backend.writeNops(a).value;
    assert NopPieces(backend, [a]) == backend.writeNops(a);
  }

  function PaddingBytes(env: Env, f: Shape, padding: nat): Option<seq<Byte>> {
    if f.HasInstructions() then NopPieces(env.backend, PaddingPieces(env, f, padding)) else Some([])
  }

  lemma PaddingLength(env: Env, f: Shape, padding: nat)
    requires NopsExact(env.backend)
    requires padding > 0 ==> f.HasInstructions() && |f.contents| <= env.bundle <= 0x4000_0000
    requires PaddingBytes(env, f, padding).Some?
    ensures |PaddingBytes(env, f, padding).value| == padding
  {
    if f.HasInstructions() {
      var pieces := PaddingPieces(env, f, padding);
      NopPiecesLength(env.backend, pieces);
      if |pieces| == 2 {
        assert pieces[..1] == [pieces[0]] && [pieces[0]][..0] == [];
        assert Sum(pieces[..1]) == pieces[0];
      }
    }
  }

  function Sum(ns: seq<nat>): nat {
    if ns == [] then 0 else Sum(ns[..|ns| - 1]) + ns[|ns| - 1]
  }

  lemma {:induction false} NopPiecesLength(backend: Backend, pieces: seq<nat>)
    requires NopsExact(backend) && NopPieces(backend, pieces).Some?
    ensures |NopPieces(backend, pieces).value| == Sum(pieces)
  {
    if pieces != [] {
      NopPiecesLength(backend, pieces[..|pieces| - 1]);
    }
  }

  /** The bytes of a fragment with its padding before them. */
  function Written(env: Env, f: Shape, padding: nat, size: nat): Option<seq<Byte>> {
    match (PaddingBytes(env, f, padding), Body(env.backend, f, size))
    case (Some(nops), Some(body)) => Some(nops + body)
    case _ => None
  }

  /** The bytes of the first n fragments. */
  function Image(env: Env, fs: seq<Shape>, laid: seq<Laid>, sizes: seq<nat>, n: nat): Option<seq<Byte>>
    requires n <= |fs| && n <= |laid| && n <= |sizes|
  {
    if n == 0 then Some([])
    else
      match (Image(env, fs, laid, sizes, n - 1), Written(env, fs[n - 1], laid[n - 1].padding, sizes[n - 1]))
      case (Some(before), Some(bytes)) => Some(before + bytes)
      case _ => None
  }

  predicate Orderly(env: Env, f: Shape, padding: nat, size: nat) {
    && SizeFor(f, size)
    && f.Sound()
    && (padding > 0 ==> f.HasInstructions() && |f.contents| <= env.bundle <= 0x4000_0000)
  }

  /** Every fragment is of the given size, fits its bundle and fills its size. */
  predicate AllOrderly(env: Env, fs: seq<Shape>, laid: seq<Laid>, sizes: seq<nat>) {
    |laid| == |sizes| == |fs| &&
    forall k :: 0 <= k < |fs| ==> Orderly(env, fs[k], laid[k].padding, sizes[k])
  }

  /** A written fragment is its padding and then its contents, both of the laid-out length. */
  lemma WrittenLength(env: Env, f: Shape, padding: nat, size: nat)
    requires NopsExact(env.backend) && Orderly(env, f, padding, size)
    requires Written(env, f, padding, size).Some?
    ensures |Written(env, f, padding, size).value| == padding + size
    ensures Body(env.backend, f, size) == Some(Written(env, f, padding, size).value[padding..])
  {
    PaddingLength(env, f, padding);
    BodyLength(env.backend, f, size);
  }

  /**
   Emission matches layout: what precedes the contents of fragment k in the output is as long
   as the offset of fragment k, counted from the base address.
   */
  lemma {:induction false} ImageLength(env: Env, fs: seq<Shape>, laid: seq<Laid>, sizes: seq<nat>, n: nat)
    requires NopsExact(env.backend) && AllOrderly(env, fs, laid, sizes) && Chained(env.base, laid, sizes)
    requires n <= |fs| && Image(env, fs, laid, sizes, n).Some?
    ensures env.base + |Image(env, fs, laid, sizes, n).value| ==
            if n == 0 then env.base else laid[n - 1].Offset() + sizes[n - 1]
  {
    if n > 0 {
      ImageLength(env, fs, laid, sizes, n - 1);
      WrittenLength(env, fs[n - 1], laid[n - 1].padding, sizes[n - 1]);
    }
  }

  /** The fragments before fragment k reach up to where it starts. */
  lemma ImageReaches(env: Env, fs: seq<Shape>, laid: seq<Laid>, sizes: seq<nat>, k: nat)
    requires NopsExact(env.backend) && AllOrderly(env, fs, laid, sizes) && Chained(env.base, laid, sizes)
    requires k < |fs| && Image(env, fs, laid, sizes, k).Some?
    ensures |Image(env, fs, laid, sizes, k).value| == laid[k].start - env.base
  {
    ImageLength(env, fs, laid, sizes, k);
  }

  lemma SliceOfSlice<T>(s: seq<T>, a: nat, b: nat, c: nat, d: nat)
    requires a <= b <= |s| && c <= d <= b - a
    ensures s[a..b][c..d] == s[a + c..a + d]
  {
    forall i | 0 <= i < d - c
      ensures s[a..b][c..d][i] == s[a + c..a + d][i]
    {
    }
  }

  /** The contents of a fragment of `size` bytes stand in `image` at `position`. */
  predicate StandsAt(backend: Backend, f: Shape, size: nat, position: int, image: seq<Byte>) {
    0 <= position <= position + size <= |image| &&
    Body(backend, f, size) == Some(image[position..position + size])
  }

  lemma {:induction false} ImageAt(env: Env, fs: seq<Shape>, laid: seq<Laid>, sizes: seq<nat>, k: nat, n: nat)
    requires NopsExact(env.backend) && AllOrderly(env, fs, laid, sizes) && Chained(env.base, laid, sizes)
    requires k < n <= |fs| && Image(env, fs, laid, sizes, n).Some?
    ensures StandsAt(env.backend, fs[k], sizes[k], laid[k].Offset() - env.base,
                     Image(env, fs, laid, sizes, n).value)
    decreases n
  {
    var image := Image(env, fs, laid, sizes, n - 1).value;
    var written := Written(env, fs[n - 1], laid[n - 1].padding, sizes[n - 1]).value;
    if n > k + 1 {
      ImageAt(env, fs, laid, sizes, k, n - 1);
      StaysAt(env.backend, fs[k], sizes[k], laid[k].Offset() - env.base, image, written);
    } else {
      ImageReaches(env, fs, laid, sizes, k);
      WrittenLength(env, fs[k], laid[k].padding, sizes[k]);
      ComesNext(env.backend, fs[k], sizes[k], laid[k].padding, image, written);
    }
  }

  /** Writing more leaves what is already written where it is. */
  lemma StaysAt(backend: Backend, f: Shape, size: nat, position: int, image: seq<Byte>, more: seq<Byte>)
    requires StandsAt(backend, f, size, position, image)
    ensures StandsAt(backend, f, size, position, image + more)
  {
    assert (image + more)[position..position + size] == image[position..position + size];
  }

  lemma ComesNext(backend: Backend, f: Shape, size: nat, padding: nat, image: seq<Byte>, written: seq<Byte>)
    requires |written| == padding + size && Body(backend, f, size) == Some(written[padding..])
    ensures StandsAt(backend, f, size, |image| + padding, image + written)
  {
    var position := |image| + padding;
    assert (image + written)[position..position + size] == written[padding..];
  }

  /** The image of the first n fragments only depends on the first n sizes. */
  lemma {:induction false} ImagePrefix(env: Env, fs: seq<Shape>, laid: seq<Laid>, a: seq<nat>, b: seq<nat>, n: nat)
    requires n <= |fs| && n <= |laid| && n <= |a| && n <= |b| && a[..n] == b[..n]
    ensures Image(env, fs, laid, a, n) == Image(env, fs, laid, b, n)
  {
    if n > 0 {
      assert a[..n - 1] == a[..n][..n - 1] == b[..n - 1];
      ImagePrefix(env, fs, laid, a, b, n - 1);
      assert a[n - 1] == a[..n][n - 1] == b[n - 1];
    }
  }

  /** A fragment that cannot be written leaves the section without an image. */
  lemma {:induction false} NoImagePast(env: Env, fs: seq<Shape>, laid: seq<Laid>, sizes: seq<nat>, k: nat, n: nat)
    requires k < n <= |fs| && n <= |laid| && n <= |sizes|
    requires Written(env, fs[k], laid[k].padding, sizes[k]).None?
    ensures Image(env, fs, laid, sizes, n).None?
    decreases n
  {
    if n > k + 1 {
      NoImagePast(env, fs, laid, sizes, k, n - 1);
    }
  }

  /** The first n fragments have the sizes `sizes` and come out as `bytes`. */
  ghost predicate PartWritten(env: Env, fs: seq<Shape>, laid: seq<Laid>, sizes: seq<nat>, n: nat, bytes: seq<Byte>)
  {
    && n <= |fs| && n <= |laid| && |sizes| == n
    && (forall k :: 0 <= k < n ==> SizeAt(env, fs, laid, sizes, k))
    && Image(env, fs, laid, sizes, n) == Some(bytes)
  }

  lemma OneMoreWritten(env: Env, fs: seq<Shape>, laid: seq<Laid>, sizes: seq<nat>, n: nat, bytes: seq<Byte>,
                       size: nat, more: seq<Byte>)
    requires n < |fs| && n < |laid| && PartWritten(env, fs, laid, sizes, n, bytes)
    requires FragmentSize(env.backend, fs[n], laid, n) == Some(size)
    requires Written(env, fs[n], laid[n].padding, size) == Some(more)
    ensures PartWritten(env, fs, laid, sizes + [size], n + 1, bytes + more)
  {
    var sizes' := sizes + [size];
    ImagePrefix(env, fs, laid, sizes, sizes', n);
    forall k | 0 <= k < n + 1
      ensures SizeAt(env, fs, laid, sizes', k)
    {
      assert k < n ==> SizeAt(env, fs, laid, sizes, k);
    }
  }

  /** The layout is incomplete, or no list of sizes gives the section an image. */
  ghost predicate Unwritable(env: Env, fs: seq<Shape>, laid: seq<Laid>) {
    |laid| == |fs| ==>
      forall sizes :: SizesAre(env, fs, laid, sizes) ==> Image(env, fs, laid, sizes, |fs|).None?
  }

  lemma NoSizeUnwritable(env: Env, fs: seq<Shape>, laid: seq<Laid>, k: nat)
    requires k < |fs| && FragmentSize(env.backend, fs[k], laid, k).None?
    ensures Unwritable(env, fs, laid)
  {
    forall sizes: seq<nat> | |sizes| == |fs|
      ensures !SizesAre(env, fs, laid, sizes)
    {
      assert !SizeAt(env, fs, laid, sizes, k);
    }
  }

  lemma NoBytesUnwritable(env: Env, fs: seq<Shape>, laid: seq<Laid>, k: nat, size: nat)
    requires k < |fs| && k < |laid| && FragmentSize(env.backend, fs[k], laid, k) == Some(size)
    requires Written(env, fs[k], laid[k].padding, size).None?
    ensures Unwritable(env, fs, laid)
  {
    forall sizes | |laid| == |fs| && SizesAre(env, fs, laid, sizes)
      ensures Image(env, fs, laid, sizes, |fs|).None?
    {
      assert SizeAt(env, fs, laid, sizes, k);
      NoImagePast(env, fs, laid, sizes, k, |fs|);
    }
  }

  /** A layout that stops early stops at a fragment without a size, so writing stops there too. */
  lemma WritingStopsWithLayout(env: Env, fs: seq<Shape>, laid: seq<Laid>, sizes: seq<nat>, n: nat, bytes: seq<Byte>)
    requires IsLayout(env, fs, laid) && PartWritten(env, fs, laid, sizes, n, bytes)
    ensures n < |fs| ==> n < |laid|
  {
    assert n > 0 ==> SizeAt(env, fs, laid, sizes, n - 1);
  }

  /**
   A complete layout, with every instruction in its bundle: each
   fragment's contents stand at its offset less the base address, and the whole image is as
   long as the end of the last fragment less the base address.
   */
  lemma EmissionMatchesLayout(env: Env, fs: seq<Shape>, laid: seq<Laid>, sizes: seq<nat>, image: seq<Byte>)
    requires NopsExact(env.backend) && AllLookBack(fs)
    requires laid == Eager(env, fs) && |laid| == |fs| > 0 && SizesAre(env, fs, laid, sizes)
    requires AllSound(fs) && forall k :: 0 <= k < |fs| ==> FitsBundle(env, fs[k])
    requires Image(env, fs, laid, sizes, |fs|) == Some(image)
    ensures forall k :: 0 <= k < |fs| ==>
      StandsAt(env.backend, fs[k], sizes[k], laid[k].Offset() - env.base, image)
    ensures |image| == laid[|fs| - 1].Offset() + sizes[|fs| - 1] - env.base
  {
    EagerIsLayout(env, fs);
    LayoutChained(env, fs, laid, sizes);
    forall k | 0 <= k < |fs|
      ensures Orderly(env, fs[k], laid[k].padding, sizes[k])
    {
      SizeIsFor(env, fs, laid, sizes, k);
      assert LaidAt(env, fs, laid, k) && SizeAt(env, fs, laid, sizes, k);
    }
    ImageLength(env, fs, laid, sizes, |fs|);
    forall k | 0 <= k < |fs|
      ensures StandsAt(env.backend, fs[k], sizes[k], laid[k].Offset() - env.base, image)
    {
      ImageAt(env, fs, laid, sizes, k, |fs|);
    }
  }
}
