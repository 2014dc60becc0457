/** Writing a laid-out section to the output stream. */
module McWriter {
  import opened McModel
  import opened McEager
  import opened McImage
  import opened McSection

  lemma Rejoin(a: seq<Byte>, b: seq<Byte>, c: seq<Byte>)
    ensures (a + b) + c == a + (b + c)
  {
  }

  /** The output stream, with the error the assembler remembers. */
  class MCObjectWriter {
    var out: seq<Byte>
    var error: bool

    constructor ()
      ensures out == [] && !error
    {
      out, error := [], false;
    }

    method WriteBytes(bytes: seq<Byte>)
      modifies this`out
      ensures out == old(out) + bytes
    {
      out := out + bytes;
    }

    /** Writes `count` copies of a unit, one at a time. */
    method WriteRepeated(unit: seq<Byte>, count: nat)
      modifies this`out
      ensures out == old(out) + Repeat(unit, count)
    {
      var i := 0;
      while i != count
        invariant 0 <= i <= count
        invariant out == old(out) + Repeat(unit, i)
      {
        WriteBytes(unit);
        i := i + 1;
      }
    }

    /** Fills with chunks of 16 bytes, then of 8, 4, 2 and 1. */
    method WriteFill(byte: Byte, count: nat)
      modifies this`out
      ensures out == old(out) + Repeat([byte], count)
    {
      var size, done := count, 0;
      var chunkSize := 16;
      while chunkSize != 0
        invariant chunkSize in {0, 1, 2, 4, 8, 16}
        invariant done + size == count && size >= 0
        invariant chunkSize == 0 ==> size == 0
        invariant chunkSize < 16 ==> size < if chunkSize == 0 then 1 else 2 * chunkSize
        invariant out == old(out) + Repeat([byte], done)
        decreases chunkSize
      {
        WriteChunks(byte, chunkSize, size / chunkSize);
        RepeatSum(byte, done, chunkSize * (size / chunkSize));
        done := done + chunkSize * (size / chunkSize);
        size := size % chunkSize;
        chunkSize := chunkSize / 2;
      }
      assert done == count;
    }

    method WriteChunks(byte: Byte, chunkSize: nat, chunks: nat)
      modifies this`out
      ensures out == old(out) + Repeat([byte], chunkSize * chunks)
    {
      var i := 0;
      while i != chunks
        invariant 0 <= i <= chunks
        invariant out == old(out) + Repeat([byte], chunkSize * i)
      {
        WriteBytes(Repeat([byte], chunkSize));
        RepeatSum(byte, chunkSize * i, chunkSize);
        assert chunkSize * (i + 1) == chunkSize * i + chunkSize;
        i := i + 1;
      }
    }

    /** False when the backend cannot write a nop sequence of that length. */
    method WriteNopData(backend: Backend, count: nat) returns (ok: bool)
      modifies this`out
      ensures ok == backend.writeNops(count).Some?
      ensures out == if ok then old(out) + backend.writeNops(count).value else old(out)
    {
      ok := backend.writeNops(count).Some?;
      if ok {
        WriteBytes(backend.writeNops(count).value);
      }
    }

    /** Writes the bundle padding of a fragment, in two pieces when it crosses a bundle boundary. */
    method WriteFragmentPadding(env: Env, f: Shape, padding: nat) returns (ok: bool)
      requires padding > 0 ==> f.HasInstructions()
      modifies this`out
      ensures ok == PaddingBytes(env, f, padding).Some?
      ensures ok ==> out == old(out) + PaddingBytes(env, f, padding).value
    {
      if padding == 0 {
        return true;
      }
      var total := padding + |f.contents|;
      if f.AlignToBundleEnd() && total > env.bundle {
        var distance := total - env.bundle;
        ok := WriteTwoNops(env.backend, distance, (padding - distance) % TWO_32);
      } else {
        FewPieces(env.backend, padding, 0);
        ok := WriteNopData(env.backend, padding);
      }
    }

    /** Two nop sequences, one after the other. */
    method WriteTwoNops(backend: Backend, a: nat, b: nat) returns (ok: bool)
      modifies this`out
      ensures ok == NopPieces(backend, [a, b]).Some?
      ensures ok ==> out == old(out) + NopPieces(backend, [a, b]).value
    {
      FewPieces(backend, a, b);
      ok := WriteNopData(backend, a);
      if ok {
        ok := WriteNopData(backend, b);
      }
    }

    /** Writes the contents of a fragment of `size` bytes; false is a fatal error. */
    method WriteBody(backend: Backend, f: Shape, size: nat) returns (ok: bool)
      requires SizeFor(f, size)
      modifies this`out
      ensures ok == Body(backend, f, size).Some?
      ensures ok ==> out == old(out) + Body(backend, f, size).value
    {
      ok := true;
      match f
      case Align(_, emitNops, value, valueSize, _) =>
        if valueSize == 0 || size % valueSize != 0 {
          return false;
        }
        if emitNops {
          ok := WriteNopData(backend, size / valueSize);
        } else if valueSize in {1, 2, 4, 8} {
          WriteRepeated(ValueBytes(backend, value, valueSize), size / valueSize);
        } else {
          ok := false;
        }
      case Fill(byte, count) =>
        WriteFill(byte, count);
      case Org(_, byte) =>
        WriteRepeated([byte], size);
      case SafeSEH(index) =>
        WriteBytes(ValueBytes(backend, index, 4));
      case _ =>
        WriteBytes(f.contents);
    }

    /** Writes the padding and then the contents of a fragment. */
    method WritePadded(env: Env, f: Shape, padding: nat, size: nat) returns (ok: bool)
      requires SizeFor(f, size) && (padding > 0 ==> f.HasInstructions())
      modifies this`out
      ensures ok == Written(env, f, padding, size).Some?
      ensures ok ==> out == old(out) + Written(env, f, padding, size).value
    {
      ok := WriteFragmentPadding(env, f, padding);
      if ok {
        ok := WriteBody(env.backend, f, size);
      }
    }

    /** The section is laid out as far as it goes, and the instructions fit their bundles. */
    static ghost predicate Ready(section: MCSection)
      reads section, section.fragments
    {
      && section.Valid() && section.Fits()
      && section.Fresh() && section.Count() == |section.laid|
    }

    /** The cached padding of a laid-out fragment is the one of the layout. */
    lemma PaddingCached(section: MCSection, f: MCFragment)
      requires Ready(section) && section.Owns(f) && f.layoutOrder < |section.laid|
      ensures f.bundlePadding == section.laid[f.layoutOrder].padding
      ensures f.bundlePadding > 0 ==> f.shape.HasInstructions()
    {
      var k := f.layoutOrder;
      assert section.EntryAgrees(section.fragments[k]);
      assert FitsBundle(section.env, section.shapes[k]);
      NoErrorWhereItFits(section.env, f.shape, section.laid[k].start);
    }

    /** Writes one fragment with its padding, unless an error is remembered already. */
    method WriteFragment(section: MCSection, f: MCFragment) returns (ok: bool, ghost size: nat)
      requires Ready(section) && section.Owns(f) && (error || f.layoutOrder < |section.laid|)
      modifies this, section`lastValid, section.fragments`offset, section.fragments`bundlePadding
      ensures Ready(section)
      ensures old(error) ==> error && ok && out == old(out)
      ensures !old(error) ==>
        match FragmentSize(section.env.backend, f.shape, section.laid, f.layoutOrder)
        case None => error && ok && out == old(out)
        case Some(n) =>
          && !error && size == n
          && (match Written(section.env, f.shape, section.laid[f.layoutOrder].padding, n)
              case None => !ok
              case Some(bytes) => ok && out == old(out) + bytes)
    {
      if error {
        return true, 0;
      }
      var fragmentSize, valid := section.ComputeFragmentSize(f);
      if !valid {
        error := true;
        return true, 0;
      }
      PaddingCached(section, f);
      size := fragmentSize;
      ok := WritePadded(section.env, f.shape, f.bundlePadding, fragmentSize);
    }

    /** The first i fragments came out as `bytes` behind `before`, unless an error is remembered. */
    ghost predicate SoFar(section: MCSection, i: nat, sizes: seq<nat>, bytes: seq<Byte>, before: seq<Byte>)
      reads this, section, section.fragments
    {
      && Ready(section)
      && if error then Unwritable(section.env, section.shapes, section.laid)
         else out == before + bytes && PartWritten(section.env, section.shapes, section.laid, sizes, i, bytes)
    }

    /** Writes fragment i after those before it. */
    method WriteTurn(section: MCSection, i: nat, ghost sizes: seq<nat>, ghost bytes: seq<Byte>, ghost before: seq<Byte>)
      returns (ok: bool, ghost sizes': seq<nat>, ghost bytes': seq<Byte>)
      requires i < |section.fragments| && SoFar(section, i, sizes, bytes, before)
      modifies this, section`lastValid, section.fragments`offset, section.fragments`bundlePadding
      ensures if ok then SoFar(section, i + 1, sizes', bytes', before)
              else Ready(section) && Unwritable(section.env, section.shapes, section.laid)
    {
      ghost var more;
      ok, sizes', more := WriteNext(section, i, sizes, bytes);
      bytes' := bytes + more;
      Rejoin(before, bytes, more);
    }

    /** Writes fragment i after those before it came out as `bytes`. */
    method WriteNext(section: MCSection, i: nat, ghost sizes: seq<nat>, ghost bytes: seq<Byte>)
      returns (ok: bool, ghost sizes': seq<nat>, ghost more: seq<Byte>)
      requires Ready(section) && i < |section.fragments|
      requires !error ==> PartWritten(section.env, section.shapes, section.laid, sizes, i, bytes)
      requires error ==> Unwritable(section.env, section.shapes, section.laid)
      modifies this, section`lastValid, section.fragments`offset, section.fragments`bundlePadding
      ensures Ready(section)
      ensures !ok || error ==> Unwritable(section.env, section.shapes, section.laid)
      ensures ok && !error ==>
        && !old(error)
        && PartWritten(section.env, section.shapes, section.laid, sizes', i + 1, bytes + more)
        && out == old(out) + more
    {
      ghost var env, fs, laid := section.env, section.shapes, section.laid;
      ghost var size;
      sizes', more := sizes, [];
      if !error {
        WritingStopsWithLayout(env, fs, laid, sizes, i, bytes);
      }
      ok, size := WriteFragment(section, section.fragments[i]);
      if !ok {
        NoBytesUnwritable(env, fs, laid, i, size);
      } else if !error {
        more := Written(env, fs[i], laid[i].padding, size).value;
        OneMoreWritten(env, fs, laid, sizes, i, bytes, size, more);
        sizes' := sizes + [size];
      } else if FragmentSize(env.backend, fs[i], laid, i).None? {
        NoSizeUnwritable(env, fs, laid, i);
      }
    }

    /**
     Writes all fragments of a section. Either the output grows by the section's image, for
     the sizes returned, or the section has no image and a fatal error or `error` says so.
     */
    method WriteSectionData(section: MCSection) returns (ok: bool, ghost sizes: seq<nat>, ghost image: seq<Byte>)
      requires Ready(section)
      modifies this, section`lastValid, section.fragments`offset, section.fragments`bundlePadding
      ensures Ready(section)
      ensures ok && !error ==>
        && PartWritten(section.env, section.shapes, section.laid, sizes, |section.shapes|, image)
        && out == old(out) + image
      ensures !ok || error ==> Unwritable(section.env, section.shapes, section.laid)
    {
      error := false;
      assert out + [] == out;
      ok, sizes, image := WriteAll(section, [], [], out);
    }

    /** Every fragment's turn. */
    method WriteAll(section: MCSection, ghost none: seq<nat>, ghost empty: seq<Byte>, ghost before: seq<Byte>)
      returns (ok: bool, ghost sizes: seq<nat>, ghost image: seq<Byte>)
      requires SoFar(section, 0, none, empty, before)
      modifies this, section`lastValid, section.fragments`offset, section.fragments`bundlePadding
      ensures if ok then SoFar(section, |section.fragments|, sizes, image, before)
              else Ready(section) && Unwritable(section.env, section.shapes, section.laid)
    {
      sizes, image := none, empty;
      for i := 0 to |section.fragments|
        invariant SoFar(section, i, sizes, image, before)
        modifies this, section`lastValid, section.fragments`offset, section.fragments`bundlePadding
      {
        ok, sizes, image := WriteTurn(section, i, sizes, image, before);
        if !ok {
          return;
        }
      }
      ok := true;
    }
  }
}
