/**
 Applying fixups on x86: the value goes into a little-endian field of 1, 2, 4 or 8 bytes. From
 there to the finished file: where a fixup's value stands, and what a processor makes of it.
 */
module McX86Fixup {
  import opened Arith
  import opened McModel
  import opened McEager
  import opened McFixup
  import opened McImage
  import opened McPatch

  /** A 64-bit value read as a signed number. */
  function Signed64(value: Word64): (d: int)
    ensures 0 - TWO_64 <= 2 * d < TWO_64
  {
    if 2 * value < TWO_64 then value else value - TWO_64
  }

  /** The check made before a value is stored: one bit more than the field has. */
  predicate Accepted(size: nat, value: Word64)
  {
    size >= 8 || 0 - Pow2(8 * size) <= Signed64(value) < Pow2(8 * size)
  }

  function StoreField(data: seq<Byte>, offset: nat, size: nat, value: Word64): (r: seq<Byte>)
    requires offset + size <= |data|
    ensures |r| == |data|
  {
    data[..offset] + LittleEndian(value, size) + data[offset + size..]
  }

  function X86Applied(size: nat, offset: nat, data: seq<Byte>, value: Word64): Option<seq<Byte>>
  {
    if offset + size > |data| || !Accepted(size, value) then None
    else Some(StoreField(data, offset, size, value))
  }

  /** Byte i of the field. */
  lemma {:induction false} FieldByte(value: Word64, size: nat, i: nat)
    requires i < size
    ensures LittleEndian(value, size)[i] == value / Pow2(8 * i) % 0x100
    decreases size
  {
    if i > 0 {
      FieldByte(value / 0x100, size - 1, i - 1);
      PowerStep(i - 1);
      DivideTwice(value, 0x100, Pow2(8 * (i - 1)));
    }
  }

  lemma PowerStep(i: nat)
    ensures Pow2(8 * (i + 1)) == 0x100 * Pow2(8 * i)
  {
    assert Pow2(8 * i + 8) == 2 * Pow2(8 * i + 7) == 4 * Pow2(8 * i + 6) == 8 * Pow2(8 * i + 5);
    assert Pow2(8 * i + 5) == 2 * Pow2(8 * i + 4) == 4 * Pow2(8 * i + 3) == 8 * Pow2(8 * i + 2);
    assert Pow2(8 * i + 2) == 2 * Pow2(8 * i + 1) == 4 * Pow2(8 * i);
  }

  lemma Regroup(a: int, b: int, q: int, r: int, t: int)
    ensures a * (b * q + r) + t == (a * b) * q + (a * r + t)
  {
    assert a * (b * q + r) == a * (b * q) + a * r;
    assert a * (b * q) == (a * b) * q;
  }

  lemma BelowProduct(a: int, b: int, r: int, t: int)
    requires 0 <= r < b && 0 <= t < a
    ensures 0 <= a * r + t < a * b
  {
    assert a * (r + 1) == a * r + a;
    assert 0 <= a * r && a * (r + 1) <= a * b;
  }

  /** Division and remainder by a product, one factor at a time. */
  lemma DivideTwice(x: nat, a: nat, b: nat)
    requires a > 0 && b > 0 && a * b > 0
    ensures x / a / b == x / (a * b)
    ensures x % a + a * (x / a % b) == x % (a * b)
  {
    var q, r, t := x / a / b, x / a % b, x % a;
    assert x == a * (x / a) + t && x / a == b * q + r;
    Regroup(a, b, q, r, t);
    BelowProduct(a, b, r, t);
    DivModUnique(x, a * b, q, a * r + t);
  }

  /** Stores the value byte by byte, unless it leaves the fragment or is out of range. */
  method X86ApplyFixup(data: array<Byte>, offset: nat, size: nat, value: Word64) returns (ok: bool)
    modifies data
    ensures ok == X86Applied(size, offset, old(data[..]), value).Some?
    ensures data[..] == if ok then X86Applied(size, offset, old(data[..]), value).value else old(data[..])
  {
    if offset + size > data.Length || !Accepted(size, value) {
      return false;
    }
    var i := 0;
    while i != size
      invariant 0 <= i <= size
      invariant forall k :: 0 <= k < i ==> data[offset + k] == LittleEndian(value, size)[k]
      invariant data[..offset] == old(data[..offset]) && data[offset + i..] == old(data[offset + i..])
    {
      FieldByte(value, size, i);
      data[offset + i] := value / Pow2(8 * i) % 0x100;
      assert data[offset + i + 1..] == old(data[offset + i..])[1..];
      i := i + 1;
    }
    assert data[offset..offset + size] == LittleEndian(value, size);
    assert data[..] == data[..offset] + data[offset..offset + size] + data[offset + size..];
    ok := true;
  }

  function FromLittleEndian(bytes: seq<Byte>): nat {
    if bytes == [] then 0 else bytes[0] + 0x100 * FromLittleEndian(bytes[1..])
  }

  /** A field as a processor extends it. */
  function SignExtended(bytes: seq<Byte>): int {
    var u := FromLittleEndian(bytes);
    if 2 * u < Pow2(8 * |bytes|) then u else u - Pow2(8 * |bytes|)
  }

  lemma {:induction false} FieldIsRemainder(value: Word64, size: nat)
    ensures FromLittleEndian(LittleEndian(value, size)) == value % Pow2(8 * size)
    decreases size
  {
    if size > 0 {
      FieldIsRemainder(value / 0x100, size - 1);
      PowerStep(size - 1);
      DivideTwice(value, 0x100, Pow2(8 * (size - 1)));
      assert LittleEndian(value, size)[1..] == LittleEndian(value / 0x100, size - 1);
    }
  }

  /** The remainder closest to zero is the number itself if that is within half the modulus. */
  lemma Centred(m: int, q: int, u: int, d: int)
    requires d == m * q + u && 0 <= u < m && 0 - m <= 2 * d < m
    ensures d == if 2 * u < m then u else u - m
  {
    Multiples(m, q);
  }

  lemma Multiples(m: int, q: int)
    requires m > 0
    ensures q >= 1 ==> m * q >= m
    ensures q <= -2 ==> m * q <= -2 * m
  {
    if q >= 1 {
      assert m * (q - 1) >= 0;
    } else if q <= -2 {
      assert m * (-2 - q) >= 0;
    }
  }

  lemma SignedRemainder(value: Word64, m: nat, c: nat)
    requires m > 0 && m * c == TWO_64
    ensures var u := value % m;
            (if 2 * u < m then u else u - m) == Signed64(value) <==> 0 - m <= 2 * Signed64(value) < m
  {
    var q, u, d := value / m, value % m, Signed64(value);
    if 0 - m <= 2 * d < m {
      if d == value {
        Centred(m, q, u, d);
      } else {
        assert m * (q - c) == m * q - m * c;
        Centred(m, q - c, u, d);
      }
    }
  }

  /**
   A processor reads back the value that was stored exactly when it fits the field as a signed
   number; the check lets twice that range through.
   */
  lemma FieldReadsBack(value: Word64, size: nat)
    requires size in {1, 2, 4, 8}
    ensures SignExtended(LittleEndian(value, size)) == Signed64(value) <==>
            0 - Pow2(8 * size) <= 2 * Signed64(value) < Pow2(8 * size)
  {
    FieldIsRemainder(value, size);
    Powers();
    SignedRemainder(value, Pow2(8 * size),
      match size case 1 => Pow2(56) case 2 => Pow2(48) case 4 => TWO_32 case _ => 1);
  }

  lemma Powers()
    ensures Pow2(8) == 0x100 && Pow2(16) == 0x1_0000 && Pow2(32) == TWO_32 && Pow2(64) == TWO_64
    ensures 0x100 * Pow2(56) == 0x1_0000 * Pow2(48) == TWO_64
  {
    PowerStep(0); PowerStep(1); PowerStep(2); PowerStep(3);
    PowerStep(4); PowerStep(5); PowerStep(6); PowerStep(7);
  }

  /** A jump over 2^31 bytes is accepted in a field of four bytes, and goes 2^31 bytes back. */
  lemma AcceptedButMisread()
    ensures Accepted(4, 0x8000_0000) && Signed64(0x8000_0000) == 0x8000_0000
    ensures SignExtended(LittleEndian(0x8000_0000, 4)) == -0x8000_0000
  {
    FieldIsRemainder(0x8000_0000, 4);
    Powers();
  }

  /** The backend applies fixups as on x86, into fields of `width` bytes. */
  ghost predicate AppliesLikeX86(backend: Backend, width: nat -> nat) {
    forall fixup, data, value: Word64, pcRel ::
      backend.applyFixup(fixup, data, value, pcRel)
      == X86Applied(width(fixup.kind), fixup.offset, data, value)
  }

  /** The fields of two fixups have no byte in common. */
  predicate Apart(width: nat -> nat, a: Fixup, b: Fixup) {
    a.offset + width(a.kind) <= b.offset || b.offset + width(b.kind) <= a.offset
  }

  /** No fixup after fixup j writes into its field. */
  ghost predicate ApartFromLater(width: nat -> nat, fixups: seq<Fixup>, j: nat, n: nat)
    requires j < n <= |fixups|
  {
    forall i :: j < i < n ==> Apart(width, fixups[j], fixups[i])
  }

  /** Bytes put into a fragment at some offset. */
  datatype Spot = Spot(at: nat, bytes: seq<Byte>)

  function Put(data: seq<Byte>, spot: Spot): (r: seq<Byte>)
    requires spot.at + |spot.bytes| <= |data|
    ensures |r| == |data|
  {
    data[..spot.at] + spot.bytes + data[spot.at + |spot.bytes|..]
  }

  /** Putting the bytes down turned `before` into `after`. */
  predicate WasPut(before: seq<Byte>, spot: Spot, after: seq<Byte>) {
    spot.at + |spot.bytes| <= |before| && after == Put(before, spot)
  }

  predicate Holds(data: seq<Byte>, spot: Spot) {
    spot.at + |spot.bytes| <= |data| && data[spot.at..spot.at + |spot.bytes|] == spot.bytes
  }

  lemma HoldsNow(before: seq<Byte>, spot: Spot, after: seq<Byte>)
    requires WasPut(before, spot, after)
    ensures Holds(after, spot)
  {
  }

  predicate SpotOf(width: nat -> nat, fixup: Fixup, spot: Spot) {
    spot.at == fixup.offset && |spot.bytes| == width(fixup.kind)
  }

  lemma AppliedIsPut(backend: Backend, width: nat -> nat, fixup: Fixup, before: seq<Byte>, value: Word64, pcRel: bool,
                     after: seq<Byte>)
    requires AppliesLikeX86(backend, width) && backend.applyFixup(fixup, before, value, pcRel) == Some(after)
    ensures WasPut(before, Spot(fixup.offset, LittleEndian(value, width(fixup.kind))), after)
    ensures Accepted(width(fixup.kind), value)
  {
  }

  /** Whatever fixes `before` to `after` puts bytes into the fixup's field. */
  lemma FixPuts(env: Env, width: nat -> nat, lays: seq<seq<Laid>>, section: nat, k: nat, fixup: Fixup,
                before: seq<Byte>, after: seq<Byte>)
    returns (spot: Spot)
    requires AppliesLikeX86(env.backend, width)
    requires Fixes(env, lays, section, k, fixup, before, Some(after))
    ensures SpotOf(width, fixup, spot) && WasPut(before, spot, after)
  {
    match AppliedValue(env, lays, section, k, fixup)
    case Unset =>
      var v: Word64, pcRel :| env.backend.applyFixup(fixup, before, v, pcRel) == Some(after);
      spot := Spot(fixup.offset, LittleEndian(v, width(fixup.kind)));
      AppliedIsPut(env.backend, width, fixup, before, v, pcRel, after);
    case Apply(v, pcRel) =>
      spot := Spot(fixup.offset, LittleEndian(v, width(fixup.kind)));
      AppliedIsPut(env.backend, width, fixup, before, v, pcRel, after);
  }

  /** Two contents agree on the field of a fixup. */
  predicate SameField(width: nat -> nat, fixup: Fixup, a: seq<Byte>, b: seq<Byte>) {
    && |a| == |b| && fixup.offset + width(fixup.kind) <= |a|
    && a[fixup.offset..fixup.offset + width(fixup.kind)] == b[fixup.offset..fixup.offset + width(fixup.kind)]
  }

  lemma SameFieldBeside(width: nat -> nat, fixup: Fixup, other: Fixup, spot: Spot, before: seq<Byte>, after: seq<Byte>)
    requires Apart(width, fixup, other) && SpotOf(width, other, spot) && WasPut(before, spot, after)
    requires fixup.offset + width(fixup.kind) <= |before|
    ensures SameField(width, fixup, before, after)
  {
  }

  /** A step puts bytes into the field of its fixup and leaves the others as they are. */
  ghost predicate FieldByField(width: nat -> nat, step: (Fixup, seq<Byte>, seq<Byte>) -> bool) {
    forall fixup, before, after :: step(fixup, before, after) ==>
      exists spot :: SpotOf(width, fixup, spot) && WasPut(before, spot, after)
  }

  lemma FixingByField(env: Env, width: nat -> nat, lays: seq<seq<Laid>>, section: nat, k: nat)
    requires AppliesLikeX86(env.backend, width)
    ensures FieldByField(width, Fixing(env, lays, section, k))
  {
    forall fixup, before, after | Fixing(env, lays, section, k)(fixup, before, after)
      ensures exists spot :: SpotOf(width, fixup, spot) && WasPut(before, spot, after)
    {
      var spot := FixPuts(env, width, lays, section, k, fixup, before, after);
    }
  }

  /** What fixup j puts into its field stays there, whatever the fixups after it do. */
  lemma {:induction false} FieldKept(width: nat -> nat, step: (Fixup, seq<Byte>, seq<Byte>) -> bool,
                                     fixups: seq<Fixup>, n: nat, before: seq<Byte>, after: seq<Byte>, j: nat)
    returns (from: seq<Byte>, to: seq<Byte>)
    requires j < n <= |fixups| && ApartFromLater(width, fixups, j, n)
    requires FieldByField(width, step) && Chain(step, fixups, n, before, after)
    ensures step(fixups[j], from, to) && SameField(width, fixups[j], to, after)
    decreases n
  {
    var mid := LastStep(step, fixups, n, before, after);
    var last :| SpotOf(width, fixups[n - 1], last) && WasPut(mid, last, after);
    if j == n - 1 {
      from, to := mid, after;
    } else {
      from, to := FieldKept(width, step, fixups, n - 1, before, mid, j);
      SameFieldBeside(width, fixups[j], fixups[n - 1], last, mid, after);
    }
  }

  /** A fixup for which the layout gives a value puts that value into its field. */
  lemma FixPutsValue(env: Env, width: nat -> nat, lays: seq<seq<Laid>>, section: nat, k: nat, fixup: Fixup,
                     before: seq<Byte>, after: seq<Byte>, value: Word64, pcRel: bool)
    requires AppliesLikeX86(env.backend, width) && Fixes(env, lays, section, k, fixup, before, Some(after))
    requires AppliedValue(env, lays, section, k, fixup) == Apply(value, pcRel)
    ensures Accepted(width(fixup.kind), value)
    ensures Holds(after, Spot(fixup.offset, LittleEndian(value, width(fixup.kind))))
  {
    AppliedIsPut(env.backend, width, fixup, before, value, pcRel, after);
    HoldsNow(before, Spot(fixup.offset, LittleEndian(value, width(fixup.kind))), after);
  }

  lemma PatchedField(env: Env, width: nat -> nat, lays: seq<seq<Laid>>, section: nat, k: nat, f: Shape, g: Shape,
                     j: nat, value: Word64, pcRel: bool)
    requires AppliesLikeX86(env.backend, width) && HasFixups(f) && Patched(env, lays, section, k, f, g)
    requires j < |f.fixups| && ApartFromLater(width, f.fixups, j, |f.fixups|)
    requires AppliedValue(env, lays, section, k, f.fixups[j]) == Apply(value, pcRel)
    ensures Accepted(width(f.fixups[j].kind), value) && HasFixups(g)
    ensures Holds(g.contents, Spot(f.fixups[j].offset, LittleEndian(value, width(f.fixups[j].kind))))
  {
    FixingByField(env, width, lays, section, k);
    var from, to := FieldKept(width, Fixing(env, lays, section, k), f.fixups, |f.fixups|, f.contents, g.contents, j);
    FixPutsValue(env, width, lays, section, k, f.fixups[j], from, to, value, pcRel);
  }

  lemma SpotStands(backend: Backend, spot: Spot, g: Shape, size: nat, position: int, file: seq<Byte>)
    requires HasFixups(g) && Holds(g.contents, spot) && StandsAt(backend, g, size, position, file)
    ensures var at := position + spot.at;
            0 <= at <= at + |spot.bytes| <= |file| && file[at..at + |spot.bytes|] == spot.bytes
  {
    SliceOfSlice(file, position, position + size, spot.at, spot.at + |spot.bytes|);
  }

  /**
   In the finished file: where fragment k stands with its fixups applied, the bytes named by
   fixup j are those of the value the layout gives it, unless a later fixup writes into them.
   */
  lemma FixupInFile(env: Env, width: nat -> nat, lays: seq<seq<Laid>>, section: nat, k: nat, f: Shape, g: Shape,
                    j: nat, value: Word64, pcRel: bool, size: nat, position: int, file: seq<Byte>)
    requires AppliesLikeX86(env.backend, width) && HasFixups(f) && Patched(env, lays, section, k, f, g)
    requires j < |f.fixups| && ApartFromLater(width, f.fixups, j, |f.fixups|)
    requires AppliedValue(env, lays, section, k, f.fixups[j]) == Apply(value, pcRel)
    requires StandsAt(env.backend, g, size, position, file)
    ensures var w, at := width(f.fixups[j].kind), position + f.fixups[j].offset;
            && Accepted(w, value)
            && 0 <= at <= at + w <= |file| && file[at..at + w] == LittleEndian(value, w)
  {
    PatchedField(env, width, lays, section, k, f, g, j, value, pcRel);
    SpotStands(env.backend, Spot(f.fixups[j].offset, LittleEndian(value, width(f.fixups[j].kind))), g, size, position,
      file);
  }

  /** The address `s` past the pc is the target. */
  predicate Meets(pc: int, s: int, target: int) {
    Wrap64(pc + s) == Wrap64(target)
  }

  /** The value fits a field of w bytes as a signed number. */
  predicate FitsSigned(value: Word64, w: nat)
  {
    0 - Pow2(8 * w) <= 2 * Signed64(value) < Pow2(8 * w)
  }

  /** Adding the signed value to the pc leads to the target, and no other number a field can hold does. */
  lemma Displaced(target: int, pc: int, s: int)
    requires 0 - TWO_64 <= 2 * s < TWO_64
    ensures Meets(pc, s, target) <==> s == Signed64(Wrap64(target - pc))
  {
  }

  lemma DistanceReadBack(target: int, pc: int, value: Word64, w: nat)
    requires value == Wrap64(target - pc) && w in {1, 2, 4, 8}
    ensures Meets(pc, SignExtended(LittleEndian(value, w)), target) <==> FitsSigned(value, w)
  {
    FieldReadsBack(value, w);
    FieldInRange(value, w);
    Displaced(target, pc, SignExtended(LittleEndian(value, w)));
  }

  /** A pc-relative reference to a label of the same section, which needs no relocation. */
  predicate IsJump(env: Env, section: nat, fixup: Fixup, id: nat, constant: int) {
    && fixup.value == Some(Target(Some(SymRef(true, id)), None, constant))
    && env.backend.isPCRel(fixup.kind) && !env.backend.isWeak(id)
    && SymbolOf(env, id).Label? && SymbolOf(env, id).loc.section == section
  }

  lemma JumpValue(env: Env, lays: seq<seq<Laid>>, section: nat, k: nat, fixup: Fixup, id: nat, constant: int, at: nat)
    returns (value: Word64, pc: int, target: int)
    requires IsJump(env, section, fixup, id, constant)
    requires forall value: Word64 :: env.backend.processFixupValue(fixup, value, true) == (value, true)
    requires LabelOffset(lays, Loc(section, k, 0)) == Some(at)
    ensures pc == PCOf(env, fixup, at) && target == constant + LabelValue(lays, SymbolOf(env, id).loc)
    ensures value == Wrap64(target - pc)
    ensures EvalFixup(env, lays, section, k, fixup) == Evaluated(value, true)
    ensures AppliedValue(env, lays, section, k, fixup) == Apply(value, true)
  {
    pc, target := PCOf(env, fixup, at), constant + LabelValue(lays, SymbolOf(env, id).loc);
    value := Wrap64(target - pc);
    assert ResolvedInitially(env, section, fixup);
    assert AfterSymA(env, lays, section, fixup) == Sum(target, true);
  }

  /** Added to the pc of the fixup, the field holding `bytes` gives the address of the label. */
  predicate Reaches(env: Env, lays: seq<seq<Laid>>, fixup: Fixup, id: nat, constant: int, at: nat, bytes: seq<Byte>)
    requires SymbolOf(env, id).Label?
  {
    Meets(PCOf(env, fixup, at), SignExtended(bytes), constant + LabelValue(lays, SymbolOf(env, id).loc))
  }

  /**
   Such a reference leads to the label, from the bytes put into its field, exactly when the
   distance fits the field as a signed number.
   */
  lemma JumpLands(env: Env, lays: seq<seq<Laid>>, section: nat, k: nat, fixup: Fixup, id: nat, constant: int,
                  at: nat, w: nat)
    returns (value: Word64, pc: int, target: int)
    requires IsJump(env, section, fixup, id, constant) && w in {1, 2, 4, 8}
    requires forall value: Word64 :: env.backend.processFixupValue(fixup, value, true) == (value, true)
    requires LabelOffset(lays, Loc(section, k, 0)) == Some(at)
    ensures pc == PCOf(env, fixup, at) && target == constant + LabelValue(lays, SymbolOf(env, id).loc)
    ensures value == Wrap64(target - pc) && AppliedValue(env, lays, section, k, fixup) == Apply(value, true)
    ensures Meets(pc, SignExtended(LittleEndian(value, w)), target) <==> FitsSigned(value, w)
  {
    value, pc, target := JumpValue(env, lays, section, k, fixup, id, constant, at);
    DistanceReadBack(target, pc, value, w);
  }

  lemma FieldInRange(value: Word64, w: nat)
    requires w in {1, 2, 4, 8}
    ensures 0 - TWO_64 <= 2 * SignExtended(LittleEndian(value, w)) < TWO_64
  {
    FieldIsRemainder(value, w);
    Powers();
  }

  /** The rules of x86: values are not adjusted, and what does not fit one signed byte is relaxed. */
  ghost predicate RelaxesLikeX86(backend: Backend) {
    && (forall fixup, value: Word64, resolved ::
          backend.processFixupValue(fixup, value, resolved) == (value, resolved))
    && (forall fixup, resolved, value: Word64 ::
          backend.fixupNeedsRelaxation(fixup, resolved, value)
          == (!resolved || Signed64(value) != SignExtended(LittleEndian(value, 1))))
  }

  /** Fixup j of a fragment that needs no relaxing is a jump in its short form. */
  predicate IsShortJump(env: Env, lays: seq<seq<Laid>>, section: nat, k: nat, f: Shape, j: nat, id: nat, constant: int)
  {
    && f.Relaxable? && env.backend.mayNeedRelaxation(f.inst) && !NeedsRelaxation(env, lays, section, k, f)
    && j < |f.fixups| && IsJump(env, section, f.fixups[j], id, constant)
  }

  /** A jump that did not need relaxing leads to its label from a field of one byte. */
  lemma ShortJumpLands(env: Env, lays: seq<seq<Laid>>, section: nat, k: nat, f: Shape, j: nat, id: nat, constant: int,
                       at: nat)
    returns (value: Word64)
    requires RelaxesLikeX86(env.backend) && IsShortJump(env, lays, section, k, f, j, id, constant)
    requires LabelOffset(lays, Loc(section, k, 0)) == Some(at)
    ensures AppliedValue(env, lays, section, k, f.fixups[j]) == Apply(value, true)
    ensures Reaches(env, lays, f.fixups[j], id, constant, at, LittleEndian(value, 1))
  {
    var pc, target;
    value, pc, target := JumpValue(env, lays, section, k, f.fixups[j], id, constant, at);
    assert !FixupOverflows(env, lays, section, k, f.fixups[j]);
    FieldInRange(value, 1);
    Displaced(target, pc, SignExtended(LittleEndian(value, 1)));
  }

  /**
   In a file laid out to the fixpoint, patched and written, a jump left short leads to its
   label: the byte that stands at its field, added to the pc, gives the label's address.
   */
  lemma ShortJumpInFile(env: Env, width: nat -> nat, lays: seq<seq<Laid>>, section: nat, k: nat, f: Shape, g: Shape,
                        j: nat, id: nat, constant: int, at: nat, size: nat, position: int, file: seq<Byte>)
    requires RelaxesLikeX86(env.backend) && IsShortJump(env, lays, section, k, f, j, id, constant)
    requires LabelOffset(lays, Loc(section, k, 0)) == Some(at) && width(f.fixups[j].kind) == 1
    requires AppliesLikeX86(env.backend, width) && ApartFromLater(width, f.fixups, j, |f.fixups|)
    requires Patched(env, lays, section, k, f, g) && StandsAt(env.backend, g, size, position, file)
    ensures var field := position + f.fixups[j].offset;
            0 <= field < |file| && Reaches(env, lays, f.fixups[j], id, constant, at, file[field..field + 1])
  {
    var value := ShortJumpLands(env, lays, section, k, f, j, id, constant, at);
    FixupInFile(env, width, lays, section, k, f, g, j, value, true, size, position, file);
  }
}
