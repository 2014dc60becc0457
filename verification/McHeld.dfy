/**
 What a fragment of encoded instructions holds: the instructions and their places, the fixups
 rebased to them, the bundle groups merged into it, and the labels that name its bytes.
 */
module McHeld {
  import opened Arith
  import opened McModel
  import opened McEager
  import opened McImage
  import opened McBundle

  /** What the code emitter gives for one instruction; fixup offsets count from its first byte. */
  datatype Emission = Emission(code: seq<Byte>, fixups: seq<Fixup>)

  /** An instruction and where its first byte is. */
  datatype Placed = Placed(pos: nat, what: Emission)

  /** A bundle group merged into a fragment. */
  datatype Group = Group(pos: nat, size: nat, toEnd: bool)

  /** Fixup offsets are unsigned 32-bit values. */
  function Rebase(fixup: Fixup, base: nat): Fixup {
    fixup.(offset := (fixup.offset + base) % TWO_32)
  }

  function RebaseAll(fixups: seq<Fixup>, base: nat): seq<Fixup> {
    seq(|fixups|, i requires 0 <= i < |fixups| => Rebase(fixups[i], base))
  }

  /** The fixups of all placed instructions, in order, each counted from byte 0. */
  function Rebased(placed: seq<Placed>): seq<Fixup> {
    if placed == [] then []
    else
      var last := placed[|placed| - 1];
      Rebased(placed[..|placed| - 1]) + RebaseAll(last.what.fixups, last.pos)
  }

  /** The contents hold the instruction's bytes at its place. */
  predicate Holds(contents: seq<Byte>, p: Placed) {
    p.pos + |p.what.code| <= |contents| && contents[p.pos..p.pos + |p.what.code|] == p.what.code
  }

  predicate AllHold(contents: seq<Byte>, placed: seq<Placed>) {
    forall p {:trigger Holds(contents, p)} :: p in placed ==> Holds(contents, p)
  }

  function Shift(placed: seq<Placed>, base: nat): seq<Placed> {
    seq(|placed|, i requires 0 <= i < |placed| => Placed(placed[i].pos + base, placed[i].what))
  }

  /** Two instructions at the start of a group, behind others. */
  lemma TwoShifted(before: seq<Placed>, group: seq<Placed>, at: nat, a: Emission, b: Emission)
    requires group == [Placed(0, a), Placed(|a.code|, b)]
    ensures var all := before + Shift(group, at);
            |all| >= 2 && all[|all| - 2..] == [Placed(at, a), Placed(at + |a.code|, b)]
  {
  }

  function Emissions(placed: seq<Placed>): seq<Emission> {
    seq(|placed|, i requires 0 <= i < |placed| => placed[i].what)
  }

  /** The one instruction ends before the other starts. */
  predicate Before(a: Placed, b: Placed) {
    a.pos + |a.what.code| <= b.pos
  }

  predicate InOrder(placed: seq<Placed>) {
    forall i, j :: 0 <= i < j < |placed| ==> Before(placed[i], placed[j])
  }

  lemma RebaseTwice(fixups: seq<Fixup>, a: nat, b: nat)
    ensures RebaseAll(RebaseAll(fixups, a), b) == RebaseAll(fixups, a + b)
  {
    forall i | 0 <= i < |fixups|
      ensures ((fixups[i].offset + a) % TWO_32 + b) % TWO_32 == (fixups[i].offset + (a + b)) % TWO_32
    {
      var x := fixups[i].offset + a;
      ModAddMultiple(x % TWO_32 + b, TWO_32, x / TWO_32);
      assert x % TWO_32 + b + TWO_32 * (x / TWO_32) == x + b;
    }
  }

  /** Moving the instructions moves their fixups. */
  lemma {:induction false} RebasedShift(placed: seq<Placed>, base: nat)
    ensures Rebased(Shift(placed, base)) == RebaseAll(Rebased(placed), base)
  {
    if placed != [] {
      var n := |placed| - 1;
      RebasedShift(placed[..n], base);
      assert Shift(placed, base)[..n] == Shift(placed[..n], base);
      RebaseTwice(placed[n].what.fixups, placed[n].pos, base);
      var front, back := Rebased(placed[..n]), RebaseAll(placed[n].what.fixups, placed[n].pos);
      assert RebaseAll(front + back, base) == RebaseAll(front, base) + RebaseAll(back, base);
    }
  }

  lemma Associative(a: seq<Fixup>, b: seq<Fixup>, c: seq<Fixup>)
    ensures a + (b + c) == (a + b) + c
  {
  }

  lemma {:induction false} RebasedConcat(a: seq<Placed>, b: seq<Placed>)
    ensures Rebased(a + b) == Rebased(a) + Rebased(b)
  {
    if b == [] {
      assert a + b == a;
    } else {
      var n := |b| - 1;
      RebasedConcat(a, b[..n]);
      assert (a + b)[..|a + b| - 1] == a + b[..n];
      assert (a + b)[|a + b| - 1] == b[n];
      Associative(Rebased(a), Rebased(b[..n]), RebaseAll(b[n].what.fixups, b[n].pos));
    }
  }

  lemma {:induction false} RebasedAppend(placed: seq<Placed>, p: Placed)
    ensures Rebased(placed + [p]) == Rebased(placed) + RebaseAll(p.what.fixups, p.pos)
  {
    assert (placed + [p])[..|placed|] == placed;
  }

  lemma HoldsAfter(contents: seq<Byte>, more: seq<Byte>, placed: seq<Placed>)
    requires AllHold(contents, placed)
    ensures AllHold(contents + more, placed)
  {
    forall p | p in placed
      ensures Holds(contents + more, p)
    {
      assert Holds(contents, p);
      assert (contents + more)[p.pos..p.pos + |p.what.code|] == contents[p.pos..p.pos + |p.what.code|];
    }
  }

  /** Moving the instructions along with their bytes. */
  lemma HoldsShifted(before: seq<Byte>, contents: seq<Byte>, placed: seq<Placed>)
    requires AllHold(contents, placed)
    ensures AllHold(before + contents, Shift(placed, |before|))
  {
    forall i | 0 <= i < |placed|
      ensures Holds(before + contents, Shift(placed, |before|)[i])
    {
      var p, n := placed[i], |before|;
      assert Holds(contents, p);
      assert (before + contents)[p.pos + n..p.pos + n + |p.what.code|] == contents[p.pos..p.pos + |p.what.code|];
    }
  }

  /** Instructions appended behind the bytes of the earlier ones stay in order. */
  lemma InOrderAppend(contents: seq<Byte>, a: seq<Placed>, b: seq<Placed>)
    requires AllHold(contents, a)
    requires InOrder(a) && InOrder(b) && forall p :: p in b ==> p.pos >= |contents|
    ensures InOrder(a + b)
  {
    var c := a + b;
    forall i, j | 0 <= i < j < |c|
      ensures c[i].pos + |c[i].what.code| <= c[j].pos
    {
      if i < |a| <= j {
        assert Holds(contents, a[i]);
        assert b[j - |a|] in b;
      }
    }
  }

  lemma HoldsAppend(contents: seq<Byte>, placed: seq<Placed>, what: Emission)
    requires AllHold(contents, placed)
    ensures AllHold(contents + what.code, placed + [Placed(|contents|, what)])
  {
    HoldsAfter(contents, what.code, placed);
    assert Holds(contents + what.code, Placed(|contents|, what));
  }

  lemma EmissionsAppend(placed: seq<Placed>, p: Placed)
    ensures Emissions(placed + [p]) == Emissions(placed) + [p.what]
  {
  }

  /** What appending one instruction does to the invariant. */
  lemma AppendOne(contents: seq<Byte>, placed: seq<Placed>, what: Emission)
    requires AllHold(contents, placed) && InOrder(placed)
    ensures var more := placed + [Placed(|contents|, what)];
            && AllHold(contents + what.code, more) && InOrder(more)
            && Rebased(more) == Rebased(placed) + RebaseAll(what.fixups, |contents|)
            && Emissions(more) == Emissions(placed) + [what]
  {
    var p := Placed(|contents|, what);
    EmissionsAppend(placed, p);
    RebasedAppend(placed, p);
    HoldsAppend(contents, placed, what);
    InOrderAppend(contents, placed, [p]);
  }

  lemma HoldsMerged(before: seq<Byte>, a: seq<Placed>, contents: seq<Byte>, b: seq<Placed>)
    requires AllHold(before, a) && AllHold(contents, b)
    ensures AllHold(before + contents, a + Shift(b, |before|))
  {
    HoldsAfter(before, contents, a);
    HoldsShifted(before, contents, b);
  }

  lemma InOrderMerged(before: seq<Byte>, a: seq<Placed>, b: seq<Placed>)
    requires AllHold(before, a) && InOrder(a) && InOrder(b)
    ensures InOrder(a + Shift(b, |before|))
  {
    InOrderAppend(before, a, Shift(b, |before|));
  }

  lemma FixupsMerged(a: seq<Placed>, b: seq<Placed>, base: nat)
    ensures Rebased(a + Shift(b, base)) == Rebased(a) + RebaseAll(Rebased(b), base)
    ensures Emissions(a + Shift(b, base)) == Emissions(a) + Emissions(b)
  {
    RebasedShift(b, base);
    RebasedConcat(a, Shift(b, base));
  }

  /**
   In a fragment of at most 2^32 bytes a fixup of an instruction names the byte of the
   fragment that is the byte of the instruction it was made for; past that size it does not.
   */
  lemma FixupNamesItsByte(contents: seq<Byte>, p: Placed, i: nat)
    requires Holds(contents, p) && i < |p.what.fixups| && p.what.fixups[i].offset < |p.what.code|
    ensures var o, r := p.what.fixups[i].offset, RebaseAll(p.what.fixups, p.pos)[i].offset;
            && (r == p.pos + o <==> p.pos + o < TWO_32)
            && (p.pos + o < TWO_32 ==> contents[r] == p.what.code[o])
    ensures |RebaseAll(p.what.fixups, p.pos)| == |p.what.fixups|
    ensures RebaseAll(p.what.fixups, p.pos)[i].kind == p.what.fixups[i].kind
    ensures RebaseAll(p.what.fixups, p.pos)[i].value == p.what.fixups[i].value
  {
    var o := p.what.fixups[i].offset;
    assert contents[p.pos..p.pos + |p.what.code|][o] == contents[p.pos + o];
  }

  /** A fixup of an instruction at 2^32 names byte 0 of the fragment. */
  lemma FixupWrapsAround(kind: nat)
    ensures RebaseAll([Fixup(0, kind, None)], TWO_32)[0].offset == 0
  {
  }

  /** Where a label points: a fragment of the section, by number, and an offset into it. */
  datatype LabelPos = LabelPos(fragment: int, offset: nat)

  /** The first n pending labels are bound to one place. */
  function BindFirst(labels: map<nat, LabelPos>, pending: seq<nat>, n: nat, at: LabelPos): map<nat, LabelPos>
    requires n <= |pending|
  {
    if n == 0 then labels else BindFirst(labels, pending, n - 1, at)[pending[n - 1] := at]
  }

  /** Every pending label is bound to one place. */
  function Bind(labels: map<nat, LabelPos>, pending: seq<nat>, at: LabelPos): map<nat, LabelPos> {
    BindFirst(labels, pending, |pending|, at)
  }

  function MergeShape(contents: seq<Byte>, toEnd: bool): Shape {
    Data(contents, [], true, toEnd)
  }

  /** The padding put before a group merged at offset `at`, None when it is a fatal error. */
  function MergePadding(backend: Backend, bundle: nat, relaxAll: bool, code: seq<Byte>, toEnd: bool, at: nat)
    : Option<seq<Byte>>
  {
    if bundle == 0 || !relaxAll then Some([])
    else if |code| > bundle || BundlePadding(bundle, toEnd, at, |code|) > 0xFF then None
    else PaddingBytes(Env(backend, 0, bundle, relaxAll, []), MergeShape(code, toEnd),
                      BundlePadding(bundle, toEnd, at, |code|))
  }

  /**
   A group of at most a bundle is padded by the least padding that works, or refused if a byte cannot
   hold that; a larger one is refused; and without bundling, or unless all is relaxed, it is not padded.
   */
  lemma MergeRefused(backend: Backend, n: nat, bundle: nat, relaxAll: bool, code: seq<Byte>, toEnd: bool, at: nat,
                     p: nat)
    requires bundle == Pow2(n) <= 0x4000_0000
    ensures !relaxAll ==> MergePadding(backend, bundle, relaxAll, code, toEnd, at) == Some([])
    ensures relaxAll && |code| > bundle ==> MergePadding(backend, bundle, relaxAll, code, toEnd, at) == None
    ensures relaxAll && 1 <= |code| <= bundle && LeastPadding(bundle, toEnd, at, |code|, p) ==>
      MergePadding(backend, bundle, relaxAll, code, toEnd, at)
      == if p > 255 then None else NopPieces(backend, Pieces(bundle, toEnd, |code|, p))
    ensures MergePadding(backend, 0, relaxAll, code, toEnd, at) == Some([])
  {
    if relaxAll && 1 <= |code| <= bundle && LeastPadding(bundle, toEnd, at, |code|, p) {
      PaddingIsLeast(bundle, n, toEnd, at, |code|);
      OneLeast(bundle, toEnd, at, |code|, p, BundlePadding(bundle, toEnd, at, |code|));
    }
  }

  /** Where the bytes of a group merged at `at` start. */
  function MergeStart(backend: Backend, bundle: nat, code: seq<Byte>, toEnd: bool, at: nat): nat {
    match MergePadding(backend, bundle, true, code, toEnd, at)
    case Some(padding) => at + |padding|
    case None => at
  }

  /** Labels bound to a new fragment are not bound again when something is merged into it. */
  lemma BindThrough(labels: map<nat, LabelPos>, pending: seq<nat>, labels': map<nat, LabelPos>, pending': seq<nat>,
                    kept: bool, first: LabelPos, at: LabelPos)
    requires if kept then labels' == labels && pending' == pending
             else labels' == Bind(labels, pending, first) && pending' == []
    ensures Bind(labels', pending', at) == Bind(labels, pending, if kept then at else first)
  {
  }

  /**
   Labels waiting for a group that gets a fragment of its own are bound to offset 0. That is
   the first byte of the group unless it has to end with the bundle and is smaller than it.
   */
  lemma LabelsOfNewFragment(backend: Backend, bundle: nat, power: nat, code: seq<Byte>, toEnd: bool)
    requires NopsExact(backend) && power <= 30 && bundle == Pow2(power)
    requires MergePadding(backend, bundle, true, code, toEnd, 0).Some?
    ensures MergeStart(backend, bundle, code, toEnd, 0) == 0 <==> !(toEnd && |code| < bundle)
  {
    PowerBound(power);
    var env := Env(backend, 0, bundle, true, []);
    PaddingByRemainder(bundle, power, toEnd, 0, |code|);
    PaddingLength(env, MergeShape(code, toEnd), BundlePadding(bundle, toEnd, 0, |code|));
  }

  /**
   A one-byte group that must end with its bundle of 16 bytes: in a fragment of its own it
   stands at offset 15, and a label waiting for it names the padding at offset 0.
   */
  lemma LabelNamesPadding(backend: Backend)
    requires NopsExact(backend) && backend.writeNops(15).Some?
    ensures MergePadding(backend, 16, true, [0x90], true, 0).Some?
    ensures MergeStart(backend, 16, [0x90], true, 0) == 15
  {
    var env := Env(backend, 0, 16, true, []);
    assert BundlePadding(16, true, 0, 1) == 15;
    assert PaddingPieces(env, MergeShape([0x90], true), 15) == [15];
    FewPieces(backend, 15, 0);
  }

  datatype FragmentKind = DataKind | CompactKind | RelaxableKind

  /** What a fragment holds: its bytes, the instructions in them, and the groups merged into it. */
  datatype Held = Held(kind: FragmentKind, contents: seq<Byte>, placed: seq<Placed>, log: seq<Emission>,
                       groups: seq<Group>, toEnd: bool, hasInstructions: bool)

  function Nothing(kind: FragmentKind): Held {
    Held(kind, [], [], [], [], false, false)
  }

  function WithBytes(h: Held, bytes: seq<Byte>): Held {
    h.(contents := h.contents + bytes)
  }

  function WithInst(h: Held, what: Emission): Held {
    h.(contents := h.contents + what.code, placed := h.placed + [Placed(|h.contents|, what)], log := h.log + [what],
       hasInstructions := true)
  }

  function WithGroup(h: Held, g: Held): Held {
    h.(contents := h.contents + g.contents, placed := h.placed + Shift(g.placed, |h.contents|), log := h.log + g.log,
       groups := h.groups + [Group(|h.contents|, |g.contents|, g.toEnd)], hasInstructions := true)
  }

  /** An instruction on its own in a fragment. */
  function Alone(kind: FragmentKind, what: Emission): Held {
    Held(kind, what.code, [Placed(0, what)], [what], [], false, true)
  }

  /** The group g merged behind h, with padding between them. */
  function Behind(h: Held, padding: seq<Byte>, g: Held): Held {
    WithGroup(WithBytes(h, padding), g)
  }

  /** The group g merged behind h, with the padding its bundle asks for. */
  function Merge(backend: Backend, bundle: nat, h: Held, g: Held): Held {
    match MergePadding(backend, bundle, true, g.contents, g.toEnd, |h.contents|)
    case Some(padding) => Behind(h, padding, g)
    case None => h
  }

  /** The last fragment is h now, or h is a new one behind it. */
  function AtEnd(held: seq<Held>, kept: bool, h: Held): seq<Held> {
    if kept && held != [] then held[|held| - 1 := h] else held + [h]
  }

  /** Where labels bound to a group that is merged so point. */
  function PlaceIn(held: seq<Held>, kept: bool, h: Held, padding: seq<Byte>): LabelPos {
    if kept then LabelPos(|held| - 1, |h.contents| + |padding|) else LabelPos(|held|, 0)
  }

  /** The last group of a fragment is `g`, and its bytes are the last ones. */
  predicate EndsWith(h: Held, g: Held) {
    && h.groups != []
    && var last := h.groups[|h.groups| - 1];
       && last.toEnd == g.toEnd && last.size == |g.contents| && last.pos + last.size == |h.contents|
       && h.contents[last.pos..] == g.contents
  }

  /** A group merged at the end ends the last fragment, with its instructions behind the padding. */
  lemma GroupAtEnd(held: seq<Held>, kept: bool, h: Held, padding: seq<Byte>, g: Held)
    requires kept ==> held != []
    ensures var all, at := AtEnd(held, kept, Behind(h, padding, g).(toEnd := false)), PlaceIn(held, kept, h, padding);
            && |all| == at.fragment + 1 && EndsWith(all[at.fragment], g)
            && all[at.fragment].groups[|all[at.fragment].groups| - 1].pos == |h.contents| + |padding|
            && all[at.fragment].placed == h.placed + Shift(g.placed, |h.contents| + |padding|)
  {
  }

  lemma AtEndTwice(held: seq<Held>, kept: bool, h: Held, g: Held)
    ensures var once := AtEnd(held, kept, h);
            once != [] && once[|once| - 1] == h && AtEnd(once, true, g) == AtEnd(held, kept, g)
  {
  }

  /** No byte, no instruction and no group of a fragment has moved or gone. */
  predicate Longer(a: Held, b: Held) {
    a.kind == b.kind && a.contents <= b.contents && a.placed <= b.placed && a.groups <= b.groups
  }

  predicate AllLonger(a: seq<Held>, b: seq<Held>) {
    |a| <= |b| && forall k :: 0 <= k < |a| ==> Longer(a[k], b[k])
  }

  lemma MergeLonger(backend: Backend, bundle: nat, h: Held, g: Held)
    ensures Longer(h, Merge(backend, bundle, h, g))
  {
  }

  /** The instructions of the first n fragments, in order. */
  function LogTo(held: seq<Held>, n: nat): seq<Emission>
    requires n <= |held|
  {
    if n == 0 then [] else LogTo(held, n - 1) + held[n - 1].log
  }

  function Log(held: seq<Held>): seq<Emission> {
    LogTo(held, |held|)
  }

  lemma {:induction false} LogToSame(a: seq<Held>, b: seq<Held>, n: nat)
    requires n <= |a| && n <= |b| && forall k :: 0 <= k < n ==> a[k] == b[k]
    ensures LogTo(a, n) == LogTo(b, n)
  {
    if n > 0 {
      LogToSame(a, b, n - 1);
    }
  }

  /** The log grows by what the last fragment, or a new one, has been given. */
  lemma LogLonger(held: seq<Held>, kept: bool, h: Held, what: seq<Emission>)
    requires h.log == (if kept && held != [] then held[|held| - 1].log else []) + what
    ensures Log(AtEnd(held, kept, h)) == Log(held) + what
  {
    if kept && held != [] {
      var n := |held| - 1;
      LogToSame(held, held[n := h], n);
      assert (LogTo(held, n) + held[n].log) + what == LogTo(held, n) + (held[n].log + what);
    } else {
      LogToSame(held, held + [h], |held|);
    }
  }

  function LogOf(group: Option<Held>): seq<Emission> {
    if group.Some? then group.value.log else []
  }

  /** No merged group crosses a bundle boundary of its fragment, or each ends on one. */
  ghost predicate GroupsPlaced(groups: seq<Group>, bundle: nat) {
    forall g :: g in groups ==> MergedWell(bundle, g.toEnd, g.pos, g.size)
  }

  /** What merging `ef` into `df` with some padding between them does to the invariant. */
  lemma Merged(before: seq<Byte>, a: seq<Placed>, contents: seq<Byte>, b: seq<Placed>)
    requires AllHold(before, a) && InOrder(a) && AllHold(contents, b) && InOrder(b)
    ensures var all := a + Shift(b, |before|);
            && AllHold(before + contents, all) && InOrder(all)
            && Rebased(all) == Rebased(a) + RebaseAll(Rebased(b), |before|)
            && Emissions(all) == Emissions(a) + Emissions(b)
  {
    HoldsMerged(before, a, contents, b);
    InOrderMerged(before, a, b);
    FixupsMerged(a, b, |before|);
  }

  /** The padding has the length that places the group. */
  lemma MergePlaces(backend: Backend, bundle: nat, power: nat, code: seq<Byte>, toEnd: bool, at: nat)
    requires NopsExact(backend) && power <= 30 && bundle == Pow2(power) && |code| >= 1
    requires MergePadding(backend, bundle, true, code, toEnd, at).Some?
    ensures WellPlaced(bundle, toEnd, at + |MergePadding(backend, bundle, true, code, toEnd, at).value|, |code|)
  {
    PowerBound(power);
    var env := Env(backend, 0, bundle, true, []);
    PaddingLength(env, MergeShape(code, toEnd), BundlePadding(bundle, toEnd, at, |code|));
    PaddingIsLeast(bundle, power, toEnd, at, |code|);
  }

  lemma {:induction false} PowerBound(n: nat)
    requires n <= 30
    ensures Pow2(n) <= 0x4000_0000
  {
    PowerGrows(n, 30);
    assert Pow2(10) == 0x400;
    assert Pow2(15) == 0x8000;
    assert Pow2(20) == 0x10_0000;
    assert Pow2(25) == 0x200_0000;
    assert Pow2(30) == 0x4000_0000;
  }

  lemma {:induction false} PowerGrows(m: nat, n: nat)
    requires m <= n
    ensures Pow2(m) <= Pow2(n)
  {
    if m < n {
      PowerGrows(m, n - 1);
    }
  }

  predicate MergedWell(bundle: nat, toEnd: bool, at: nat, size: nat) {
    size >= 1 ==> bundle > 0 && WellPlaced(bundle, toEnd, at, size)
  }

  lemma GroupsPlacedAppend(groups: seq<Group>, bundle: nat, g: Group)
    requires GroupsPlaced(groups, bundle)
    requires MergedWell(bundle, g.toEnd, g.pos, g.size)
    ensures GroupsPlaced(groups + [g], bundle)
  {
  }

  predicate Covers(g: Group, p: Placed) {
    g.pos <= p.pos && p.pos + |p.what.code| <= g.pos + g.size
  }

  ghost predicate Covered(groups: seq<Group>, p: Placed) {
    exists g :: g in groups && Covers(g, p)
  }

  /** Every instruction is part of a merged group, and the fragment is not marked align_to_end. */
  ghost predicate InGroups(h: Held) {
    !h.toEnd && forall p {:trigger Covered(h.groups, p)} :: p in h.placed ==> Covered(h.groups, p)
  }

  ghost predicate AllInGroups(held: seq<Held>) {
    forall k :: 0 <= k < |held| ==> InGroups(held[k])
  }

  lemma BytesInGroups(h: Held, bytes: seq<Byte>)
    requires InGroups(h)
    ensures InGroups(WithBytes(h, bytes))
  {
    forall p | p in h.placed
      ensures Covered(WithBytes(h, bytes).groups, p)
    {
      assert Covered(h.groups, p);
    }
  }

  lemma CoveredStill(groups: seq<Group>, g: Group, p: Placed)
    requires Covered(groups, p)
    ensures Covered(groups + [g], p)
  {
    var c :| c in groups && Covers(c, p);
    assert c in groups + [g];
  }

  /** A group behind the others covers its own instructions. */
  lemma GroupInGroups(h: Held, g: Held)
    requires InGroups(h) && AllHold(g.contents, g.placed)
    ensures InGroups(WithGroup(h, g))
  {
    var base := |h.contents|;
    var last := Group(base, |g.contents|, g.toEnd);
    forall p | p in WithGroup(h, g).placed
      ensures Covered(h.groups + [last], p)
    {
      if p in h.placed {
        CoveredStill(h.groups, last, p);
      } else {
        var i :| 0 <= i < |g.placed| && p == Shift(g.placed, base)[i];
        assert Holds(g.contents, g.placed[i]);
        assert last in h.groups + [last] && Covers(last, p);
      }
    }
  }

  lemma MergeInGroups(backend: Backend, bundle: nat, h: Held, g: Held)
    requires InGroups(h) && AllHold(g.contents, g.placed)
    ensures InGroups(Merge(backend, bundle, h, g))
  {
    match MergePadding(backend, bundle, true, g.contents, g.toEnd, |h.contents|)
    case None =>
    case Some(padding) =>
      BytesInGroups(h, padding);
      GroupInGroups(WithBytes(h, padding), g);
  }

  /** An instruction of a well-placed group crosses no boundary of the fragment. */
  lemma InsideGroup(bundle: nat, g: Group, p: Placed)
    requires bundle > 0 && MergedWell(bundle, g.toEnd, g.pos, g.size) && Covers(g, p) && |p.what.code| >= 1
    ensures p.pos % bundle + |p.what.code| <= bundle
  {
    ModStep(g.pos, bundle, p.pos - g.pos);
  }

  /** What lies in a part of a bundle crosses no boundary. */
  lemma InsidePart(bundle: nat, start: nat, size: nat, at: nat, length: nat)
    requires bundle > 0 && start % bundle + size <= bundle && at + length <= size
    ensures !Crosses(bundle, start + at, length) || length == 0
  {
    ModStep(start, bundle, at);
  }

  function ShapeOf(h: Held): Shape {
    Data(h.contents, Rebased(h.placed), h.hasInstructions, h.toEnd)
  }

  /** The fragment fits into what is left of a bundle, or begins with a bundle. */
  lemma PlacedByLayout(env: Env, n: nat, h: Held, start: nat)
    requires env.bundle == Pow2(n) <= 0x100 && env.relaxAll && h.hasInstructions && !h.toEnd
    ensures var at := Place(env, ShapeOf(h), start).Offset();
            at % env.bundle == 0 || at % env.bundle + |h.contents| <= env.bundle
  {
    var bundle, size := env.bundle, |h.contents|;
    PaddingByRemainder(bundle, n, false, start, size);
    assert PaddingFrom(bundle, false, start % bundle, size) <= 0xFF;
    if start % bundle > 0 && start % bundle + size > bundle {
      ModStep(start, bundle, bundle - start % bundle);
    }
  }

  /**
   With every relaxation done, bundles of at most 256 bytes, and bundling on from the first
   instruction on: in the layout of the section no instruction crosses a bundle boundary, however
   large the fragment is.
   */
  lemma NoInstructionCrosses(env: Env, n: nat, fs: seq<Shape>, k: nat, h: Held, p: Placed)
    requires env.bundle == Pow2(n) <= 0x100 && env.relaxAll && AllLookBack(fs)
    requires k < |Eager(env, fs)| && fs[k] == ShapeOf(h)
    requires h.hasInstructions && AllHold(h.contents, h.placed) && GroupsPlaced(h.groups, env.bundle) && InGroups(h)
    requires p in h.placed && |p.what.code| >= 1
    ensures !Crosses(env.bundle, Eager(env, fs)[k].Offset() + p.pos, |p.what.code|)
  {
    EagerIsLayout(env, fs);
    assert LaidAt(env, fs, Eager(env, fs), k);
    var bundle, at := env.bundle, Eager(env, fs)[k].Offset();
    PlacedByLayout(env, n, h, Eager(env, fs)[k].start);
    assert Holds(h.contents, p) && Covered(h.groups, p);
    if at % bundle + |h.contents| <= bundle {
      InsidePart(bundle, at, |h.contents|, p.pos, |p.what.code|);
    } else {
      var g :| g in h.groups && Covers(g, p);
      InsideGroup(bundle, g, p);
      ModAddDivisible(p.pos, bundle, at);
    }
  }
}
