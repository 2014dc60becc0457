/**
 Where the layout puts what follows a fragment, fragment kind by fragment kind: said of the places
 themselves, and not of how sizes are computed.
 */
module McPlaces {
  import opened Arith
  import opened McModel
  import opened McEager
  import opened McNops
  import opened McShift

  /** Fragment k of a section is laid out at `here`, and another one follows it. */
  ghost predicate Followed(env: Env, fs: seq<Shape>, k: nat, here: nat) {
    && AllLookBack(fs) && k + 1 < |fs| && k < |Eager(env, fs)|
    && here == Eager(env, fs)[k].Offset() && here != OFFSET_UNSET
  }

  /** The fragment after fragment k starts at `there`. */
  ghost predicate NextAt(env: Env, fs: seq<Shape>, k: nat, there: int) {
    k + 1 < |Eager(env, fs)| && Eager(env, fs)[k + 1].start == there
  }

  /** There is a next one exactly where there is a size, and it starts that much further on. */
  lemma NextBySize(env: Env, fs: seq<Shape>, k: nat, here: nat)
    requires Followed(env, fs, k, here)
    ensures var size := FragmentSize(env.backend, fs[k], Eager(env, fs), k);
            && (k + 1 < |Eager(env, fs)| <==> size.Some?)
            && (size.Some? ==> NextAt(env, fs, k, here + size.value))
  {
    var laid := Eager(env, fs);
    EagerIsLayout(env, fs);
    if k + 1 < |laid| {
      assert LaidAt(env, fs, laid, k + 1);
    }
  }

  /** The first fragment starts at the base address. */
  lemma FirstAtBase(env: Env, fs: seq<Shape>)
    requires AllLookBack(fs) && fs != []
    ensures |Eager(env, fs)| > 0 && Eager(env, fs)[0].start == env.base
  {
    var laid := Eager(env, fs);
    EagerIsLayout(env, fs);
    assert |laid| > 0 ==> LaidAt(env, fs, laid, 0);
  }

  lemma PaddingToMultiple(x: nat, a: nat, m: nat)
    requires a > 0 && m % a == 0 && x <= m < x + a
    ensures OffsetToAlignment(x, a) == m - x
  {
    AlignmentRoundsUp(x, a);
    var p := x + OffsetToAlignment(x, a);
    var q, r := p / a, m / a;
    assert p == a * q && m == a * r;
    assert a * (q - r) == a * q - a * r;
    SmallMultiple(a, q - r);
  }

  lemma {:induction false} GrowthIsFirst(size: nat, align: nat, nop: nat, tries: nat, steps: nat)
    requires nop > 0 && steps <= tries && EndsAfter(size, align, nop, steps)
    requires forall i: nat :: i < steps ==> !EndsAfter(size, align, nop, i)
    ensures GrowToNop(size, align, nop, tries) == Some(size + align * steps)
    decreases tries
  {
    assert size + align * 0 == size;
    if steps > 0 {
      assert !EndsAfter(size, align, nop, 0);
      StepsShift(size, align, nop);
      forall i: nat {:trigger EndsAfter(size + align, align, nop, i)} | i < steps - 1
        ensures !EndsAfter(size + align, align, nop, i)
      {
        assert !EndsAfter(size, align, nop, i + 1);
      }
      GrowthIsFirst(size + align, align, nop, tries - 1, steps - 1);
      assert align * steps == align + align * (steps - 1);
    }
  }

  /** Nops can fill the padding once it has grown by this many alignments, and not before. */
  ghost predicate Grows(f: Shape, nop: nat, padding: nat, steps: nat)
    requires f.Align? && nop > 0
  {
    if f.emitNops && padding > 0 then
      EndsAfter(padding, f.alignment, nop, steps) &&
      forall i: nat :: i < steps ==> !EndsAfter(padding, f.alignment, nop, i)
    else steps == 0
  }

  lemma GrownSize(f: Shape, nop: nat, padding: nat, steps: nat)
    requires f.Align? && nop > 0 && Grows(f, nop, padding, steps)
    ensures (if padding > 0 && f.emitNops then GrowToNop(padding, f.alignment, nop, nop) else Some(padding))
            == Some(padding + f.alignment * steps)
  {
    if f.emitNops && padding > 0 {
      Periodic(padding, f.alignment, nop, steps);
      assert steps % nop <= steps;
      assert steps < nop;
      GrowthIsFirst(padding, f.alignment, nop, nop, steps);
    } else {
      assert f.alignment * 0 == 0;
    }
  }

  /**
   After an alignment: at the least multiple of it not below where it stands, past as many more as
   nops need, if that is no more than the maximum further on; otherwise where it stands.
   */
  lemma AfterAlign(env: Env, fs: seq<Shape>, k: nat, here: nat, n: nat, multiple: nat, steps: nat)
    requires Followed(env, fs, k, here) && fs[k].Align? && env.backend.minNopSize > 0
    requires n <= 32 && fs[k].alignment == Pow2(n)
    requires multiple % Pow2(n) == 0 && here <= multiple < here + Pow2(n)
    requires Grows(fs[k], env.backend.minNopSize, multiple - here, steps)
    ensures var there := multiple + Pow2(n) * steps;
            NextAt(env, fs, k, if there - here <= fs[k].maxBytes then there else here)
  {
    TruncationHarmless(here, n);
    PaddingToMultiple(here, Pow2(n), multiple);
    GrownSize(fs[k], env.backend.minNopSize, multiple - here, steps);
    NextBySize(env, fs, k, here);
  }

  /** With nops of one byte that is the least multiple itself, or no padding at all. */
  lemma AfterAlignByByte(env: Env, fs: seq<Shape>, k: nat, here: nat, n: nat, multiple: nat)
    requires Followed(env, fs, k, here) && fs[k].Align? && env.backend.minNopSize == 1
    requires n <= 32 && fs[k].alignment == Pow2(n)
    requires multiple % Pow2(n) == 0 && here <= multiple < here + Pow2(n)
    ensures NextAt(env, fs, k, if multiple - here <= fs[k].maxBytes then multiple else here)
  {
    assert EndsAfter(multiple - here, fs[k].alignment, 1, 0);
    assert multiple + Pow2(n) * 0 == multiple;
    AfterAlign(env, fs, k, here, n, multiple, 0);
  }

  /** Where an `.org` leads: its constant, counted from its label if it has one. */
  ghost predicate LeadsTo(target: OrgTarget, laid: seq<Laid>, location: int) {
    match target.anchor
    case None => location == target.constant
    case Some((i, inside)) =>
      i < |laid| && laid[i].Offset() != OFFSET_UNSET && location == laid[i].Offset() + inside + target.constant
  }

  /** After an `.org`: at the location it names, unless that lies behind it or 2^30 bytes or more ahead. */
  lemma AfterOrg(env: Env, fs: seq<Shape>, k: nat, here: nat, location: int)
    requires Followed(env, fs, k, here) && fs[k].Org? && fs[k].target.Some?
    requires LeadsTo(fs[k].target.value, Eager(env, fs), location)
    ensures k + 1 < |Eager(env, fs)| <==> here <= location < here + 0x4000_0000
    ensures here <= location < here + 0x4000_0000 ==> NextAt(env, fs, k, location)
  {
    NextBySize(env, fs, k, here);
  }

  lemma LocationLeads(target: OrgTarget, laid: seq<Laid>)
    ensures OrgLocation(target, laid).Some? ==> LeadsTo(target, laid, OrgLocation(target, laid).value)
  {
  }

  /** Nothing follows an `.org` whose target has no value. */
  lemma AfterLostOrg(env: Env, fs: seq<Shape>, k: nat, here: nat)
    requires Followed(env, fs, k, here) && fs[k].Org?
    requires fs[k].target.None? || !exists location :: LeadsTo(fs[k].target.value, Eager(env, fs), location)
    ensures k + 1 == |Eager(env, fs)|
  {
    NextBySize(env, fs, k, here);
    if fs[k].target.Some? {
      LocationLeads(fs[k].target.value, Eager(env, fs));
    }
  }

  /** After any other fragment: as much further on as it has bytes. */
  lemma AfterOthers(env: Env, fs: seq<Shape>, k: nat, here: nat)
    requires Followed(env, fs, k, here) && !fs[k].Align? && !fs[k].Org?
    ensures fs[k].Fill? ==> NextAt(env, fs, k, here + fs[k].count)
    ensures fs[k].SafeSEH? ==> NextAt(env, fs, k, here + 4)
    ensures !fs[k].Fill? && !fs[k].SafeSEH? ==> NextAt(env, fs, k, here + |fs[k].contents|)
  {
    NextBySize(env, fs, k, here);
  }
}
