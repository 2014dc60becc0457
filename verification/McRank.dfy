/** The termination measure of relaxation: the summed ranks of all relaxable instructions. */
module McRank {
  import opened McModel

  function FragmentRank(rank: Inst -> nat, f: Shape): nat {
    if f.Relaxable? then rank(f.inst) else 0
  }

  function SectionRank(rank: Inst -> nat, fs: seq<Shape>): nat {
    if fs == [] then 0 else SectionRank(rank, fs[..|fs| - 1]) + FragmentRank(rank, fs[|fs| - 1])
  }

  function TotalRank(rank: Inst -> nat, all: seq<seq<Shape>>): nat {
    if all == [] then 0 else TotalRank(rank, all[..|all| - 1]) + SectionRank(rank, all[|all| - 1])
  }

  lemma {:induction false} SectionRankUpdate(rank: Inst -> nat, fs: seq<Shape>, k: nat, f: Shape)
    requires k < |fs|
    ensures SectionRank(rank, fs[k := f]) == SectionRank(rank, fs) - FragmentRank(rank, fs[k]) + FragmentRank(rank, f)
  {
    var n := |fs| - 1;
    if k == n {
      assert fs[k := f][..n] == fs[..n];
    } else {
      SectionRankUpdate(rank, fs[..n], k, f);
      assert fs[k := f][..n] == fs[..n][k := f];
    }
  }

  lemma {:induction false} TotalRankUpdate(rank: Inst -> nat, all: seq<seq<Shape>>, s: nat, fs: seq<Shape>)
    requires s < |all|
    ensures TotalRank(rank, all[s := fs]) == TotalRank(rank, all) - SectionRank(rank, all[s]) + SectionRank(rank, fs)
  {
    var n := |all| - 1;
    if s == n {
      assert all[s := fs][..n] == all[..n];
    } else {
      TotalRankUpdate(rank, all[..n], s, fs);
      assert all[s := fs][..n] == all[..n][s := fs];
    }
  }

  /** Relaxing one instruction lowers the total rank. */
  lemma RelaxedRankDrops(rank: Inst -> nat, all: seq<seq<Shape>>, s: nat, k: nat, f: Shape)
    requires s < |all| && k < |all[s]| && FragmentRank(rank, f) < FragmentRank(rank, all[s][k])
    ensures TotalRank(rank, all[s := all[s][k := f]]) < TotalRank(rank, all)
  {
    SectionRankUpdate(rank, all[s], k, f);
    TotalRankUpdate(rank, all, s, all[s][k := f]);
  }
}
