/**
 What the key schedule leaves in the tables, told by the tables alone: every pair of words is the
 pair before it, encrypted with the tables as they were when only the pairs so far were written.
 */
module BlowfishSchedule {
  import opened BlowfishCipher
  import opened BlowfishWords
  import opened BlowfishNumbers
  import opened Words32

  /** How many pairs the schedule writes. */
  const PAIRS: nat := 521

  /** The pair written k-th: first over the table, then over the boxes; pair 0 is two zeros. */
  function Written<W>(zero: W, p: seq<W>, s: seq<W>, k: nat): (W, W)
    requires |p| == 18 && |s| == 1024 && k <= PAIRS
  {
    if k == 0 then (zero, zero)
    else if k <= 9 then (p[2 * k - 2], p[2 * k - 1])
    else (s[2 * k - 20], s[2 * k - 19])
  }

  /** The table when k pairs are written. */
  function TableThen<W>(p: seq<W>, keyed: seq<W>, k: nat): (r: seq<W>)
    requires |p| == |keyed| == 18
    ensures |r| == 18
  {
    if k < 9 then p[..2 * k] + keyed[2 * k..] else p
  }

  /** The boxes when k pairs are written. */
  function BoxesThen<W>(s: seq<W>, initial: seq<W>, k: nat): (r: seq<W>)
    requires |s| == |initial| == 1024 && k <= PAIRS
    ensures |r| == 1024
  {
    if k < 9 then initial else s[..2 * k - 18] + initial[2 * k - 18..]
  }

  // Pairs written one after the other over a table.

  predicate Overwrites<W(==)>(table: nat -> seq<W>, pair: nat -> Pair<W>, i: nat) {
    && 2 * i + 2 <= |table(i)|
    && table(i + 1) == table(i)[2 * i := pair(i + 1).left][2 * i + 1 := pair(i + 1).right]
  }

  function Half<W>(pair: nat -> Pair<W>, j: nat): W {
    if j % 2 == 0 then pair(j / 2 + 1).left else pair(j / 2 + 1).right
  }

  lemma {:induction false} Overwritten<W>(table: nat -> seq<W>, pair: nat -> Pair<W>, n: nat)
    requires forall i :: 0 <= i < n ==> Overwrites(table, pair, i)
    ensures |table(n)| == |table(0)|
    ensures forall j :: 0 <= j < |table(0)| ==> table(n)[j] == if j < 2 * n then Half(pair, j) else table(0)[j]
  {
    if n > 0 {
      Overwritten(table, pair, n - 1);
      assert Overwrites(table, pair, n - 1);
    }
  }

  /** What n pairs leave of the table after k, and how the table after k follows from the last one. */
  lemma Between<W>(table: nat -> seq<W>, pair: nat -> Pair<W>, k: nat, n: nat)
    requires k <= n && 2 * n <= |table(0)| && forall i :: 0 <= i < n ==> Overwrites(table, pair, i)
    ensures |table(n)| == |table(0)| && table(k) == table(n)[..2 * k] + table(0)[2 * k..]
    ensures k > 0 ==> Pair(table(n)[2 * k - 2], table(n)[2 * k - 1]) == pair(k)
  {
    Overwritten(table, pair, k);
    Overwritten(table, pair, n);
    if k > 0 {
      var j := 2 * (k - 1);
      assert table(n)[j] == Half(pair, j) && table(n)[j + 1] == Half(pair, j + 1);
    }
  }

  lemma Tables<W>(ops: Ops<W>, t: Schedule<W>) returns (table: nat -> seq<W>, pair: nat -> Pair<W>)
    requires t.Valid()
    ensures forall i :: 0 <= i <= 9 ==> table(i) == FillP(ops, t, i).p && pair(i) == FillP(ops, t, i).x
    ensures forall i :: 0 <= i < 9 ==> Overwrites(table, pair, i)
  {
    table := (i: nat) => if i <= 9 then FillP(ops, t, i).p else [];
    pair := (i: nat) => if i <= 9 then FillP(ops, t, i).x else t.x;
    forall i | 0 <= i < 9
      ensures Overwrites(table, pair, i)
    {
      var u := FillP(ops, t, i);
      assert FillP(ops, t, i + 1) == TableStep(ops, u, i);
    }
  }

  lemma Boxes<W>(ops: Ops<W>, t: Schedule<W>) returns (boxes: nat -> seq<W>, pair: nat -> Pair<W>)
    requires t.Valid()
    ensures forall i :: 0 <= i <= 512 ==> boxes(i) == FillS(ops, t, i).s && pair(i) == FillS(ops, t, i).x
    ensures forall i :: 0 <= i < 512 ==> Overwrites(boxes, pair, i)
  {
    boxes := (i: nat) => if i <= 512 then FillS(ops, t, i).s else [];
    pair := (i: nat) => if i <= 512 then FillS(ops, t, i).x else t.x;
    forall i | 0 <= i < 512
      ensures Overwrites(boxes, pair, i)
    {
      var u := FillS(ops, t, i);
      assert FillS(ops, t, i + 1) == BoxStep(ops, u, i);
    }
  }

  /** The first table between the first and the last of its nine pairs. */
  lemma TableFilled<W>(ops: Ops<W>, t: Schedule<W>, k: nat)
    requires t.Valid() && k <= 9
    ensures var r := FillP(ops, t, 9); FillP(ops, t, k).p == r.p[..2 * k] + t.p[2 * k..]
    ensures var r := FillP(ops, t, 9); k > 0 ==> Pair(r.p[2 * k - 2], r.p[2 * k - 1]) == FillP(ops, t, k).x
  {
    var table, pair := Tables(ops, t);
    assert table(0) == t.p;
    Between(table, pair, k, 9);
  }

  /** The boxes between the first and the last of their 512 pairs. */
  lemma BoxesFilled<W>(ops: Ops<W>, t: Schedule<W>, k: nat)
    requires t.Valid() && k <= 512
    ensures var r := FillS(ops, t, 512); FillS(ops, t, k).s == r.s[..2 * k] + t.s[2 * k..]
    ensures var r := FillS(ops, t, 512); k > 0 ==> Pair(r.s[2 * k - 2], r.s[2 * k - 1]) == FillS(ops, t, k).x
  {
    var boxes, pair := Boxes(ops, t);
    assert boxes(0) == t.s;
    Between(boxes, pair, k, 512);
  }

  lemma {:induction false} TableKeepsBoxes<W>(ops: Ops<W>, t: Schedule<W>, n: nat)
    requires t.Valid() && n <= 9
    ensures FillP(ops, t, n).s == t.s
  {
    if n > 0 {
      TableKeepsBoxes(ops, t, n - 1);
    }
  }

  function Start<W>(ops: Ops<W>, key: seq<bv8>): (t: Schedule<W>)
    requires key != []
    ensures t.Valid()
  {
    Schedule(KeyedP(ops, key), InitialS(ops), Pair(ops.zero, ops.zero))
  }

  /** The schedule after k pairs. */
  function After<W>(ops: Ops<W>, key: seq<bv8>, k: nat): (t: Schedule<W>)
    requires key != [] && k <= PAIRS
    ensures t.Valid()
  {
    if k <= 9 then FillP(ops, Start(ops, key), k) else FillS(ops, FillP(ops, Start(ops, key), 9), k - 9)
  }

  lemma AfterNext<W>(ops: Ops<W>, key: seq<bv8>, k: nat)
    requires key != [] && k < PAIRS
    ensures After(ops, key, k + 1).x == NextPair(ops, After(ops, key, k))
  {
    if k == 9 {
      assert FillS(ops, FillP(ops, Start(ops, key), 9), 0) == FillP(ops, Start(ops, key), 9);
    }
  }

  /** What the tables say of the schedule after k pairs. */
  lemma AfterFew<W>(ops: Ops<W>, key: seq<bv8>, k: nat)
    requires key != [] && k <= 9
    ensures var t, u := KeySchedule(ops, key), After(ops, key, k);
            && u.p == TableThen(t.p, KeyedP(ops, key), k) && u.s == BoxesThen(t.s, InitialS(ops), k)
            && (u.x.left, u.x.right) == Written(ops.zero, t.p, t.s, k)
  {
    var start := Start(ops, key);
    var filled := FillP(ops, start, 9);
    FillSKeepsP(ops, filled, 512);
    TableFilled(ops, start, k);
    TableKeepsBoxes(ops, start, k);
    var t := KeySchedule(ops, key);
    assert t.s[..0] + InitialS(ops)[0..] == InitialS(ops);
    assert k == 9 ==> t.p[..18] + KeyedP(ops, key)[18..] == t.p;
  }

  lemma AfterMany<W>(ops: Ops<W>, key: seq<bv8>, k: nat)
    requires key != [] && 9 < k <= PAIRS
    ensures var t, u := KeySchedule(ops, key), After(ops, key, k);
            && u.p == TableThen(t.p, KeyedP(ops, key), k) && u.s == BoxesThen(t.s, InitialS(ops), k)
            && (u.x.left, u.x.right) == Written(ops.zero, t.p, t.s, k)
  {
    var start := Start(ops, key);
    var filled := FillP(ops, start, 9);
    FillSKeepsP(ops, filled, 512);
    FillSKeepsP(ops, filled, k - 9);
    TableKeepsBoxes(ops, start, 9);
    BoxesFilled(ops, filled, k - 9);
  }

  predicate Chained<W(==)>(ops: Ops<W>, p: seq<W>, s: seq<W>, keyed: seq<W>, initial: seq<W>, k: nat)
    requires |p| == |keyed| == 18 && |s| == |initial| == 1024 && k < PAIRS
  {
    var x, y := Written(ops.zero, p, s, k), Written(ops.zero, p, s, k + 1);
    Pair(y.0, y.1) == Crypt(ops, Mixer(ops, BoxesThen(s, initial, k)), TableThen(p, keyed, k), Pair(x.0, x.1))
  }

  predicate Told<W(==)>(ops: Ops<W>, t: Schedule<W>, key: seq<bv8>, u: Schedule<W>, k: nat)
    requires t.Valid() && key != [] && k <= PAIRS
  {
    && u.p == TableThen(t.p, KeyedP(ops, key), k) && u.s == BoxesThen(t.s, InitialS(ops), k)
    && (u.x.left, u.x.right) == Written(ops.zero, t.p, t.s, k)
  }

  lemma AfterIs<W>(ops: Ops<W>, key: seq<bv8>, k: nat)
    requires key != [] && k <= PAIRS
    ensures Told(ops, KeySchedule(ops, key), key, After(ops, key, k), k)
  {
    if k <= 9 {
      AfterFew(ops, key, k);
    } else {
      AfterMany(ops, key, k);
    }
  }

  lemma TellsNext<W>(ops: Ops<W>, t: Schedule<W>, key: seq<bv8>, u: Schedule<W>, v: Schedule<W>, k: nat)
    requires t.Valid() && u.Valid() && key != [] && k < PAIRS && v.x == NextPair(ops, u)
    requires Told(ops, t, key, u, k) && Told(ops, t, key, v, k + 1)
    ensures Chained(ops, t.p, t.s, KeyedP(ops, key), InitialS(ops), k)
  {
  }

  /** Each pair of the tables is the one before, encrypted with what the tables then were. */
  lemma ScheduleIsChained<W>(ops: Ops<W>, key: seq<bv8>, k: nat)
    requires key != [] && k < PAIRS
    ensures var t := KeySchedule(ops, key); Chained(ops, t.p, t.s, KeyedP(ops, key), InitialS(ops), k)
  {
    AfterIs(ops, key, k);
    AfterIs(ops, key, k + 1);
    AfterNext(ops, key, k);
    TellsNext(ops, KeySchedule(ops, key), key, After(ops, key, k), After(ops, key, k + 1), k);
  }

  // On numbers.

  /** Word i of the first table with the repeated key mixed in. */
  function KeyedNumber(key: seq<bv8>, i: nat): nat
    requires key != [] && i < 18
  {
    var m := |key|;
    XorOf(P_INIT[i] as nat,
      BigNumber([key[4 * i % m], key[(4 * i + 1) % m], key[(4 * i + 2) % m], key[(4 * i + 3) % m]]))
  }

  function KeyedNumbers(key: seq<bv8>): (numbers: seq<nat>)
    requires key != []
    ensures |numbers| == 18
  {
    seq(18, i requires 0 <= i < 18 => KeyedNumber(key, i))
  }

  lemma KeyedIs<W(!new)>(ops: Ops<W>, n: W -> nat, key: seq<bv8>, i: nat)
    requires Numeric(ops, n) && key != [] && i < 18 && n(ops.pInit(i)) == P_INIT[i] as nat
    ensures n(KeyedP(ops, key)[i]) == KeyedNumber(key, i)
  {
    var bytes := [Cyclic(key, 4 * i), Cyclic(key, 4 * i + 1), Cyclic(key, 4 * i + 2), Cyclic(key, 4 * i + 3)];
    assert Loads(ops, n, bytes) && Xors(ops, n, ops.pInit(i), ops.fromBytes(bytes));
  }

  lemma InitialIs(n: bv32 -> nat, i: nat)
    requires i < 18 && forall x {:trigger IsNumber(n, x)} :: IsNumber(n, x)
    ensures n(OPS.pInit(i)) == P_INIT[i] as nat
  {
    assert IsNumber(n, P_INIT[i]);
  }

  predicate NumbersChained(p: seq<nat>, s: seq<nat>, keyed: seq<nat>, initial: seq<nat>, k: nat)
    requires |p| == |keyed| == 18 && |s| == |initial| == 1024 && k < PAIRS
  {
    var x, y := Written(0, p, s, k), Written(0, p, s, k + 1);
    TwoNumbers(y.0, y.1) == NumberCrypt(TableThen(p, keyed, k), BoxesThen(s, initial, k), TwoNumbers(x.0, x.1))
  }

  lemma TableNumbers<W>(n: W -> nat, p: seq<W>, q: seq<nat>, keyed: seq<W>, kq: seq<nat>, k: nat)
    requires SameNumbers(n, p, q) && SameNumbers(n, keyed, kq) && |q| == |kq| == 18
    ensures SameNumbers(n, TableThen(p, keyed, k), TableThen(q, kq, k))
  {
  }

  lemma BoxNumbers<W>(n: W -> nat, s: seq<W>, t: seq<nat>, initial: seq<W>, it: seq<nat>, k: nat)
    requires SameNumbers(n, s, t) && SameNumbers(n, initial, it) && |t| == |it| == 1024 && k <= PAIRS
    ensures SameNumbers(n, BoxesThen(s, initial, k), BoxesThen(t, it, k))
  {
  }

  lemma PairNumbers<W>(n: W -> nat, zero: W, p: seq<W>, q: seq<nat>, s: seq<W>, t: seq<nat>, k: nat)
    requires SameNumbers(n, p, q) && SameNumbers(n, s, t) && |q| == 18 && |t| == 1024 && k <= PAIRS && n(zero) == 0
    ensures var x := Written(zero, p, s, k); (n(x.0), n(x.1)) == Written(0, q, t, k)
  {
  }

  lemma ChainIs<W(!new)>(
      ops: Ops<W>, n: W -> nat, p: seq<W>, q: seq<nat>, s: seq<W>, t: seq<nat>, keyed: seq<W>, kq: seq<nat>,
      initial: seq<W>, it: seq<nat>, k: nat)
    requires Numeric(ops, n) && SameNumbers(n, p, q) && SameNumbers(n, keyed, kq) && |q| == |kq| == 18
    requires SameNumbers(n, s, t) && SameNumbers(n, initial, it) && |t| == |it| == 1024
    requires k < PAIRS && Chained(ops, p, s, keyed, initial, k)
    ensures NumbersChained(q, t, kq, it, k)
  {
    var x := Written(ops.zero, p, s, k);
    TableNumbers(n, p, q, keyed, kq, k);
    BoxNumbers(n, s, t, initial, it, k);
    PairNumbers(n, ops.zero, p, q, s, t, k);
    PairNumbers(n, ops.zero, p, q, s, t, k + 1);
    CryptIs(ops, n, TableThen(p, keyed, k), TableThen(q, kq, k), BoxesThen(s, initial, k), BoxesThen(t, it, k),
      Pair(x.0, x.1));
  }

  lemma KeyedAre(n: bv32 -> nat, key: seq<bv8>)
    requires Numeric(OPS, n) && key != []
    requires forall x {:trigger IsNumber(n, x)} :: IsNumber(n, x)
    ensures SameNumbers(n, KeyedP(OPS, key), KeyedNumbers(key))
  {
    forall i | 0 <= i < 18
      ensures n(KeyedP(OPS, key)[i]) == KeyedNumbers(key)[i]
    {
      InitialIs(n, i);
      KeyedIs(OPS, n, key, i);
    }
  }

  /** The tables of a key, as the chain on numbers that starts from two zeros. */
  lemma ScheduleInNumbers(key: seq<bv8>, k: nat)
    requires key != [] && k < PAIRS
    ensures var t := KeySchedule(OPS, key);
            NumbersChained(WordNumbers(t.p), WordNumbers(t.s), KeyedNumbers(key), WordNumbers(InitialS(OPS)), k)
  {
    var n := OpsAreNumeric();
    var t := KeySchedule(OPS, key);
    KeyedAre(n, key);
    WordNumbersAre(n, t.p);
    WordNumbersAre(n, t.s);
    WordNumbersAre(n, InitialS(OPS));
    ScheduleIsChained(OPS, key, k);
    ChainIs(OPS, n, t.p, WordNumbers(t.p), t.s, WordNumbers(t.s), KeyedP(OPS, key), KeyedNumbers(key),
      InitialS(OPS), WordNumbers(InitialS(OPS)), k);
  }

  predicate ChainedUpTo(p: seq<nat>, s: seq<nat>, keyed: seq<nat>, initial: seq<nat>, k: nat)
    requires |p| == |keyed| == 18 && |s| == |initial| == 1024 && k <= PAIRS
  {
    forall i :: 0 <= i < k ==> NumbersChained(p, s, keyed, initial, i)
  }

  /** Nothing tells the tables apart when k pairs are written. */
  predicate AlikeThen(p: seq<nat>, s: seq<nat>, q: seq<nat>, t: seq<nat>, keyed: seq<nat>, initial: seq<nat>, k: nat)
    requires |p| == |q| == |keyed| == 18 && |s| == |t| == |initial| == 1024 && k <= PAIRS
  {
    && TableThen(p, keyed, k) == TableThen(q, keyed, k) && BoxesThen(s, initial, k) == BoxesThen(t, initial, k)
    && Written(0, p, s, k) == Written(0, q, t, k)
  }

  lemma NextIsUnique(p: seq<nat>, s: seq<nat>, q: seq<nat>, t: seq<nat>, keyed: seq<nat>, initial: seq<nat>, k: nat)
    requires |p| == |q| == |keyed| == 18 && |s| == |t| == |initial| == 1024 && k < PAIRS
    requires ChainedUpTo(p, s, keyed, initial, PAIRS) && ChainedUpTo(q, t, keyed, initial, PAIRS)
    requires AlikeThen(p, s, q, t, keyed, initial, k)
    ensures Written(0, p, s, k + 1) == Written(0, q, t, k + 1)
  {
    assert NumbersChained(p, s, keyed, initial, k) && NumbersChained(q, t, keyed, initial, k);
  }

  /** The pair written next is all that changes. */
  lemma ThenNext(p: seq<nat>, s: seq<nat>, keyed: seq<nat>, initial: seq<nat>, k: nat)
    requires |p| == |keyed| == 18 && |s| == |initial| == 1024 && k < PAIRS
    ensures var x := Written(0, p, s, k + 1);
            && TableThen(p, keyed, k + 1) == (if k >= 9 then TableThen(p, keyed, k)
                                              else TableThen(p, keyed, k)[2 * k := x.0][2 * k + 1 := x.1])
            && BoxesThen(s, initial, k + 1) == (if k < 9 then BoxesThen(s, initial, k)
                                                else BoxesThen(s, initial, k)[2 * k - 18 := x.0][2 * k - 17 := x.1])
  {
    if k < 9 {
      assert s[..0] + initial[0..] == initial && p[..18] + keyed[18..] == p;
    }
  }

  /** There are no other tables that chain this way. */
  lemma {:induction false} ChainIsUnique(p: seq<nat>, s: seq<nat>, q: seq<nat>, t: seq<nat>, keyed: seq<nat>,
                                         initial: seq<nat>, k: nat)
    requires |p| == |q| == |keyed| == 18 && |s| == |t| == |initial| == 1024 && k <= PAIRS
    requires ChainedUpTo(p, s, keyed, initial, PAIRS) && ChainedUpTo(q, t, keyed, initial, PAIRS)
    ensures AlikeThen(p, s, q, t, keyed, initial, k)
  {
    if k > 0 {
      ChainIsUnique(p, s, q, t, keyed, initial, k - 1);
      NextIsUnique(p, s, q, t, keyed, initial, k - 1);
      ThenNext(p, s, keyed, initial, k - 1);
      ThenNext(q, t, keyed, initial, k - 1);
    } else {
      assert p[..0] + keyed[0..] == keyed && q[..0] + keyed[0..] == keyed;
    }
  }

  /** So the tables of a key are the only ones that chain this way. */
  lemma OnlyTables(key: seq<bv8>, p: seq<nat>, s: seq<nat>)
    requires key != [] && |p| == 18 && |s| == 1024
    requires ChainedUpTo(p, s, KeyedNumbers(key), WordNumbers(InitialS(OPS)), PAIRS)
    ensures var t := KeySchedule(OPS, key); p == WordNumbers(t.p) && s == WordNumbers(t.s)
  {
    var t := KeySchedule(OPS, key);
    var q, u, keyed, initial := WordNumbers(t.p), WordNumbers(t.s), KeyedNumbers(key), WordNumbers(InitialS(OPS));
    forall i | 0 <= i < PAIRS
      ensures NumbersChained(q, u, keyed, initial, i)
    {
      ScheduleInNumbers(key, i);
    }
    AllWritten(p, s, q, u, keyed, initial);
  }

  lemma AllWritten(p: seq<nat>, s: seq<nat>, q: seq<nat>, t: seq<nat>, keyed: seq<nat>, initial: seq<nat>)
    requires |p| == |q| == |keyed| == 18 && |s| == |t| == |initial| == 1024
    requires ChainedUpTo(p, s, keyed, initial, PAIRS) && ChainedUpTo(q, t, keyed, initial, PAIRS)
    ensures p == q && s == t
  {
    ChainIsUnique(p, s, q, t, keyed, initial, PAIRS);
    assert s[..1024] + initial[1024..] == s && t[..1024] + initial[1024..] == t;
  }

  // Where the entries of the boxes stand in the tables of the engine.

  lemma Place(box: nat, row: nat, column: nat)
    requires box < 4 && row < 32 && column < 8
    ensures var i := 256 * box + 8 * row + column; i / 256 == box && i % 256 / 8 == row && i % 8 == column
  {
  }

  predicate RowsOfEight(rows: seq<seq<bv32>>) {
    |rows| == 32 && forall r :: 0 <= r < 32 ==> |rows[r]| == 8
  }

  lemma RowsAre(box: nat)
    ensures RowsOfEight(Rows(box))
  {
  }

  lemma EntryIs(rows: seq<seq<bv32>>, row: nat, column: nat)
    requires RowsOfEight(rows) && row < 32 && column < 8
    ensures RowEntry(rows, row, column) == rows[row][column]
  {
  }

  lemma InitialIsInit<W>(ops: Ops<W>, i: nat)
    requires i < 1024
    ensures InitialS(ops)[i] == ops.sInit(i)
  {
  }

  lemma InitialEntry(i: nat, rows: seq<seq<bv32>>)
    requires i < 1024 && rows == Rows(i / 256)
    ensures OPS.sInit(i) == RowEntry(rows, i % 256 / 8, i % 8)
  {
  }

  lemma BoxEntries(box: nat, row: nat, column: nat)
    requires box < 4 && row < 32 && column < 8
    ensures RowsOfEight(Rows(box))
    ensures InitialS(OPS)[256 * box + 8 * row + column] == Rows(box)[row][column]
  {
    RowsAre(box);
    Place(box, row, column);
    InitialIsInit(OPS, 256 * box + 8 * row + column);
    InitialEntry(256 * box + 8 * row + column, Rows(box));
    EntryIs(Rows(box), row, column);
  }
}
