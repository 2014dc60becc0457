/**
 The cipher byte by byte: what encryption makes of a block with any round keys, and what the bytes
 of the round keys are. Byte j of column i stands at 4 i + j.
 */
module AesRounds {
  import opened AesBytes
  import opened AesCipher
  import opened AesField

  /** Sums, the substitution, a row of the matrix, and the powers of x. */
  datatype Parts<!W> = Parts(plus: (W, W) -> W, box: W -> W, row: (W, W, W, W) -> W, power: nat -> W)

  /** Byte j of column i after substitution and shift: row j comes j columns further on. */
  function Moved<W>(f: Parts<W>, t: seq<W>, i: nat, j: nat): W
    requires |t| == SIZE
  {
    f.box(t[4 * ((i + 4 - j % 4) % 4) + j % 4])
  }

  /** Byte j of column i after a full round. */
  function RoundByte<W>(f: Parts<W>, t: seq<W>, key: seq<W>, i: nat, j: nat): W
    requires |t| == SIZE && |key| == SIZE && i < 4 && j < 4
  {
    f.plus(f.row(Moved(f, t, i, j), Moved(f, t, i, j + 1), Moved(f, t, i, j + 2), Moved(f, t, i, j + 3)),
           key[4 * i + j])
  }

  /** The last round does not mix. */
  function LastByte<W>(f: Parts<W>, t: seq<W>, key: seq<W>, i: nat, j: nat): W
    requires |t| == SIZE && |key| == SIZE && i < 4 && j < 4
  {
    f.plus(Moved(f, t, i, j), key[4 * i + j])
  }

  function RoundBlock<W>(f: Parts<W>, t: seq<W>, key: seq<W>): (r: seq<W>)
    requires |t| == SIZE && |key| == SIZE
    ensures |r| == SIZE
  {
    seq(SIZE, b requires 0 <= b < SIZE => RoundByte(f, t, key, b / 4, b % 4))
  }

  function LastBlock<W>(f: Parts<W>, t: seq<W>, key: seq<W>): (r: seq<W>)
    requires |t| == SIZE && |key| == SIZE
    ensures |r| == SIZE
  {
    seq(SIZE, b requires 0 <= b < SIZE => LastByte(f, t, key, b / 4, b % 4))
  }

  /** The block after the first key and n full rounds. */
  function BlockAfter<W>(f: Parts<W>, keys: seq<State<W>>, m: seq<W>, n: nat): (t: seq<W>)
    requires KeysOk(keys) && |m| == SIZE && n < N_ROUNDS
    ensures |t| == SIZE
  {
    if n == 0 then seq(SIZE, b requires 0 <= b < SIZE => f.plus(m[b], keys[0][b]))
    else RoundBlock(f, BlockAfter(f, keys, m, n - 1), keys[n])
  }

  /** The encrypted block. */
  function EncryptedBlock<W>(f: Parts<W>, keys: seq<State<W>>, m: seq<W>): (c: seq<W>)
    requires KeysOk(keys) && |m| == SIZE
    ensures |c| == SIZE
  {
    LastBlock(f, BlockAfter(f, keys, m, N_ROUNDS - 1), keys[N_ROUNDS])
  }

  /** Byte j of what the column before column i gives, `n` columns to a key. */
  function CoreOf<W>(f: Parts<W>, n: nat, i: nat, w: seq<W>, j: nat): W
    requires 0 < n <= i && |w| == 4 && j < 4
  {
    if i % n == 0 then
      var turned := f.box(w[(j + 1) % 4]);
      if j == 0 then f.plus(turned, f.power(i / n - 1)) else turned
    else if n == 8 && i % n == 4 then f.box(w[j])
    else w[j]
  }

  function NextColumn<W>(f: Parts<W>, n: nat, i: nat, w: seq<W>, v: seq<W>): (r: seq<W>)
    requires 0 < n <= i && |w| == |v| == 4
    ensures |r| == 4
  {
    seq(4, j requires 0 <= j < 4 => f.plus(CoreOf(f, n, i, w, j), v[j]))
  }

  /** Column i of the expanded key. */
  function ColumnOfKey<W>(f: Parts<W>, key: seq<W>, i: nat): (w: seq<W>)
    requires KeySize(|key|)
    ensures |w| == 4
  {
    var n := |key| / 4;
    if i < n then key[4 * i..4 * i + 4]
    else NextColumn(f, n, i, ColumnOfKey(f, key, i - 1), ColumnOfKey(f, key, i - n))
  }

  function KeyOf<W>(f: Parts<W>, key: seq<W>, r: nat): (t: State<W>)
    requires KeySize(|key|)
    ensures |t| == SIZE
  {
    ColumnOfKey(f, key, 4 * r) + ColumnOfKey(f, key, 4 * r + 1) + ColumnOfKey(f, key, 4 * r + 2)
        + ColumnOfKey(f, key, 4 * r + 3)
  }

  function KeysOf<W>(f: Parts<W>, key: seq<W>): (keys: seq<State<W>>)
    requires KeySize(|key|)
    ensures KeysOk(keys)
  {
    seq(N_ROUNDS + 1, r requires 0 <= r <= N_ROUNDS => KeyOf(f, key, r))
  }

  // The operations of the cipher are made of such parts.

  predicate SameSum<W(==)>(k: Field<W>, f: Parts<W>, a: W, b: W) {
    k.xor(a, b) == f.plus(a, b)
  }

  predicate SameBox<W(==)>(k: Field<W>, f: Parts<W>, a: W) {
    k.sub(a) == f.box(a)
  }

  predicate SameMix<W(==)>(k: Field<W>, f: Parts<W>, a: Col<W>) {
    MixCol(k, a) == Col(f.row(a.c0, a.c1, a.c2, a.c3), f.row(a.c1, a.c2, a.c3, a.c0),
                        f.row(a.c2, a.c3, a.c0, a.c1), f.row(a.c3, a.c0, a.c1, a.c2))
  }

  ghost predicate MadeOf<W(!new)>(k: Field<W>, f: Parts<W>) {
    && (forall a, b {:trigger SameSum(k, f, a, b)} :: SameSum(k, f, a, b))
    && (forall a {:trigger SameBox(k, f, a)} :: SameBox(k, f, a))
    && (forall a {:trigger SameMix(k, f, a)} :: SameMix(k, f, a))
    && (forall i: nat {:trigger f.power(i)} :: i < 31 ==> k.rcon(i + 1) == f.power(i))
  }

  lemma ShiftedByte<W>(g: W -> W, t: seq<W>, i: nat, j: nat)
    requires |t| == SIZE && i < 4 && j < 4
    ensures ShiftState(SubState(g, t))[4 * i + j] == g(t[4 * ((i + 4 - j) % 4) + j])
  {
    ShiftsAreSwapped(SubState(g, t), i, j);
  }

  lemma ScrambledByte<W(!new)>(k: Field<W>, f: Parts<W>, t: seq<W>, i: nat, j: nat)
    requires MadeOf(k, f) && |t| == SIZE && i < 4 && j < 4
    ensures Scramble(k, t)[4 * i + j] == Moved(f, t, i, j)
  {
    assert j % 4 == j;
    ShiftedByte(k.sub, t, i, j);
    assert SameBox(k, f, t[4 * ((i + 4 - j) % 4) + j]);
  }

  lemma MovedAround<W>(f: Parts<W>, t: seq<W>, i: nat, j: nat)
    requires |t| == SIZE
    ensures Moved(f, t, i, j + 4) == Moved(f, t, i, j)
  {
  }

  lemma MixedColumn<W(!new)>(k: Field<W>, f: Parts<W>, t: seq<W>, i: nat) returns (a: Col<W>)
    requires MadeOf(k, f) && |t| == SIZE && i < 4
    ensures a == Col(Moved(f, t, i, 0), Moved(f, t, i, 1), Moved(f, t, i, 2), Moved(f, t, i, 3))
    ensures Column(Scramble(k, t), i) == a
  {
    a := Column(Scramble(k, t), i);
    ScrambledByte(k, f, t, i, 0);
    ScrambledByte(k, f, t, i, 1);
    ScrambledByte(k, f, t, i, 2);
    ScrambledByte(k, f, t, i, 3);
  }

  function Part<W>(c: Col<W>, j: nat): W
    requires j < 4
  {
    if j == 0 then c.c0 else if j == 1 then c.c1 else if j == 2 then c.c2 else c.c3
  }

  lemma ColumnsByte<W>(a: Col<W>, b: Col<W>, c: Col<W>, d: Col<W>, i: nat, j: nat)
    requires i < 4 && j < 4
    ensures Columns(a, b, c, d)[4 * i + j] == Part([a, b, c, d][i], j)
  {
  }

  lemma MixedBytes<W>(k: Field<W>, t: State<W>, i: nat, j: nat, c: Col<W>)
    requires |t| == SIZE && i < 4 && j < 4 && c == MixCol(k, Column(t, i))
    ensures MixState(k, t)[4 * i + j] == Part(c, j)
  {
    var c0, c1 := MixCol(k, Column(t, 0)), MixCol(k, Column(t, 1));
    var c2, c3 := MixCol(k, Column(t, 2)), MixCol(k, Column(t, 3));
    ColumnsByte(c0, c1, c2, c3, i, j);
    assert [c0, c1, c2, c3][i] == c;
  }

  lemma RowsOfMoved<W(!new)>(k: Field<W>, f: Parts<W>, t: seq<W>, i: nat, j: nat, a: Col<W>)
    requires MadeOf(k, f) && |t| == SIZE && i < 4 && j < 4
    requires a == Col(Moved(f, t, i, 0), Moved(f, t, i, 1), Moved(f, t, i, 2), Moved(f, t, i, 3))
    ensures Part(MixCol(k, a), j)
         == f.row(Moved(f, t, i, j), Moved(f, t, i, j + 1), Moved(f, t, i, j + 2), Moved(f, t, i, j + 3))
  {
    assert SameMix(k, f, a);
    MovedAround(f, t, i, 0);
    MovedAround(f, t, i, 1);
    MovedAround(f, t, i, 2);
  }

  /** A round computes the bytes it should. */
  lemma RoundIs<W(!new)>(k: Field<W>, f: Parts<W>, t: seq<W>, key: seq<W>, i: nat, j: nat)
    requires MadeOf(k, f) && |t| == SIZE && |key| == SIZE && i < 4 && j < 4
    ensures EncryptRound(k, t, key)[4 * i + j] == RoundByte(f, t, key, i, j)
  {
    var s := Scramble(k, t);
    var a := MixedColumn(k, f, t, i);
    MixedBytes(k, s, i, j, MixCol(k, a));
    RowsOfMoved(k, f, t, i, j, a);
    assert SameSum(k, f, MixState(k, s)[4 * i + j], key[4 * i + j]);
  }

  lemma Places(b: nat)
    requires b < SIZE
    ensures b / 4 < 4 && b % 4 < 4 && 4 * (b / 4) + b % 4 == b
  {
  }

  lemma RoundAt<W(!new)>(k: Field<W>, f: Parts<W>, t: seq<W>, key: seq<W>, b: nat)
    requires MadeOf(k, f) && |t| == SIZE && |key| == SIZE && b < SIZE
    ensures b / 4 < 4 && EncryptRound(k, t, key)[b] == RoundByte(f, t, key, b / 4, b % 4)
  {
    Places(b);
    RoundIs(k, f, t, key, b / 4, b % 4);
  }

  lemma RoundBlockIs<W(!new)>(k: Field<W>, f: Parts<W>, t: seq<W>, key: seq<W>)
    requires MadeOf(k, f) && |t| == SIZE && |key| == SIZE
    ensures EncryptRound(k, t, key) == RoundBlock(f, t, key)
  {
    forall b | 0 <= b < SIZE
      ensures EncryptRound(k, t, key)[b] == RoundBlock(f, t, key)[b]
    {
      RoundAt(k, f, t, key, b);
    }
  }

  lemma FirstBlock<W(!new)>(k: Field<W>, f: Parts<W>, keys: seq<State<W>>, m: seq<W>)
    requires MadeOf(k, f) && KeysOk(keys) && |m| == SIZE
    ensures AddKey(k, m, keys[0]) == BlockAfter(f, keys, m, 0)
  {
    forall b | 0 <= b < SIZE
      ensures k.xor(m[b], keys[0][b]) == f.plus(m[b], keys[0][b])
    {
      assert SameSum(k, f, m[b], keys[0][b]);
    }
  }

  lemma OneMore<S, K>(g: (S, K) -> S, keys: seq<K>, n: nat, s: S)
    requires 0 < n < |keys|
    ensures Iterate(g, keys[1..n + 1], s) == g(Iterate(g, keys[1..n], s), keys[n])
  {
    var some := keys[1..n + 1];
    assert some[..|some| - 1] == keys[1..n] && some[|some| - 1] == keys[n];
  }

  lemma {:induction false} RoundsAre<W(!new)>(k: Field<W>, f: Parts<W>, keys: seq<State<W>>, m: seq<W>, n: nat)
    requires MadeOf(k, f) && KeysOk(keys) && |m| == SIZE && n < N_ROUNDS
    ensures Iterate(EncryptsWith(k), keys[1..n + 1], AddKey(k, m, keys[0])) == BlockAfter(f, keys, m, n)
  {
    var first := AddKey(k, m, keys[0]);
    if n == 0 {
      FirstBlock(k, f, keys, m);
    } else {
      RoundsAre(k, f, keys, m, n - 1);
      OneMore(EncryptsWith(k), keys, n, first);
      RoundBlockIs(k, f, BlockAfter(f, keys, m, n - 1), keys[n]);
    }
  }

  lemma LastIs<W(!new)>(k: Field<W>, f: Parts<W>, t: seq<W>, key: seq<W>, b: nat)
    requires MadeOf(k, f) && |t| == SIZE && |key| == SIZE && b < SIZE
    ensures b / 4 < 4 && AddKey(k, Scramble(k, t), key)[b] == LastByte(f, t, key, b / 4, b % 4)
  {
    Places(b);
    ScrambledByte(k, f, t, b / 4, b % 4);
    assert SameSum(k, f, Scramble(k, t)[b], key[b]);
  }

  lemma LastBlockIs<W(!new)>(k: Field<W>, f: Parts<W>, t: seq<W>, key: seq<W>)
    requires MadeOf(k, f) && |t| == SIZE && |key| == SIZE
    ensures AddKey(k, Scramble(k, t), key) == LastBlock(f, t, key)
  {
    forall b | 0 <= b < SIZE
      ensures AddKey(k, Scramble(k, t), key)[b] == LastBlock(f, t, key)[b]
    {
      LastIs(k, f, t, key, b);
    }
  }

  /** Encryption of a block with any round keys. */
  lemma StateIs<W(!new)>(k: Field<W>, f: Parts<W>, keys: seq<State<W>>, m: seq<W>)
    requires MadeOf(k, f) && KeysOk(keys) && |m| == SIZE
    ensures EncryptState(k, keys, m) == EncryptedBlock(f, keys, m)
  {
    var t := BlockAfter(f, keys, m, N_ROUNDS - 1);
    RoundsAre(k, f, keys, m, N_ROUNDS - 1);
    assert AllRounds(EncryptsWith(k), keys, AddKey(k, m, keys[0])) == t;
    LastBlockIs(k, f, t, keys[N_ROUNDS]);
  }

  // The round keys.

  lemma CoreByte<W(!new)>(k: Field<W>, f: Parts<W>, n: nat, i: nat, w: seq<W>, j: nat)
    requires MadeOf(k, f) && n > 0 && n <= i && i / n < 32 && |w| == 4 && j < 4
    ensures Core(k, n, i, w)[j] == CoreOf(f, n, i, w, j)
  {
    assert SameBox(k, f, w[0]) && SameBox(k, f, w[1]) && SameBox(k, f, w[2]) && SameBox(k, f, w[3]);
    assert SameSum(k, f, f.box(w[1]), f.power(i / n - 1));
  }

  lemma SumByte<W(!new)>(k: Field<W>, f: Parts<W>, a: seq<W>, b: seq<W>, j: nat)
    requires MadeOf(k, f) && |a| == 4 && |b| == 4 && j < 4
    ensures XorWord(k, a, b)[j] == f.plus(a[j], b[j])
  {
    assert SameSum(k, f, a[j], b[j]);
  }

  lemma NextIs<W(!new)>(k: Field<W>, f: Parts<W>, n: nat, i: nat, w: seq<W>, v: seq<W>)
    requires MadeOf(k, f) && 4 <= n <= i < 44 && |w| == |v| == 4
    ensures XorWord(k, Core(k, n, i, w), v) == NextColumn(f, n, i, w, v)
  {
    FewKeys(i, n);
    forall j | 0 <= j < 4
      ensures XorWord(k, Core(k, n, i, w), v)[j] == f.plus(CoreOf(f, n, i, w, j), v[j])
    {
      CoreByte(k, f, n, i, w, j);
      SumByte(k, f, Core(k, n, i, w), v, j);
    }
  }

  lemma FewKeys(i: nat, n: nat)
    requires i < 44 && 4 <= n
    ensures i / n < 32
  {
  }

  lemma StandardColumn<W>(k: Field<W>, key: seq<W>, i: nat)
    requires KeySize(|key|) && i >= |key| / 4
    ensures var n := |key| / 4;
            KeyColumn(k, key, i) == XorWord(k, Core(k, n, i, KeyColumn(k, key, i - 1)), KeyColumn(k, key, i - n))
  {
  }

  lemma ColumnNext<W>(f: Parts<W>, key: seq<W>, i: nat)
    requires KeySize(|key|) && i >= |key| / 4
    ensures var n := |key| / 4;
            ColumnOfKey(f, key, i) == NextColumn(f, n, i, ColumnOfKey(f, key, i - 1), ColumnOfKey(f, key, i - n))
  {
  }

  /** Columns that agree before column i, at the two places it depends on, agree there. */
  predicate AgreesNext<W(==)>(a: nat -> seq<W>, b: nat -> seq<W>, n: nat, i: nat) {
    0 < n <= i && a(i - 1) == b(i - 1) && a(i - n) == b(i - n) ==> a(i) == b(i)
  }

  lemma {:induction false} AllAgree<W>(a: nat -> seq<W>, b: nat -> seq<W>, n: nat, i: nat)
    requires 0 < n && forall j: nat :: j < n ==> a(j) == b(j)
    requires forall j: nat {:trigger AgreesNext(a, b, n, j)} :: j <= i ==> AgreesNext(a, b, n, j)
    ensures a(i) == b(i)
  {
    if i >= n {
      AllAgree(a, b, n, i - 1);
      AllAgree(a, b, n, i - n);
      assert AgreesNext(a, b, n, i);
    }
  }

  lemma ColumnStep<W(!new)>(k: Field<W>, f: Parts<W>, key: seq<W>, i: nat)
    requires MadeOf(k, f) && KeySize(|key|) && |key| / 4 <= i < 44
    requires KeyColumn(k, key, i - 1) == ColumnOfKey(f, key, i - 1)
    requires KeyColumn(k, key, i - |key| / 4) == ColumnOfKey(f, key, i - |key| / 4)
    ensures KeyColumn(k, key, i) == ColumnOfKey(f, key, i)
  {
    StandardColumn(k, key, i);
    ColumnNext(f, key, i);
    NextIs(k, f, |key| / 4, i, KeyColumn(k, key, i - 1), KeyColumn(k, key, i - |key| / 4));
  }

  lemma ColumnIs<W(!new)>(k: Field<W>, f: Parts<W>, key: seq<W>, i: nat)
    requires MadeOf(k, f) && KeySize(|key|) && i < 44
    ensures KeyColumn(k, key, i) == ColumnOfKey(f, key, i)
  {
    var a, b, n := (j: nat) => KeyColumn(k, key, j), (j: nat) => ColumnOfKey(f, key, j), |key| / 4;
    forall j: nat | j <= i
      ensures AgreesNext(a, b, n, j)
    {
      if n <= j && a(j - 1) == b(j - 1) && a(j - n) == b(j - n) {
        ColumnStep(k, f, key, j);
      }
    }
    AllAgree(a, b, n, i);
  }

  lemma KeyIs<W(!new)>(k: Field<W>, f: Parts<W>, key: seq<W>, r: nat)
    requires MadeOf(k, f) && KeySize(|key|) && r <= N_ROUNDS
    ensures RoundKey(k, key, r) == KeyOf(f, key, r)
  {
    ColumnIs(k, f, key, 4 * r);
    ColumnIs(k, f, key, 4 * r + 1);
    ColumnIs(k, f, key, 4 * r + 2);
    ColumnIs(k, f, key, 4 * r + 3);
  }

  lemma KeysAre<W(!new)>(k: Field<W>, f: Parts<W>, key: seq<W>)
    requires MadeOf(k, f) && KeySize(|key|)
    ensures RoundKeys(k, key) == KeysOf(f, key)
  {
    forall r | 0 <= r <= N_ROUNDS
      ensures RoundKey(k, key, r) == KeyOf(f, key, r)
    {
      KeyIs(k, f, key, r);
    }
  }

  // On bytes.

  function Plus(a: bv8, b: bv8): bv8 {
    a ^ b
  }

  /** The affine image of the inverse. */
  ghost function Box(b: bv8): bv8 {
    Affine(Inverse(b))
  }

  ghost function ByteParts(): Parts<bv8> {
    Parts(Plus, Box, MatrixRow, PowerOfX)
  }

  lemma BoxIs(a: bv8)
    ensures SameBox(FIELD, ByteParts(), a)
  {
    SubIsAffine(a);
  }

  lemma MixIs(a: Col<bv8>)
    ensures SameMix(FIELD, ByteParts(), a)
  {
    MixIsMatrix(a);
  }

  lemma SumIs(a: bv8, b: bv8)
    ensures SameSum(FIELD, ByteParts(), a, b)
  {
  }

  lemma PowerIs(i: nat)
    requires i < 31
    ensures FIELD.rcon(i + 1) == ByteParts().power(i)
  {
    ConstantsArePowers(i + 1);
  }

  lemma FieldIsMadeOf()
    ensures MadeOf(FIELD, ByteParts())
  {
    forall a, b
      ensures SameSum(FIELD, ByteParts(), a, b)
    {
      SumIs(a, b);
    }
    forall a
      ensures SameBox(FIELD, ByteParts(), a)
    {
      BoxIs(a);
    }
    forall a
      ensures SameMix(FIELD, ByteParts(), a)
    {
      MixIs(a);
    }
    forall i: nat | i < 31
      ensures FIELD.rcon(i + 1) == ByteParts().power(i)
    {
      PowerIs(i);
    }
  }

  /** What the cipher makes of a block with a key of 16, 24 or 32 bytes. */
  lemma Encrypts(key: seq<bv8>, m: seq<bv8>)
    requires KeySize(|key|) && |m| == SIZE
    ensures EncryptState(FIELD, RoundKeys(FIELD, key), m)
         == EncryptedBlock(ByteParts(), KeysOf(ByteParts(), key), m)
  {
    FieldIsMadeOf();
    KeysAre(FIELD, ByteParts(), key);
    StateIs(FIELD, ByteParts(), RoundKeys(FIELD, key), m);
  }
}
