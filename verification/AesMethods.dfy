/** The cipher as the script runs it: matrices changed in place, and key columns appended. */
module AesMethods {
  import opened Arith
  import opened AesCipher

  ghost predicate Square<W>(s: array2<W>) {
    s.Length0 == 4 && s.Length1 == 4
  }

  /** The matrix as a list of 16 bytes, column after column. */
  function Flat<W>(s: array2<W>): (t: State<W>)
    requires Square(s)
    reads s
    ensures |t| == SIZE
  {
    [s[0, 0], s[0, 1], s[0, 2], s[0, 3], s[1, 0], s[1, 1], s[1, 2], s[1, 3],
     s[2, 0], s[2, 1], s[2, 2], s[2, 3], s[3, 0], s[3, 1], s[3, 2], s[3, 3]]
  }

  function ColumnOf<W>(s: array2<W>, i: nat): Col<W>
    requires Square(s) && i < 4
    reads s
  {
    Col(s[i, 0], s[i, 1], s[i, 2], s[i, 3])
  }

  method BytesToMatrix<W>(text: seq<W>) returns (s: array2<W>)
    requires |text| == SIZE
    ensures fresh(s) && Square(s) && Flat(s) == text
  {
    s := new W[4, 4]((i, j) => if 0 <= i < 4 && 0 <= j < 4 then text[4 * i + j] else text[0]);
  }

  /** A new matrix with every byte substituted. */
  method SubBytes<W>(s: array2<W>, f: W -> W) returns (r: array2<W>)
    requires Square(s)
    ensures fresh(r) && Square(r) && Flat(r) == SubState(f, Flat(s))
  {
    var t := Flat(s);
    r := new W[4, 4]((i, j) => if 0 <= i < 4 && 0 <= j < 4 then f(t[4 * i + j]) else t[0]);
  }

  /**
   A new matrix. The loop that follows in the script only changes its own loop variable, so
   it leaves the sum as it is.
   */
  method AddRoundKey<W>(k: Field<W>, s: array2<W>, key: State<W>) returns (r: array2<W>)
    requires Square(s) && |key| == SIZE
    ensures fresh(r) && Square(r) && Flat(r) == AddKey(k, Flat(s), key)
  {
    var t := Flat(s);
    var matrix := seq(SIZE, i requires 0 <= i < SIZE => k.xor(t[i], key[i]));
    r := BytesToMatrix(matrix);
  }

  method ShiftRows<W>(s: array2<W>)
    requires Square(s)
    modifies s
    ensures Flat(s) == ShiftState(old(Flat(s)))
  {
    s[0, 1], s[1, 1], s[2, 1], s[3, 1] := s[3, 1], s[0, 1], s[1, 1], s[2, 1];
    s[0, 2], s[1, 2], s[2, 2], s[3, 2] := s[2, 2], s[3, 2], s[0, 2], s[1, 2];
    s[0, 3], s[1, 3], s[2, 3], s[3, 3] := s[1, 3], s[2, 3], s[3, 3], s[0, 3];
  }

  method InvShiftRows<W>(s: array2<W>)
    requires Square(s)
    modifies s
    ensures Flat(s) == InvShiftState(old(Flat(s)))
  {
    s[0, 1], s[1, 1], s[2, 1], s[3, 1] := s[1, 1], s[2, 1], s[3, 1], s[0, 1];
    s[0, 2], s[1, 2], s[2, 2], s[3, 2] := s[2, 2], s[3, 2], s[0, 2], s[1, 2];
    s[0, 3], s[1, 3], s[2, 3], s[3, 3] := s[3, 3], s[0, 3], s[1, 3], s[2, 3];
  }

  method MixSingleColumn<W>(k: Field<W>, s: array2<W>, i: nat)
    requires Square(s) && i < 4
    modifies s
    ensures ColumnOf(s, i) == MixCol(k, old(ColumnOf(s, i)))
    ensures forall r: nat :: r < 4 && r != i ==> ColumnOf(s, r) == old(ColumnOf(s, r))
  {
    var t := k.xor(k.xor(k.xor(s[i, 0], s[i, 1]), s[i, 2]), s[i, 3]);
    var u := s[i, 0];
    s[i, 0] := k.xor(s[i, 0], k.xor(t, k.xtime(k.xor(s[i, 0], s[i, 1]))));
    s[i, 1] := k.xor(s[i, 1], k.xor(t, k.xtime(k.xor(s[i, 1], s[i, 2]))));
    s[i, 2] := k.xor(s[i, 2], k.xor(t, k.xtime(k.xor(s[i, 2], s[i, 3]))));
    s[i, 3] := k.xor(s[i, 3], k.xor(t, k.xtime(k.xor(s[i, 3], u))));
  }

  method MixColumns<W>(k: Field<W>, s: array2<W>)
    requires Square(s)
    modifies s
    ensures Flat(s) == MixState(k, old(Flat(s)))
  {
    var i: nat := 0;
    while i < 4
      invariant 0 <= i <= 4
      invariant forall r: nat :: r < i ==> ColumnOf(s, r) == MixCol(k, old(ColumnOf(s, r)))
      invariant forall r: nat :: i <= r < 4 ==> ColumnOf(s, r) == old(ColumnOf(s, r))
    {
      MixSingleColumn(k, s, i);
      i := i + 1;
    }
    FlatColumns(s);
  }

  lemma FlatColumns<W>(s: array2<W>)
    requires Square(s)
    ensures Flat(s) == Columns(ColumnOf(s, 0), ColumnOf(s, 1), ColumnOf(s, 2), ColumnOf(s, 3))
  {
  }

  method PreMixColumn<W>(k: Field<W>, s: array2<W>, i: nat)
    requires Square(s) && i < 4
    modifies s
    ensures ColumnOf(s, i) == PreMix(k, old(ColumnOf(s, i)))
    ensures forall r: nat :: r < 4 && r != i ==> ColumnOf(s, r) == old(ColumnOf(s, r))
  {
    var u := k.xtime(k.xtime(k.xor(s[i, 0], s[i, 2])));
    var v := k.xtime(k.xtime(k.xor(s[i, 1], s[i, 3])));
    s[i, 0] := k.xor(s[i, 0], u);
    s[i, 1] := k.xor(s[i, 1], v);
    s[i, 2] := k.xor(s[i, 2], u);
    s[i, 3] := k.xor(s[i, 3], v);
  }

  method InvMixColumns<W>(k: Field<W>, s: array2<W>)
    requires Square(s)
    modifies s
    ensures Flat(s) == InvMixState(k, old(Flat(s)))
  {
    var i: nat := 0;
    while i < 4
      invariant 0 <= i <= 4
      invariant forall r: nat :: r < i ==> ColumnOf(s, r) == PreMix(k, old(ColumnOf(s, r)))
      invariant forall r: nat :: i <= r < 4 ==> ColumnOf(s, r) == old(ColumnOf(s, r))
    {
      PreMixColumn(k, s, i);
      i := i + 1;
    }
    FlatColumns(s);
    MixColumns(k, s);
  }

  /** One column of the schedule from the column before it. */
  method ScheduleCore<W>(k: Field<W>, keySize: nat, columns: nat, word: seq<W>, i: nat) returns (next: seq<W>, ni: nat)
    requires KeySize(keySize) && |word| == 4
    requires columns % (keySize / 4) == 0 ==> i == columns / (keySize / 4)
    ensures next == Core(k, keySize / 4, columns, word)
    ensures ni == if columns % (keySize / 4) == 0 then i + 1 else i
  {
    var iterationSize := keySize / 4;
    next, ni := word, i;
    if columns % iterationSize == 0 {
      next := next[1..] + [next[0]];
      next := [k.sub(next[0]), k.sub(next[1]), k.sub(next[2]), k.sub(next[3])];
      next := next[0 := k.xor(next[0], k.rcon(i))];
      ni := i + 1;
    } else if keySize == 32 && columns % iterationSize == 4 {
      next := [k.sub(next[0]), k.sub(next[1]), k.sub(next[2]), k.sub(next[3])];
    }
  }

  /** The counter of the round constants: how many multiples of n lie below `columns`, from n on. */
  lemma CounterStep(n: nat, columns: nat, i: nat)
    requires n > 0 && columns >= n && i == (columns - 1) / n + 1
    ensures columns % n == 0 ==> i == columns / n
    ensures (if columns % n == 0 then i + 1 else i) == columns / n + 1
  {
    var q, r := columns / n, columns % n;
    if r == 0 {
      assert n * (q - 1) == n * q - n;
      DivModUnique(columns - 1, n, q - 1, n - 1);
    } else {
      DivModUnique(columns - 1, n, q, r - 1);
    }
  }

  /** `want` obeys the recurrence of the schedule at i. */
  predicate Expands<W(==)>(k: Field<W>, masterKey: seq<W>, want: nat -> seq<W>, i: nat)
    requires KeySize(|masterKey|)
  {
    var n := |masterKey| / 4;
    && |want(i)| == 4
    && (i < n ==> want(i) == masterKey[4 * i..4 * i + 4])
    && (i >= n ==> |want(i - 1)| == 4 && |want(i - n)| == 4
                   && want(i) == XorWord(k, Core(k, n, i, want(i - 1)), want(i - n)))
  }

  lemma Expansion<W(!new)>(k: Field<W>, masterKey: seq<W>) returns (want: nat -> seq<W>)
    requires KeySize(|masterKey|)
    ensures forall i: nat :: Expands(k, masterKey, want, i)
    ensures forall i: nat :: want(i) == KeyColumn(k, masterKey, i)
  {
    want := (i: nat) => KeyColumn(k, masterKey, i);
    forall i: nat
      ensures Expands(k, masterKey, want, i)
    {
      ColumnExpands(k, masterKey, want, i);
    }
  }

  lemma ColumnExpands<W(!new)>(k: Field<W>, masterKey: seq<W>, want: nat -> seq<W>, i: nat)
    requires KeySize(|masterKey|)
    requires forall j: nat :: want(j) == KeyColumn(k, masterKey, j)
    ensures Expands(k, masterKey, want, i)
  {
    assert want(i) == KeyColumn(k, masterKey, i);
  }

  /** The next column from the last one and the one a key length before. */
  method NextColumn<W>(k: Field<W>, masterKey: seq<W>, columns: seq<seq<W>>, i: nat, ghost want: nat -> seq<W>)
    returns (word: seq<W>, ni: nat)
    requires KeySize(|masterKey|) && |columns| >= |masterKey| / 4 && i == (|columns| - 1) / (|masterKey| / 4) + 1
    requires forall j: nat :: j < |columns| ==> columns[j] == want(j)
    requires Expands(k, masterKey, want, |columns|)
    ensures word == want(|columns|) && ni == |columns| / (|masterKey| / 4) + 1
  {
    var iterationSize := |masterKey| / 4;
    CounterStep(iterationSize, |columns|, i);
    word, ni := ScheduleCore(k, |masterKey|, |columns|, columns[|columns| - 1], i);
    var before := columns[|columns| - iterationSize];
    word := [k.xor(word[0], before[0]), k.xor(word[1], before[1]), k.xor(word[2], before[2]),
        k.xor(word[3], before[3])];
  }

  /** Columns are appended until there are 44. */
  method AppendColumns<W>(k: Field<W>, masterKey: seq<W>, ghost want: nat -> seq<W>) returns (columns: seq<seq<W>>)
    requires KeySize(|masterKey|) && forall i: nat :: Expands(k, masterKey, want, i)
    ensures |columns| == 44 && forall i: nat :: i < 44 ==> columns[i] == want(i)
  {
    var iterationSize := |masterKey| / 4;
    columns := seq(iterationSize, j requires 0 <= j < iterationSize => masterKey[4 * j..4 * j + 4]);
    forall j: nat | j < iterationSize
      ensures columns[j] == want(j)
    {
      assert Expands(k, masterKey, want, j);
    }
    var i: nat := 1;
    DivModUnique(iterationSize - 1, iterationSize, 0, iterationSize - 1);
    while |columns| < (N_ROUNDS + 1) * 4
      invariant iterationSize <= |columns| <= 44
      invariant forall j: nat :: j < |columns| ==> columns[j] == want(j)
      invariant i == (|columns| - 1) / iterationSize + 1
    {
      assert Expands(k, masterKey, want, |columns|);
      var word;
      word, i := NextColumn(k, masterKey, columns, i, want);
      columns := columns + [word];
    }
  }

  method GroupColumns<W>(columns: seq<seq<W>>) returns (keys: seq<State<W>>)
    requires |columns| == 44
    ensures |keys| == 11
    ensures forall r: nat :: r < 11 ==>
      keys[r] == columns[4 * r] + columns[4 * r + 1] + columns[4 * r + 2] + columns[4 * r + 3]
  {
    keys := [];
    var i: nat := 0;
    while i < |columns| / 4
      invariant 0 <= i <= 11 && |keys| == i
      invariant forall r: nat :: r < i ==>
        keys[r] == columns[4 * r] + columns[4 * r + 1] + columns[4 * r + 2] + columns[4 * r + 3]
    {
      keys := keys + [columns[4 * i] + columns[4 * i + 1] + columns[4 * i + 2] + columns[4 * i + 3]];
      i := i + 1;
    }
  }

  lemma KeysAreRoundKeys<W>(k: Field<W>, masterKey: seq<W>, columns: seq<seq<W>>, keys: seq<State<W>>)
    requires KeySize(|masterKey|) && |columns| == 44 && |keys| == 11
    requires forall i: nat :: i < 44 ==> columns[i] == KeyColumn(k, masterKey, i)
    requires forall r: nat :: r < 11 ==>
      keys[r] == columns[4 * r] + columns[4 * r + 1] + columns[4 * r + 2] + columns[4 * r + 3]
    ensures keys == RoundKeys(k, masterKey)
  {
    forall r | 0 <= r < 11
      ensures keys[r] == RoundKey(k, masterKey, r)
    {
    }
  }

  /**
   The round keys: always eleven, those of section 5.2 of FIPS 197. The loop at the end of
   the script's function changes nothing here either.
   */
  method ExpandKey<W(!new)>(k: Field<W>, masterKey: seq<W>) returns (keys: seq<State<W>>)
    requires KeySize(|masterKey|)
    ensures |keys| == 11 && keys == RoundKeys(k, masterKey)
  {
    ghost var want := Expansion(k, masterKey);
    var columns := AppendColumns(k, masterKey, want);
    keys := GroupColumns(columns);
    KeysAreRoundKeys(k, masterKey, columns, keys);
  }

  // The loops over the rounds, with the round as a function they need not look into.

  ghost predicate EncryptsRound<W(!new)>(k: Field<W>, f: (State<W>, State<W>) -> State<W>) {
    forall t, key {:trigger EncryptRound(k, t, key)} ::
      |t| == SIZE && |key| == SIZE ==> f(t, key) == EncryptRound(k, t, key)
  }

  ghost predicate DecryptsRound<W(!new)>(k: Field<W>, f: (State<W>, State<W>) -> State<W>) {
    forall t, key {:trigger DecryptRound(k, t, key)} ::
      |t| == SIZE && |key| == SIZE ==> f(t, key) == DecryptRound(k, t, key)
  }

  /** A full round of encryption; the matrix that is shifted and mixed is a new one. */
  method RunEncryptRound<W(!new)>(k: Field<W>, s: array2<W>, key: State<W>, ghost f: (State<W>, State<W>) -> State<W>)
    returns (r: array2<W>)
    requires Square(s) && |key| == SIZE && EncryptsRound(k, f)
    ensures fresh(r) && Square(r) && Flat(r) == f(Flat(s), key)
  {
    r := SubBytes(s, k.sub);
    ShiftRows(r);
    MixColumns(k, r);
    r := AddRoundKey(k, r, key);
    assert Flat(r) == EncryptRound(k, Flat(s), key);
  }

  /** A full round of decryption; the matrix it starts from is shifted in place. */
  method RunDecryptRound<W(!new)>(k: Field<W>, s: array2<W>, key: State<W>, ghost f: (State<W>, State<W>) -> State<W>)
    returns (r: array2<W>)
    requires Square(s) && |key| == SIZE && DecryptsRound(k, f)
    modifies s
    ensures fresh(r) && Square(r) && Flat(r) == f(old(Flat(s)), key)
  {
    ghost var t := Flat(s);
    InvShiftRows(s);
    r := SubBytes(s, k.inv);
    r := AddRoundKey(k, r, key);
    InvMixColumns(k, r);
    assert Flat(r) == DecryptRound(k, t, key);
  }

  /** The rounds of both directions, known by what they compute. */
  lemma RoundFunctions<W(!new)>(k: Field<W>)
    returns (f: (State<W>, State<W>) -> State<W>, g: (State<W>, State<W>) -> State<W>)
    ensures f == EncryptsWith(k) && EncryptsRound(k, f)
    ensures g == DecryptsWith(k) && DecryptsRound(k, g)
  {
    f, g := EncryptsWith(k), DecryptsWith(k);
  }

  lemma {:induction false} BackwardsAt<K>(keys: seq<K>, i: nat)
    requires i < |keys|
    ensures Backwards(keys)[i] == keys[|keys| - 1 - i]
  {
    if i > 0 {
      BackwardsAt(keys[..|keys| - 1], i - 1);
    }
  }

  /** One key more. */
  lemma IterateNext<S, K>(f: (S, K) -> S, keys: seq<K>, n: nat, s: S)
    requires n < |keys|
    ensures Iterate(f, keys[..n + 1], s) == f(Iterate(f, keys[..n], s), keys[n])
  {
    assert keys[..n + 1][..n] == keys[..n];
  }

  method EncryptRounds<W(!new)>(k: Field<W>, keys: seq<State<W>>, s: array2<W>,
                                ghost f: (State<W>, State<W>) -> State<W>)
    returns (r: array2<W>)
    requires KeysOk(keys) && EncryptsRound(k, f) && Square(s)
    ensures (fresh(r) || r == s) && Square(r) && Flat(r) == AllRounds(f, keys, Flat(s))
  {
    ghost var used := keys[1..N_ROUNDS];
    r := s;
    var i: nat := 1;
    while i < N_ROUNDS
      invariant 1 <= i <= N_ROUNDS
      invariant (fresh(r) || r == s) && Square(r) && Flat(r) == Iterate(f, used[..i - 1], Flat(s))
    {
      IterateNext(f, used, i - 1, Flat(s));
      r := RunEncryptRound(k, r, keys[i], f);
      i := i + 1;
    }
    assert used[..N_ROUNDS - 1] == used;
  }

  method DecryptRounds<W(!new)>(k: Field<W>, keys: seq<State<W>>, s: array2<W>,
                                ghost g: (State<W>, State<W>) -> State<W>)
    returns (r: array2<W>)
    requires KeysOk(keys) && DecryptsRound(k, g) && Square(s)
    modifies s
    ensures (fresh(r) || r == s) && Square(r)
    ensures Flat(r) == Iterate(g, Backwards(keys[1..N_ROUNDS]), old(Flat(s)))
  {
    ghost var used, t := Backwards(keys[1..N_ROUNDS]), Flat(s);
    r := s;
    var i: nat := N_ROUNDS - 1;
    while i > 0
      invariant 0 <= i < N_ROUNDS
      invariant (fresh(r) || r == s) && Square(r) && Flat(r) == Iterate(g, used[..N_ROUNDS - 1 - i], t)
    {
      BackwardsAt(keys[1..N_ROUNDS], N_ROUNDS - 1 - i);
      IterateNext(g, used, N_ROUNDS - 1 - i, t);
      r := RunDecryptRound(k, r, keys[i], g);
      i := i - 1;
    }
    assert used[..N_ROUNDS - 1] == used;
  }

  /** The last round does not mix. */
  method LastEncryptRound<W>(k: Field<W>, s: array2<W>, key: State<W>) returns (c: seq<W>)
    requires Square(s) && |key| == SIZE
    ensures c == AddKey(k, Scramble(k, Flat(s)), key)
  {
    var r := SubBytes(s, k.sub);
    ShiftRows(r);
    r := AddRoundKey(k, r, key);
    c := Flat(r);
  }

  method LastDecryptRound<W>(k: Field<W>, s: array2<W>, key: State<W>) returns (m: seq<W>)
    requires Square(s) && |key| == SIZE
    modifies s
    ensures m == AddKey(k, Unscramble(k, old(Flat(s))), key)
  {
    InvShiftRows(s);
    var r := SubBytes(s, k.inv);
    r := AddRoundKey(k, r, key);
    m := Flat(r);
  }

  /** Encrypts one block. */
  method Encrypt<W(!new)>(k: Field<W>, key: seq<W>, m: seq<W>) returns (c: seq<W>)
    requires KeySize(|key|) && |m| == SIZE
    ensures c == EncryptState(k, RoundKeys(k, key), m)
  {
    var keys := ExpandKey(k, key);
    ghost var f, _ := RoundFunctions(k);
    var s := BytesToMatrix(m);
    s := AddRoundKey(k, s, keys[0]);
    s := EncryptRounds(k, keys, s, f);
    c := LastEncryptRound(k, s, keys[|keys| - 1]);
  }

  /** Decrypts one block. */
  method Decrypt<W(!new)>(k: Field<W>, key: seq<W>, c: seq<W>) returns (m: seq<W>)
    requires KeySize(|key|) && |c| == SIZE
    ensures m == DecryptState(k, RoundKeys(k, key), c)
  {
    var keys := ExpandKey(k, key);
    ghost var _, g := RoundFunctions(k);
    var s := BytesToMatrix(c);
    s := AddRoundKey(k, s, keys[|keys| - 1]);
    s := DecryptRounds(k, keys, s, g);
    m := LastDecryptRound(k, s, keys[0]);
  }
}
