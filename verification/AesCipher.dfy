/**
 The block cipher miaES over any arithmetic of bytes: the round functions on a state of 16
 bytes, byte j of column i at 4 i + j, and why decryption takes encryption back.
 */
module AesCipher {

  /** Exclusive or, doubling in the field, the two substitutions and the round constants. */
  datatype Field<!W> = Field(
    xor: (W, W) -> W,
    zero: W,
    xtime: W -> W,
    sub: W -> W,
    inv: W -> W,
    rcon: nat -> W)

  predicate Assoc<W(==)>(k: Field<W>, a: W, b: W, c: W) {
    k.xor(k.xor(a, b), c) == k.xor(a, k.xor(b, c))
  }

  predicate Comm<W(==)>(k: Field<W>, a: W, b: W) {
    k.xor(a, b) == k.xor(b, a)
  }

  predicate Unit<W(==)>(k: Field<W>, a: W) {
    k.xor(a, k.zero) == a && k.xor(a, a) == k.zero
  }

  predicate Doubles<W(==)>(k: Field<W>, a: W, b: W) {
    k.xtime(k.xor(a, b)) == k.xor(k.xtime(a), k.xtime(b))
  }

  predicate Subs<W(==)>(k: Field<W>, a: W) {
    k.inv(k.sub(a)) == a && k.sub(k.inv(a)) == a
  }

  /** Bytes under exclusive or, with a linear doubling and substitutions that undo each other. */
  ghost predicate Laws<W(!new)>(k: Field<W>) {
    && (forall a, b, c :: Assoc(k, a, b, c))
    && (forall a, b :: Comm(k, a, b) && Doubles(k, a, b))
    && (forall a :: Unit(k, a) && Subs(k, a))
  }

  type State<W> = seq<W>

  datatype Col<W> = Col(c0: W, c1: W, c2: W, c3: W)

  function Sum<W>(k: Field<W>, a: Col<W>): W {
    k.xor(k.xor(k.xor(a.c0, a.c1), a.c2), a.c3)
  }

  function Turn<W>(a: Col<W>): Col<W> {
    Col(a.c1, a.c2, a.c3, a.c0)
  }

  function MixCol<W>(k: Field<W>, a: Col<W>): Col<W> {
    var t := Sum(k, a);
    Col(k.xor(a.c0, k.xor(t, k.xtime(k.xor(a.c0, a.c1)))),
        k.xor(a.c1, k.xor(t, k.xtime(k.xor(a.c1, a.c2)))),
        k.xor(a.c2, k.xor(t, k.xtime(k.xor(a.c2, a.c3)))),
        k.xor(a.c3, k.xor(t, k.xtime(k.xor(a.c3, a.c0)))))
  }

  /** What inverse mixing does before it mixes. */
  function PreMix<W>(k: Field<W>, m: Col<W>): Col<W> {
    var u := k.xtime(k.xtime(k.xor(m.c0, m.c2)));
    var v := k.xtime(k.xtime(k.xor(m.c1, m.c3)));
    Col(k.xor(m.c0, u), k.xor(m.c1, v), k.xor(m.c2, u), k.xor(m.c3, v))
  }

  function InvMixCol<W>(k: Field<W>, m: Col<W>): Col<W> {
    MixCol(k, PreMix(k, m))
  }

  // Sums of bytes.

  lemma Exchange<W(!new)>(k: Field<W>, a: W, b: W, c: W, d: W)
    requires Laws(k)
    ensures k.xor(k.xor(a, b), k.xor(c, d)) == k.xor(k.xor(a, c), k.xor(b, d))
  {
    assert Assoc(k, a, b, k.xor(c, d)) && Assoc(k, b, c, d) && Comm(k, b, c);
    assert Assoc(k, c, b, d) && Assoc(k, a, c, k.xor(b, d));
  }

  /** A term on both sides drops out. */
  lemma Drop<W(!new)>(k: Field<W>, a: W, t: W, c: W)
    requires Laws(k)
    ensures k.xor(k.xor(a, t), k.xor(c, t)) == k.xor(a, c)
    ensures k.xor(k.xor(a, t), k.xor(t, c)) == k.xor(a, c)
    ensures k.xor(k.xor(t, a), k.xor(t, c)) == k.xor(a, c)
    ensures k.xor(k.xor(a, t), t) == a
  {
    Exchange(k, a, t, c, t);
    assert Unit(k, t) && Unit(k, k.xor(a, c)) && Unit(k, a);
    assert Comm(k, t, c) && Comm(k, t, a);
    assert Assoc(k, a, t, t);
  }

  lemma DropBoth<W(!new)>(k: Field<W>, a: W, t: W, p: W, c: W, r: W)
    requires Laws(k)
    ensures k.xor(k.xor(a, k.xor(t, p)), k.xor(c, k.xor(t, r))) == k.xor(k.xor(a, c), k.xor(p, r))
  {
    Exchange(k, a, k.xor(t, p), c, k.xor(t, r));
    Drop(k, p, t, r);
  }

  /** The sum of a column does not depend on where it starts. */
  lemma TurnedSum<W(!new)>(k: Field<W>, a: Col<W>)
    requires Laws(k)
    ensures Sum(k, Turn(a)) == Sum(k, a)
    ensures Sum(k, a) == k.xor(k.xor(a.c0, a.c1), k.xor(a.c2, a.c3))
    ensures Sum(k, a) == k.xor(k.xor(a.c0, a.c2), k.xor(a.c1, a.c3))
  {
    assert Assoc(k, k.xor(a.c0, a.c1), a.c2, a.c3);
    assert Assoc(k, k.xor(a.c1, a.c2), a.c3, a.c0);
    Exchange(k, a.c0, a.c1, a.c2, a.c3);
    Exchange(k, a.c1, a.c2, a.c3, a.c0);
    assert Comm(k, a.c2, a.c0) && Comm(k, k.xor(a.c1, a.c3), k.xor(a.c0, a.c2));
  }

  // Inverse mixing takes mixing back.

  /** The doubled sums of neighbours in a column: p, q, r, s. */
  datatype Edges<W> = Edges(p: W, q: W, r: W, s: W)

  function EdgesOf<W>(k: Field<W>, a: Col<W>): Edges<W> {
    Edges(k.xtime(k.xor(a.c0, a.c1)), k.xtime(k.xor(a.c1, a.c2)),
          k.xtime(k.xor(a.c2, a.c3)), k.xtime(k.xor(a.c3, a.c0)))
  }

  lemma EdgeSums<W(!new)>(k: Field<W>, a: Col<W>)
    requires Laws(k)
    ensures var e := EdgesOf(k, a);
            && k.xtime(k.xor(a.c0, a.c2)) == k.xor(e.p, e.q)
            && k.xor(e.p, e.r) == k.xtime(Sum(k, a))
            && k.xor(e.q, e.s) == k.xtime(Sum(k, a))
  {
    Drop(k, a.c0, a.c1, a.c2);
    assert Doubles(k, k.xor(a.c0, a.c1), k.xor(a.c1, a.c2));
    assert Doubles(k, k.xor(a.c0, a.c1), k.xor(a.c2, a.c3));
    assert Doubles(k, k.xor(a.c1, a.c2), k.xor(a.c3, a.c0));
    TurnedSum(k, a);
    TurnedSum(k, Turn(a));
  }

  /** The first correction that inverse mixing makes to a mixed column. */
  lemma Correction<W(!new)>(k: Field<W>, a: Col<W>)
    requires Laws(k)
    ensures var m, e := MixCol(k, a), EdgesOf(k, a);
            && k.xor(m.c0, m.c2) == k.xor(k.xor(a.c0, a.c2), k.xor(e.p, e.r))
            && k.xtime(k.xtime(k.xor(m.c0, m.c2)))
               == k.xor(k.xtime(k.xor(e.p, e.q)), k.xtime(k.xtime(k.xor(e.p, e.r))))
  {
    var m, e, t := MixCol(k, a), EdgesOf(k, a), Sum(k, a);
    DropBoth(k, a.c0, t, e.p, a.c2, e.r);
    EdgeSums(k, a);
    assert Doubles(k, k.xor(a.c0, a.c2), k.xor(e.p, e.r));
    assert Doubles(k, k.xor(e.p, e.q), k.xtime(k.xor(e.p, e.r)));
  }

  /** Mixing a turned column turns the mixed column. */
  lemma MixTurns<W(!new)>(k: Field<W>, a: Col<W>)
    requires Laws(k)
    ensures MixCol(k, Turn(a)) == Turn(MixCol(k, a))
  {
    TurnedSum(k, a);
  }

  lemma PreMixTurns<W(!new)>(k: Field<W>, m: Col<W>)
    requires Laws(k)
    ensures PreMix(k, Turn(m)) == Turn(PreMix(k, m))
  {
    assert Comm(k, m.c0, m.c2) && Comm(k, m.c1, m.c3);
  }

  /** Mixing keeps the sum of a column, and so do the corrections. */
  lemma SumsKept<W(!new)>(k: Field<W>, a: Col<W>)
    requires Laws(k)
    ensures Sum(k, MixCol(k, a)) == Sum(k, a)
    ensures Sum(k, PreMix(k, MixCol(k, a))) == Sum(k, a)
  {
    var m, e := MixCol(k, a), EdgesOf(k, a);
    var u, v := k.xtime(k.xtime(k.xor(m.c0, m.c2))), k.xtime(k.xtime(k.xor(m.c1, m.c3)));
    Correction(k, a);
    Correction(k, Turn(a));
    MixTurns(k, a);
    EdgeSums(k, a);
    Drop(k, k.xor(a.c0, a.c2), k.xor(e.p, e.r), k.xor(a.c1, a.c3));
    TurnedSum(k, a);
    TurnedSum(k, m);
    Drop(k, m.c0, u, m.c2);
    Drop(k, m.c1, v, m.c3);
    TurnedSum(k, PreMix(k, m));
  }

  /** The two corrections together. */
  lemma Corrections<W(!new)>(k: Field<W>, a: Col<W>)
    requires Laws(k)
    ensures var m, e := MixCol(k, a), EdgesOf(k, a);
            var u, v := k.xtime(k.xtime(k.xor(m.c0, m.c2))), k.xtime(k.xtime(k.xor(m.c1, m.c3)));
            && u == k.xor(k.xtime(k.xor(e.p, e.q)), k.xtime(k.xtime(k.xor(e.p, e.r))))
            && k.xor(u, v) == k.xtime(k.xor(e.p, e.r))
  {
    var e := EdgesOf(k, a);
    Correction(k, a);
    Correction(k, Turn(a));
    MixTurns(k, a);
    EdgeSums(k, a);
    var z := k.xtime(k.xtime(k.xor(e.p, e.r)));
    Drop(k, k.xtime(k.xor(e.p, e.q)), z, k.xtime(k.xor(e.q, e.r)));
    assert Doubles(k, k.xor(e.p, e.q), k.xor(e.q, e.r));
    Drop(k, e.p, e.q, e.r);
  }

  lemma Collect<W(!new)>(k: Field<W>, a: W, t: W, p: W, y: W, z: W)
    requires Laws(k)
    ensures k.xor(k.xor(k.xor(a, k.xor(t, p)), k.xor(y, z)), k.xor(t, k.xor(k.xor(p, y), z))) == a
  {
    var w, e := k.xor(t, p), k.xor(y, z);
    assert Assoc(k, p, y, z) && Assoc(k, t, p, e) && Assoc(k, a, w, e);
    Drop(k, a, k.xor(w, e), a);
  }

  /** The first byte comes back. */
  lemma FirstBack<W(!new)>(k: Field<W>, a: Col<W>)
    requires Laws(k)
    ensures InvMixCol(k, MixCol(k, a)).c0 == a.c0
  {
    var m, e, t := MixCol(k, a), EdgesOf(k, a), Sum(k, a);
    var u, v := k.xtime(k.xtime(k.xor(m.c0, m.c2))), k.xtime(k.xtime(k.xor(m.c1, m.c3)));
    Corrections(k, a);
    SumsKept(k, a);
    Exchange(k, m.c0, u, m.c1, v);
    assert Doubles(k, k.xor(m.c0, m.c1), k.xor(u, v));
    DropBoth(k, a.c0, t, e.p, a.c1, e.q);
    assert Doubles(k, k.xor(a.c0, a.c1), k.xor(e.p, e.q));
    Collect(k, a.c0, t, e.p, k.xtime(k.xor(e.p, e.q)), k.xtime(k.xtime(k.xor(e.p, e.r))));
  }

  lemma InvMixTurns<W(!new)>(k: Field<W>, a: Col<W>)
    requires Laws(k)
    ensures InvMixCol(k, MixCol(k, Turn(a))) == Turn(InvMixCol(k, MixCol(k, a)))
  {
    MixTurns(k, a);
    PreMixTurns(k, MixCol(k, a));
    MixTurns(k, PreMix(k, MixCol(k, a)));
  }

  /** Inverse mixing takes mixing back, whatever the doubling, as long as it is linear. */
  lemma MixBack<W(!new)>(k: Field<W>, a: Col<W>)
    requires Laws(k)
    ensures InvMixCol(k, MixCol(k, a)) == a
  {
    var a1, a2, a3 := Turn(a), Turn(Turn(a)), Turn(Turn(Turn(a)));
    FirstBack(k, a);
    FirstBack(k, a1);
    FirstBack(k, a2);
    FirstBack(k, a3);
    InvMixTurns(k, a);
    InvMixTurns(k, a1);
    InvMixTurns(k, a2);
  }

  lemma Gather<W(!new)>(k: Field<W>, a: W, u: W, t: W, p: W, x: W)
    requires Laws(k)
    ensures k.xor(k.xor(a, u), k.xor(t, k.xor(p, x))) == k.xor(k.xor(a, k.xor(t, p)), k.xor(u, x))
  {
    assert Assoc(k, t, p, x);
    Exchange(k, a, u, k.xor(t, p), x);
  }

  /** Mixing and what inverse mixing does first can change places: both are sums of turns. */
  lemma PreMixFirst<W(!new)>(k: Field<W>, a: Col<W>)
    requires Laws(k)
    ensures PreMix(k, MixCol(k, a)).c0 == MixCol(k, PreMix(k, a)).c0
  {
    var m, e, t := MixCol(k, a), EdgesOf(k, a), Sum(k, a);
    var u, v := k.xtime(k.xtime(k.xor(a.c0, a.c2))), k.xtime(k.xtime(k.xor(a.c1, a.c3)));
    var x := k.xtime(k.xtime(k.xtime(t)));
    Correction(k, a);
    EdgeSums(k, a);
    TurnedSum(k, a);
    assert Doubles(k, k.xor(a.c0, a.c2), k.xor(e.p, e.r));
    assert Doubles(k, k.xtime(k.xor(a.c0, a.c2)), k.xtime(k.xor(e.p, e.r)));
    assert k.xtime(k.xtime(k.xor(m.c0, m.c2))) == k.xor(u, x);
    Drop(k, a.c0, u, a.c2);
    Drop(k, a.c1, v, a.c3);
    TurnedSum(k, PreMix(k, a));
    Exchange(k, a.c0, u, a.c1, v);
    assert Doubles(k, k.xor(a.c0, a.c2), k.xor(a.c1, a.c3));
    assert Doubles(k, k.xtime(k.xor(a.c0, a.c2)), k.xtime(k.xor(a.c1, a.c3)));
    assert k.xor(u, v) == k.xtime(k.xtime(t));
    assert Doubles(k, k.xor(a.c0, a.c1), k.xor(u, v));
    Gather(k, a.c0, u, t, e.p, x);
  }

  lemma PreMixCommutes<W(!new)>(k: Field<W>, a: Col<W>)
    requires Laws(k)
    ensures PreMix(k, MixCol(k, a)) == MixCol(k, PreMix(k, a))
  {
    var a1, a2, a3 := Turn(a), Turn(Turn(a)), Turn(Turn(Turn(a)));
    PreMixFirst(k, a);
    PreMixFirst(k, a1);
    PreMixFirst(k, a2);
    PreMixFirst(k, a3);
    BothTurn(k, a);
    BothTurn(k, a1);
    BothTurn(k, a2);
  }

  lemma BothTurn<W(!new)>(k: Field<W>, a: Col<W>)
    requires Laws(k)
    ensures PreMix(k, MixCol(k, Turn(a))) == Turn(PreMix(k, MixCol(k, a)))
    ensures MixCol(k, PreMix(k, Turn(a))) == Turn(MixCol(k, PreMix(k, a)))
  {
    MixTurns(k, a);
    PreMixTurns(k, MixCol(k, a));
    PreMixTurns(k, a);
    MixTurns(k, PreMix(k, a));
  }

  /** Mixing takes inverse mixing back as well. */
  lemma MixForth<W(!new)>(k: Field<W>, a: Col<W>)
    requires Laws(k)
    ensures MixCol(k, InvMixCol(k, a)) == a
  {
    PreMixCommutes(k, a);
    PreMixCommutes(k, MixCol(k, a));
    MixBack(k, a);
  }

  // The round functions on a state.

  const SIZE: nat := 16

  function SubState<W>(f: W -> W, t: State<W>): (r: State<W>)
    requires |t| == SIZE
    ensures |r| == SIZE
  {
    seq(SIZE, i requires 0 <= i < SIZE => f(t[i]))
  }

  function AddKey<W>(k: Field<W>, t: State<W>, key: State<W>): (r: State<W>)
    requires |t| == SIZE && |key| == SIZE
    ensures |r| == SIZE
  {
    seq(SIZE, i requires 0 <= i < SIZE => k.xor(t[i], key[i]))
  }

  /** Byte j of column i comes from column i - j. */
  function ShiftState<W>(t: State<W>): (r: State<W>)
    requires |t| == SIZE
    ensures |r| == SIZE
  {
    [t[0], t[13], t[10], t[7], t[4], t[1], t[14], t[11],
     t[8], t[5], t[2], t[15], t[12], t[9], t[6], t[3]]
  }

  /** Byte j of column i comes from column i + j. */
  function InvShiftState<W>(t: State<W>): (r: State<W>)
    requires |t| == SIZE
    ensures |r| == SIZE
  {
    [t[0], t[5], t[10], t[15], t[4], t[9], t[14], t[3],
     t[8], t[13], t[2], t[7], t[12], t[1], t[6], t[11]]
  }

  function Column<W>(t: State<W>, i: nat): Col<W>
    requires |t| == SIZE && i < 4
  {
    Col(t[4 * i], t[4 * i + 1], t[4 * i + 2], t[4 * i + 3])
  }

  function Columns<W>(a: Col<W>, b: Col<W>, c: Col<W>, d: Col<W>): (t: State<W>)
    ensures |t| == SIZE
  {
    [a.c0, a.c1, a.c2, a.c3, b.c0, b.c1, b.c2, b.c3, c.c0, c.c1, c.c2, c.c3, d.c0, d.c1, d.c2, d.c3]
  }

  function MixState<W>(k: Field<W>, t: State<W>): (r: State<W>)
    requires |t| == SIZE
    ensures |r| == SIZE
  {
    Columns(MixCol(k, Column(t, 0)), MixCol(k, Column(t, 1)), MixCol(k, Column(t, 2)), MixCol(k, Column(t, 3)))
  }

  function InvMixState<W>(k: Field<W>, t: State<W>): (r: State<W>)
    requires |t| == SIZE
    ensures |r| == SIZE
  {
    Columns(InvMixCol(k, Column(t, 0)), InvMixCol(k, Column(t, 1)), InvMixCol(k, Column(t, 2)),
        InvMixCol(k, Column(t, 3)))
  }

  lemma ShiftBack<W>(t: State<W>)
    requires |t| == SIZE
    ensures InvShiftState(ShiftState(t)) == t && ShiftState(InvShiftState(t)) == t
  {
  }

  /**
   Row j moves by j columns against the direction of section 5.1.2 of FIPS 197, which takes
   byte j of column i from column i + j.
   */
  lemma ShiftsAreSwapped<W>(t: State<W>, i: nat, j: nat)
    requires |t| == SIZE && i < 4 && j < 4
    ensures ShiftState(t)[4 * i + j] == t[4 * ((i + 4 - j) % 4) + j]
    ensures InvShiftState(t)[4 * i + j] == t[4 * ((i + j) % 4) + j]
  {
  }

  /** So a shift is the one of the standard only where rows 1 and 3 repeat after two columns. */
  lemma ShiftsDiffer<W>(t: State<W>)
    requires |t| == SIZE
    ensures ShiftState(t) == InvShiftState(t) <==> t[1] == t[9] && t[5] == t[13] && t[3] == t[11] && t[7] == t[15]
  {
    var s, r := ShiftState(t), InvShiftState(t);
    assert s[5] == t[1] && r[5] == t[9] && s[1] == t[13] && r[1] == t[5];
    assert s[3] == t[7] && r[3] == t[15] && s[7] == t[11] && r[7] == t[3];
  }

  lemma SubBack<W(!new)>(k: Field<W>, t: State<W>)
    requires Laws(k) && |t| == SIZE
    ensures SubState(k.inv, SubState(k.sub, t)) == t && SubState(k.sub, SubState(k.inv, t)) == t
  {
    assert forall i :: 0 <= i < SIZE ==> Subs(k, t[i]);
  }

  lemma AddBack<W(!new)>(k: Field<W>, t: State<W>, key: State<W>)
    requires Laws(k) && |t| == SIZE && |key| == SIZE
    ensures AddKey(k, AddKey(k, t, key), key) == t
  {
    forall i | 0 <= i < SIZE
      ensures k.xor(k.xor(t[i], key[i]), key[i]) == t[i]
    {
      Drop(k, t[i], key[i], t[i]);
    }
  }

  lemma MixStateBack<W(!new)>(k: Field<W>, t: State<W>)
    requires Laws(k) && |t| == SIZE
    ensures InvMixState(k, MixState(k, t)) == t
  {
    var r := MixState(k, t);
    MixBack(k, Column(t, 0));
    MixBack(k, Column(t, 1));
    MixBack(k, Column(t, 2));
    MixBack(k, Column(t, 3));
    assert Column(r, 0) == MixCol(k, Column(t, 0)) && Column(r, 1) == MixCol(k, Column(t, 1));
    assert Column(r, 2) == MixCol(k, Column(t, 2)) && Column(r, 3) == MixCol(k, Column(t, 3));
    assert t == Columns(Column(t, 0), Column(t, 1), Column(t, 2), Column(t, 3));
  }

  // Encryption and decryption with given round keys.

  const N_ROUNDS: nat := 10

  predicate KeysOk<W>(keys: seq<State<W>>) {
    |keys| == N_ROUNDS + 1 && forall i :: 0 <= i < |keys| ==> |keys[i]| == SIZE
  }

  /** Substitution and shift. */
  function Scramble<W>(k: Field<W>, t: State<W>): (r: State<W>)
    requires |t| == SIZE
    ensures |r| == SIZE
  {
    ShiftState(SubState(k.sub, t))
  }

  function Unscramble<W>(k: Field<W>, t: State<W>): (r: State<W>)
    requires |t| == SIZE
    ensures |r| == SIZE
  {
    SubState(k.inv, InvShiftState(t))
  }

  lemma UnscrambleBack<W(!new)>(k: Field<W>, t: State<W>)
    requires Laws(k) && |t| == SIZE
    ensures Unscramble(k, Scramble(k, t)) == t
  {
    ShiftBack(SubState(k.sub, t));
    SubBack(k, t);
  }

  function EncryptRound<W>(k: Field<W>, t: State<W>, key: State<W>): (r: State<W>)
    requires |t| == SIZE && |key| == SIZE
    ensures |r| == SIZE
  {
    AddKey(k, MixState(k, Scramble(k, t)), key)
  }

  function DecryptRound<W>(k: Field<W>, t: State<W>, key: State<W>): (r: State<W>)
    requires |t| == SIZE && |key| == SIZE
    ensures |r| == SIZE
  {
    InvMixState(k, AddKey(k, Unscramble(k, t), key))
  }

  /** Rounds as functions on lists of any length, so that they can be run over a list of keys. */
  function EncryptsWith<W>(k: Field<W>): (State<W>, State<W>) -> State<W> {
    (t, key) => if |t| == SIZE && |key| == SIZE then EncryptRound(k, t, key) else t
  }

  function DecryptsWith<W>(k: Field<W>): (State<W>, State<W>) -> State<W> {
    (t, key) => if |t| == SIZE && |key| == SIZE then DecryptRound(k, t, key) else t
  }

  function Iterate<S, K>(f: (S, K) -> S, keys: seq<K>, s: S): S {
    if keys == [] then s else f(Iterate(f, keys[..|keys| - 1], s), keys[|keys| - 1])
  }

  function Backwards<K>(keys: seq<K>): (r: seq<K>)
    ensures |r| == |keys|
  {
    if keys == [] then [] else [keys[|keys| - 1]] + Backwards(keys[..|keys| - 1])
  }

  function AllRounds<W>(f: (State<W>, State<W>) -> State<W>, keys: seq<State<W>>, s: State<W>): State<W>
    requires |keys| == N_ROUNDS + 1
  {
    Iterate(f, keys[1..N_ROUNDS], s)
  }

  /** An initial key, nine full rounds, and a last one that does not mix. */
  function EncryptState<W>(k: Field<W>, keys: seq<State<W>>, m: State<W>): (c: State<W>)
    requires KeysOk(keys) && |m| == SIZE
  {
    var t := AllRounds(EncryptsWith(k), keys, AddKey(k, m, keys[0]));
    if |t| == SIZE then AddKey(k, Scramble(k, t), keys[N_ROUNDS]) else t
  }

  function DecryptState<W>(k: Field<W>, keys: seq<State<W>>, c: State<W>): (m: State<W>)
    requires KeysOk(keys) && |c| == SIZE
  {
    var t := Iterate(DecryptsWith(k), Backwards(keys[1..N_ROUNDS]), AddKey(k, c, keys[N_ROUNDS]));
    if |t| == SIZE then AddKey(k, Unscramble(k, t), keys[0]) else t
  }

  lemma {:induction false} IterateFirst<S, K>(f: (S, K) -> S, key: K, keys: seq<K>, s: S)
    ensures Iterate(f, [key] + keys, s) == Iterate(f, keys, f(s, key))
  {
    var all := [key] + keys;
    if keys == [] {
      assert all[..0] == [] && all[0] == key;
      assert Iterate(f, all[..0], s) == s;
    } else {
      assert all[..|all| - 1] == [key] + keys[..|keys| - 1];
      IterateFirst(f, key, keys[..|keys| - 1], s);
    }
  }

  /** A round of g takes the scrambled result of a round of f back to what was scrambled before. */
  predicate Undoes<W(==)>(f: (State<W>, State<W>) -> State<W>, g: (State<W>, State<W>) -> State<W>,
                          h: State<W> -> State<W>, t: State<W>, key: State<W>) {
    |t| == SIZE && |key| == SIZE ==> |f(t, key)| == SIZE && g(h(f(t, key)), key) == h(t)
  }

  ghost predicate AllUndone<W(!new)>(f: (State<W>, State<W>) -> State<W>, g: (State<W>, State<W>) -> State<W>,
                                     h: State<W> -> State<W>) {
    forall t, key :: Undoes(f, g, h, t, key)
  }

  /** Running g over the keys backwards takes all rounds of f back. */
  lemma {:induction false} RoundsBack<W(!new)>(f: (State<W>, State<W>) -> State<W>, g: (State<W>, State<W>) -> State<W>,
                                               h: State<W> -> State<W>, keys: seq<State<W>>, s: State<W>)
    requires AllUndone(f, g, h) && |s| == SIZE && forall i :: 0 <= i < |keys| ==> |keys[i]| == SIZE
    ensures |Iterate(f, keys, s)| == SIZE
    ensures Iterate(g, Backwards(keys), h(Iterate(f, keys, s))) == h(s)
  {
    if keys != [] {
      var front, last := keys[..|keys| - 1], keys[|keys| - 1];
      RoundsBack(f, g, h, front, s);
      var t := Iterate(f, front, s);
      assert Undoes(f, g, h, t, last);
      IterateFirst(g, last, Backwards(front), h(f(t, last)));
    }
  }

  function Scrambles<W>(k: Field<W>): State<W> -> State<W> {
    t => if |t| == SIZE then Scramble(k, t) else t
  }

  lemma RoundBack<W(!new)>(k: Field<W>, t: State<W>, key: State<W>)
    requires Laws(k) && |t| == SIZE && |key| == SIZE
    ensures DecryptRound(k, Scramble(k, EncryptRound(k, t, key)), key) == Scramble(k, t)
  {
    UnscrambleBack(k, EncryptRound(k, t, key));
    AddBack(k, MixState(k, Scramble(k, t)), key);
    MixStateBack(k, Scramble(k, t));
  }

  lemma RoundsUndone<W(!new)>(k: Field<W>)
    requires Laws(k)
    ensures AllUndone(EncryptsWith(k), DecryptsWith(k), Scrambles(k))
  {
    forall t, key
      ensures Undoes(EncryptsWith(k), DecryptsWith(k), Scrambles(k), t, key)
    {
      if |t| == SIZE && |key| == SIZE {
        RoundBack(k, t, key);
      }
    }
  }

  /** Decryption takes encryption back, with any 11 round keys. */
  lemma StateBack<W(!new)>(k: Field<W>, keys: seq<State<W>>, m: State<W>)
    requires Laws(k) && KeysOk(keys) && |m| == SIZE
    ensures |EncryptState(k, keys, m)| == SIZE
    ensures DecryptState(k, keys, EncryptState(k, keys, m)) == m
  {
    var first := AddKey(k, m, keys[0]);
    RoundsUndone(k);
    RoundsBack(EncryptsWith(k), DecryptsWith(k), Scrambles(k), keys[1..N_ROUNDS], first);
    EndsBack(k, keys, m, AllRounds(EncryptsWith(k), keys, first));
  }

  lemma EndsBack<W(!new)>(k: Field<W>, keys: seq<State<W>>, m: State<W>, t: State<W>)
    requires Laws(k) && KeysOk(keys) && |m| == SIZE && |t| == SIZE
    ensures AddKey(k, AddKey(k, Scramble(k, t), keys[N_ROUNDS]), keys[N_ROUNDS]) == Scramble(k, t)
    ensures AddKey(k, Unscramble(k, Scramble(k, AddKey(k, m, keys[0]))), keys[0]) == m
  {
    AddBack(k, Scramble(k, t), keys[N_ROUNDS]);
    UnscrambleBack(k, AddKey(k, m, keys[0]));
    AddBack(k, m, keys[0]);
  }

  // The key schedule.

  predicate KeySize(n: nat) {
    n == 16 || n == 24 || n == 32
  }

  function Rotated<W>(w: seq<W>): seq<W>
    requires |w| == 4
  {
    [w[1], w[2], w[3], w[0]]
  }

  function SubWord<W>(f: W -> W, w: seq<W>): (r: seq<W>)
    requires |w| == 4
    ensures |r| == 4
  {
    [f(w[0]), f(w[1]), f(w[2]), f(w[3])]
  }

  function XorWord<W>(k: Field<W>, a: seq<W>, b: seq<W>): (r: seq<W>)
    requires |a| == 4 && |b| == 4
    ensures |r| == 4
  {
    [k.xor(a[0], b[0]), k.xor(a[1], b[1]), k.xor(a[2], b[2]), k.xor(a[3], b[3])]
  }

  /** What happens to the previous column before column i, `n` columns to a key. */
  function Core<W>(k: Field<W>, n: nat, i: nat, w: seq<W>): (r: seq<W>)
    requires n > 0 && |w| == 4
    ensures |r| == 4
  {
    if i % n == 0 then
      var v := SubWord(k.sub, Rotated(w));
      [k.xor(v[0], k.rcon(i / n)), v[1], v[2], v[3]]
    else if n == 8 && i % n == 4 then SubWord(k.sub, w)
    else w
  }

  /** Column i of the expanded key, as section 5.2 of FIPS 197 defines it. */
  function KeyColumn<W>(k: Field<W>, key: seq<W>, i: nat): (w: seq<W>)
    requires KeySize(|key|)
    ensures |w| == 4
  {
    var n := |key| / 4;
    if i < n then key[4 * i..4 * i + 4]
    else XorWord(k, Core(k, n, i, KeyColumn(k, key, i - 1)), KeyColumn(k, key, i - n))
  }

  function RoundKey<W>(k: Field<W>, key: seq<W>, r: nat): (t: State<W>)
    requires KeySize(|key|)
    ensures |t| == SIZE
  {
    KeyColumn(k, key, 4 * r) + KeyColumn(k, key, 4 * r + 1) + KeyColumn(k, key, 4 * r + 2)
        + KeyColumn(k, key, 4 * r + 3)
  }

  function RoundKeys<W>(k: Field<W>, key: seq<W>): (keys: seq<State<W>>)
    requires KeySize(|key|)
    ensures KeysOk(keys)
  {
    seq(N_ROUNDS + 1, r requires 0 <= r <= N_ROUNDS => RoundKey(k, key, r))
  }

  /** For every block and key of an allowed size, decryption takes encryption back. */
  lemma BlockBack<W(!new)>(k: Field<W>, key: seq<W>, m: State<W>)
    requires Laws(k) && KeySize(|key|) && |m| == SIZE
    ensures |EncryptState(k, RoundKeys(k, key), m)| == SIZE
    ensures DecryptState(k, RoundKeys(k, key), EncryptState(k, RoundKeys(k, key), m)) == m
  {
    StateBack(k, RoundKeys(k, key), m);
  }
}
