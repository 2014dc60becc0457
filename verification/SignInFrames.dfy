/** The calls of the sign-in protocol, byte by byte: what goes over the wire, and what it changes. */
module SignInFrames {
  import opened SignInProtocol

  /** The number that four bytes are, least significant first. */
  function Number(b: seq<Byte>): nat
    requires |b| == 4
  {
    (b[0] as int) + 0x100 * (b[1] as int) + 0x1_0000 * (b[2] as int) + 0x100_0000 * (b[3] as int)
  }

  lemma FourDigits(n: nat)
    requires n < 0x1_0000_0000
    ensures n == n % 0x100 + 0x100 * (n / 0x100 % 0x100) + 0x1_0000 * (n / 0x1_0000 % 0x100)
                 + 0x100_0000 * (n / 0x100_0000 % 0x100)
  {
    assert n == 0x100 * (n / 0x100) + n % 0x100;
    assert n / 0x100 == 0x100 * (n / 0x1_0000) + n / 0x100 % 0x100;
    assert n / 0x1_0000 == 0x100 * (n / 0x100_0000) + n / 0x1_0000 % 0x100;
  }

  lemma IntegerBytes(i: int)
    requires IsInt32(i)
    ensures Number(Int32Bytes(i)) == i % 0x1_0000_0000
  {
    FourDigits(Unsigned(i));
  }

  function OperationByte(r: Request): nat {
    match r
    case New(_, _) => 0
    case Del(_) => 1
    case Exec(_) => 2
    case Exit => 3
  }

  function Index(r: Request): int
    requires !r.Exit?
  {
    match r
    case New(index, _) => index
    case Del(index) => index
    case Exec(index) => index
  }

  lemma Pieces(a: seq<Byte>, op: Byte, rest: seq<Byte>, w: seq<Byte>)
    requires |a| == 256 && w == a + ([op] + rest)
    ensures |w| == 257 + |rest| && w[..256] == a && w[256] == op && w[257..] == rest
  {
  }

  lemma Between(w: seq<Byte>, x: seq<Byte>, y: seq<Byte>, z: seq<Byte>)
    requires |w| >= 257 && |x| == |y| == 4
    ensures w[257..] == x + (y + z) ==> |w| == 265 + |z| && w[257..261] == x && w[261..265] == y && w[265..] == z
    ensures w[257..] == x ==> |w| == 261 && w[257..261] == x
  {
    if w[257..] == x + (y + z) {
      assert w[257..261] == w[257..][..4] && w[261..265] == w[257..][4..8] && w[265..] == w[257..][8..];
    }
  }

  /** The buffer, the operation, the index, and for NEW the length and the code. */
  lemma Frame(globals: seq<Byte>, r: Request)
    requires Sendable(r) && |globals| == 256
    ensures var w := Concat(Writes(globals, r));
            && |w| == (match r case Exit => 257 case New(_, body) => 265 + |body| case _ => 261)
            && w[..256] == globals && w[256] as int == OperationByte(r)
            && (!r.Exit? ==> Number(w[257..261]) == Index(r) % 0x1_0000_0000)
            && (r.New? ==> Number(w[261..265]) == |r.body| && w[265..] == r.body)
  {
    var w := Concat(Writes(globals, r));
    WritesAre(globals, r);
    FieldsAre(r);
    Pieces(globals, Opcode(r), Concat(Fields(r)), w);
    match r
    case New(index, body) =>
      IntegerBytes(index);
      IntegerBytes(|body|);
      Between(w, Int32Bytes(index), Int32Bytes(|body|), body);
    case Del(index) =>
      IntegerBytes(index);
      Between(w, Int32Bytes(index), Int32Bytes(0), []);
    case Exec(index) =>
      IntegerBytes(index);
      Between(w, Int32Bytes(index), Int32Bytes(0), []);
    case Exit =>
  }

  /** The client accepts slots 0 to 499, and code that leaves at least one byte of its slot free. */
  lemma AcceptedExactly(r: Request)
    ensures Accepted(r) <==> r.Exit? || (0 <= Index(r) <= 499 && (r.New? ==> |r.body| <= 255))
  {
  }

  /** The slot that a call names, or none. */
  predicate Elsewhere(r: Request, slot: nat) {
    r.Exit? || slot != Index(r)
  }

  /** The client takes over the buffer of the server, and a call changes the slot it names and no other. */
  lemma Effects(exec: Effect, t: Turn, m: Memory)
    requires m.Valid() && TurnOk(t) && Accepted(t.request) && !t.request.Exec?
    ensures AfterTurn(exec, t, m).globals == t.globals && AfterTurn(exec, t, m).Valid()
    ensures forall s: nat :: s < 500 && Elsewhere(t.request, s) ==> AfterTurn(exec, t, m).slots[s] == m.slots[s]
    ensures t.request.New? ==>
      var i, body := t.request.index, t.request.body;
      forall j :: 0 <= j < 256 ==>
        AfterTurn(exec, t, m).slots[i][j] == if j < |body| then body[j] else m.slots[i][j]
    ensures t.request.Del? ==>
      forall j :: 0 <= j < 256 ==> AfterTurn(exec, t, m).slots[t.request.index][j] as int == 0xC3
  {
  }

  /** EXEC runs what stands in the slot, with the buffer of the server. */
  lemma ExecEffect(exec: Effect, t: Turn, m: Memory)
    requires m.Valid() && TurnOk(t) && Accepted(t.request) && t.request.Exec?
    ensures AfterTurn(exec, t, m) == exec(t.request.index, Memory(t.globals, m.slots))
  {
  }
}
