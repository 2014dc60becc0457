/**
 The framed protocol between the sign-in server and its client, as a state machine: the
 server writes a frame piece by piece and waits for the reply, the client reads it field by
 field, acts on it and replies. Reads and writes of the two sides interleave in any order
 over two reliable byte channels.
 */
module SignInProtocol {

  type Byte = x: nat | x < 0x100

  const BUFFER: nat := 0x100
  const SLOTS: nat := 500
  const RET: Byte := 0xC3

  const OPT_NEW: Byte := 0
  const OPT_DEL: Byte := 1
  const OPT_EXEC: Byte := 2
  const OPT_EXIT: Byte := 3

  // Integers travel as four bytes, least significant first, in two's complement.

  predicate IsInt32(i: int) {
    -0x8000_0000 <= i < 0x8000_0000
  }

  function Unsigned(i: int): nat
    requires IsInt32(i)
  {
    if i >= 0 then i else i + 0x1_0000_0000
  }

  function Int32Bytes(i: int): (b: seq<Byte>)
    requires IsInt32(i)
    ensures |b| == 4
  {
    var n := Unsigned(i);
    [n % 0x100, n / 0x100 % 0x100, n / 0x1_0000 % 0x100, n / 0x100_0000 % 0x100]
  }

  function BytesInt32(b: seq<Byte>): (i: int)
    requires |b| == 4
    ensures IsInt32(i)
  {
    var n: nat := (b[0] as int) + 0x100 * (b[1] as int) + 0x1_0000 * (b[2] as int) + 0x100_0000 * (b[3] as int);
    if n < 0x8000_0000 then n else n - 0x1_0000_0000
  }

  lemma Int32RoundTrip(i: int)
    requires IsInt32(i)
    ensures BytesInt32(Int32Bytes(i)) == i
  {
    var n := Unsigned(i);
    assert n == 0x100 * (n / 0x100) + n % 0x100;
    assert n / 0x100 == 0x100 * (n / 0x1_0000) + n / 0x100 % 0x100;
    assert n / 0x1_0000 == 0x100 * (n / 0x100_0000) + n / 0x1_0000 % 0x100;
  }

  /** A call of the server. */
  datatype Request =
    | New(index: int, body: seq<Byte>)
    | Del(index: int)
    | Exec(index: int)
    | Exit

  /** What fits the integers of the frame. */
  predicate Sendable(r: Request) {
    match r
    case New(index, body) => IsInt32(index) && |body| < 0x8000_0000
    case Del(index) => IsInt32(index)
    case Exec(index) => IsInt32(index)
    case Exit => true
  }

  /** What the client accepts; anything else makes it quit. */
  predicate Accepted(r: Request) {
    match r
    case New(index, body) => 0 <= index < SLOTS && |body| < BUFFER
    case Del(index) => 0 <= index < SLOTS
    case Exec(index) => 0 <= index < SLOTS
    case Exit => true
  }

  function Opcode(r: Request): Byte {
    match r
    case New(_, _) => OPT_NEW
    case Del(_) => OPT_DEL
    case Exec(_) => OPT_EXEC
    case Exit => OPT_EXIT
  }

  /** The writes that follow the operation byte. */
  function Fields(r: Request): seq<seq<Byte>>
    requires Sendable(r)
  {
    match r
    case New(index, body) => [Int32Bytes(index), Int32Bytes(|body|), body]
    case Del(index) => [Int32Bytes(index)]
    case Exec(index) => [Int32Bytes(index)]
    case Exit => []
  }

  /** All writes of a call. */
  function Writes(globals: seq<Byte>, r: Request): seq<seq<Byte>>
    requires Sendable(r)
  {
    [globals, [Opcode(r)]] + Fields(r)
  }

  function Concat(chunks: seq<seq<Byte>>): seq<Byte> {
    if chunks == [] then [] else chunks[0] + Concat(chunks[1..])
  }

  // What the machine code in a slot does to the buffer and the slots.

  datatype Memory = Memory(globals: seq<Byte>, slots: seq<seq<Byte>>) {
    predicate Valid() {
      |globals| == BUFFER && |slots| == SLOTS && forall k :: 0 <= k < SLOTS ==> |slots[k]| == BUFFER
    }
  }

  type Effect = (int, Memory) -> Memory

  ghost predicate KeepsShape(exec: Effect) {
    forall i, m: Memory :: m.Valid() ==> exec(i, m).Valid()
  }

  function Repeated(b: Byte): seq<Byte> {
    seq(BUFFER, _ => b)
  }

  /** What a call does to the client's memory. */
  function Apply(exec: Effect, r: Request, m: Memory): Memory
    requires m.Valid() && Accepted(r)
  {
    match r
    case New(index, body) => m.(slots := m.slots[index := body + m.slots[index][|body|..]])
    case Del(index) => m.(slots := m.slots[index := Repeated(RET)])
    case Exec(index) => exec(index, m)
    case Exit => m
  }

  lemma ApplyValid(exec: Effect, r: Request, m: Memory)
    requires KeepsShape(exec) && m.Valid() && Accepted(r)
    ensures Apply(exec, r, m).Valid()
  {
  }

  // The two processes.

  datatype Phase =
    | Receive
    | ReadOperation
    | NewIndex
    | NewLength(index: int)
    | NewBody(index: int, length: int)
    | DelIndex
    | ExecIndex
    | Reply(last: bool)
    | Finished
    | Quit

  datatype Client = Client(phase: Phase, mem: Memory, sent: nat)

  /**
   `pending` are the writes still to do, `calling` says that a call is under way; `gone` that
   a write to a closed connection has ended the process.
   */
  datatype Server = Server(globals: seq<Byte>, pending: seq<seq<Byte>>, calling: bool, gone: bool)

  datatype Net = Net(server: Server, client: Client, toClient: seq<Byte>, toServer: seq<Byte>)

  /** How many bytes the client's next read takes. */
  function ReadSize(phase: Phase): nat {
    match phase
    case Receive => BUFFER
    case ReadOperation => 1
    case NewBody(_, length) => if length > 0 then length else 0
    case Reply(_) => 0
    case Finished => 0
    case Quit => 0
    case _ => 4
  }

  /** What the client does with the bytes of a read. */
  function OnRead(exec: Effect, c: Client, b: seq<Byte>): Client
    requires c.mem.Valid() && |b| == ReadSize(c.phase)
    requires c.phase.NewBody? ==> 0 <= c.phase.index < SLOTS && 0 <= c.phase.length < BUFFER
  {
    match c.phase
    case Receive => c.(phase := ReadOperation, mem := c.mem.(globals := b))
    case ReadOperation =>
      c.(phase := if b[0] == OPT_NEW then NewIndex
                  else if b[0] == OPT_DEL then DelIndex
                  else if b[0] == OPT_EXEC then ExecIndex
                  else Reply(true))
    case NewIndex =>
      var index := BytesInt32(b);
      c.(phase := if 0 <= index < SLOTS then NewLength(index) else Quit)
    case NewLength(index) =>
      var length := BytesInt32(b);
      c.(phase := if 0 <= length < BUFFER then NewBody(index, length) else Quit)
    case NewBody(index, length) =>
      c.(phase := Reply(false),
         mem := c.mem.(slots := c.mem.slots[index := b + c.mem.slots[index][length..]]))
    case DelIndex =>
      var index := BytesInt32(b);
      if 0 <= index < SLOTS
      then c.(phase := Reply(false), mem := c.mem.(slots := c.mem.slots[index := Repeated(RET)]))
      else c.(phase := Quit)
    case ExecIndex =>
      var index := BytesInt32(b);
      if 0 <= index < SLOTS
      then c.(phase := Reply(false), mem := exec(index, c.mem))
      else c.(phase := Quit)
    case _ => c
  }

  /** The client's memory is intact and a body read has a slot to go to. */
  predicate ClientOk(c: Client) {
    && c.mem.Valid()
    && (c.phase.NewLength? ==> 0 <= c.phase.index < SLOTS)
    && (c.phase.NewBody? ==> 0 <= c.phase.index < SLOTS && 0 <= c.phase.length < BUFFER)
  }

  predicate CanRead(n: Net) {
    && !(n.client.phase.Reply? || n.client.phase.Finished? || n.client.phase.Quit?)
    && |n.toClient| >= ReadSize(n.client.phase)
  }

  /** One step of one of the two sides. */
  predicate ServerWrites(n: Net, m: Net) {
    && n.server.calling && n.server.pending != []
    && m == n.(server := n.server.(pending := n.server.pending[1..]), toClient := n.toClient + n.server.pending[0])
  }

  predicate ServerReads(n: Net, m: Net) {
    && n.server.calling && n.server.pending == [] && |n.toServer| >= BUFFER
    && m == n.(server := Server(n.toServer[..BUFFER], [], false, n.server.gone), toServer := n.toServer[BUFFER..])
  }

  /** The client has closed the connection: the read gives nothing, and the buffer stays as it is. */
  predicate ServerFindsClosed(n: Net, m: Net) {
    && n.server.calling && n.server.pending == [] && n.client.phase.Quit? && n.toServer == []
    && m == n.(server := n.server.(calling := false))
  }

  /** A write to the closed connection may end the server by a signal, which it does not handle. */
  predicate ServerSignalled(n: Net, m: Net) {
    && n.server.calling && n.server.pending != [] && n.client.phase.Quit?
    && m == n.(server := n.server.(pending := [], calling := false, gone := true))
  }

  predicate ClientReads(exec: Effect, n: Net, m: Net) {
    && ClientOk(n.client) && CanRead(n)
    && m == n.(client := OnRead(exec, n.client, n.toClient[..ReadSize(n.client.phase)]),
               toClient := n.toClient[ReadSize(n.client.phase)..])
  }

  predicate ClientReplies(n: Net, m: Net) {
    && n.client.phase.Reply?
    && m == n.(client := n.client.(phase := if n.client.phase.last then Finished else Receive, sent := n.client.sent
        + 1),
               toServer := n.toServer + n.client.mem.globals)
  }

  predicate Step(exec: Effect, n: Net, m: Net) {
    || ServerWrites(n, m) || ServerReads(n, m) || ServerFindsClosed(n, m) || ServerSignalled(n, m)
    || ClientReads(exec, n, m) || ClientReplies(n, m)
  }

  // One call, from the first write to the last read.

  /** A call in progress: its request, and the state of both sides when it began. */
  datatype Call = Call(request: Request, globals: seq<Byte>, before: Memory, sent: nat)

  predicate CallOk(k: Call) {
    Sendable(k.request) && |k.globals| == BUFFER && k.before.Valid()
  }

  /** The client's memory once it has the server's buffer. */
  function Synced(k: Call): Memory {
    k.before.(globals := k.globals)
  }

  /** What is written and not yet read, or not yet written. */
  function Wire(n: Net): seq<Byte> {
    n.toClient + Concat(n.server.pending)
  }

  /** What the client still has to read, by how far it has come. */
  predicate Awaits(k: Call, phase: Phase, wire: seq<Byte>)
    requires CallOk(k)
  {
    match phase
    case Receive => wire == Concat(Writes(k.globals, k.request))
    case ReadOperation => wire == [Opcode(k.request)] + Concat(Fields(k.request))
    case NewIndex => k.request.New? && wire == Concat(Fields(k.request))
    case NewLength(index) =>
      && k.request.New? && index == k.request.index && 0 <= index < SLOTS
      && wire == Int32Bytes(|k.request.body|) + k.request.body
    case NewBody(index, length) =>
      && k.request.New? && index == k.request.index && length == |k.request.body| && Accepted(k.request)
      && wire == k.request.body
    case DelIndex => k.request.Del? && wire == Int32Bytes(k.request.index)
    case ExecIndex => k.request.Exec? && wire == Int32Bytes(k.request.index)
    case Reply(last) => Accepted(k.request) && wire == [] && last == k.request.Exit?
    case Finished => false
    case Quit => !Accepted(k.request)
  }

  /** The client has not replied yet. */
  predicate Unreplied(exec: Effect, k: Call, n: Net)
    requires CallOk(k)
  {
    && n.client.sent == k.sent && n.toServer == []
    && Awaits(k, n.client.phase, Wire(n))
    && (n.client.phase.Receive? ==> n.client.mem == k.before)
    && (!n.client.phase.Receive? && !n.client.phase.Reply? ==> n.client.mem == Synced(k))
    && (n.client.phase.Reply? ==> n.client.mem == Apply(exec, k.request, Synced(k)))
  }

  /** The client has replied, and waits for the next call or is done. */
  predicate Replied(exec: Effect, k: Call, n: Net)
    requires CallOk(k)
  {
    && Accepted(k.request) && n.client.sent == k.sent + 1
    && n.client.phase == (if k.request.Exit? then Finished else Receive)
    && n.client.mem == Apply(exec, k.request, Synced(k))
    && Wire(n) == []
  }

  predicate InCall(exec: Effect, k: Call, n: Net)
    requires CallOk(k)
  {
    && n.server.calling && !n.server.gone && n.server.globals == k.globals && n.client.mem.Valid()
    && (Unreplied(exec, k, n) || (Replied(exec, k, n) && n.toServer == n.client.mem.globals))
  }

  /** The call is over: both channels are empty and both sides hold the same buffer. */
  predicate Ended(exec: Effect, k: Call, n: Net)
    requires CallOk(k)
  {
    && !n.server.calling && !n.server.gone && n.server.pending == [] && n.client.mem.Valid()
    && Replied(exec, k, n)
    && n.toClient == [] && n.toServer == [] && n.server.globals == n.client.mem.globals
  }

  /**
   The call is over, but the client refused it: it has quit without a reply or an effect. The
   server's buffer is as it was, unless a further write ended the server.
   */
  predicate CutOff(k: Call, n: Net)
    requires CallOk(k)
  {
    && !n.server.calling && n.server.pending == [] && n.server.globals == k.globals
    && n.client == Client(Quit, Synced(k), k.sent) && n.toServer == [] && !Accepted(k.request)
  }

  lemma ConcatHead(chunks: seq<seq<Byte>>)
    requires chunks != []
    ensures Concat(chunks) == chunks[0] + Concat(chunks[1..])
  {
  }

  /** A write moves bytes to the wire; nothing else changes. */
  lemma WriteKeeps(exec: Effect, k: Call, n: Net, m: Net)
    requires CallOk(k) && InCall(exec, k, n) && ServerWrites(n, m)
    ensures InCall(exec, k, m)
  {
    ConcatHead(n.server.pending);
    assert Wire(m) == Wire(n);
  }

  // A read takes the next bytes off the wire.

  lemma ReadTakes(n: Net, size: nat, rest: seq<Byte>)
    requires size <= |n.toClient|
    requires rest == n.toClient[size..] + Concat(n.server.pending)
    ensures Wire(n) == n.toClient[..size] + rest
  {
  }

  /** Two splits of the same bytes at the same place are the same. */
  lemma SameSplit(b: seq<Byte>, rest: seq<Byte>, c: seq<Byte>, more: seq<Byte>)
    requires b + rest == c + more && |b| == |c|
    ensures b == c && rest == more
  {
    assert b == (b + rest)[..|b|] && rest == (b + rest)[|b|..];
    assert c == (c + more)[..|c|] && more == (c + more)[|c|..];
  }

  lemma WritesAre(globals: seq<Byte>, r: Request)
    requires Sendable(r)
    ensures Concat(Writes(globals, r)) == globals + ([Opcode(r)] + Concat(Fields(r)))
  {
    var w := Writes(globals, r);
    assert w[1..] == [[Opcode(r)]] + Fields(r) && w[1..][1..] == Fields(r);
    ConcatHead(w);
    ConcatHead(w[1..]);
  }

  lemma FieldsAre(r: Request)
    requires Sendable(r)
    ensures r.New? ==> Concat(Fields(r)) == Int32Bytes(r.index) + (Int32Bytes(|r.body|) + r.body)
    ensures r.Del? || r.Exec? ==> Concat(Fields(r)) == Int32Bytes(r.index)
    ensures r.Exit? ==> Concat(Fields(r)) == []
  {
    match r
    case New(index, body) =>
      var f := Fields(r);
      assert f[1..] == [Int32Bytes(|body|), body] && f[1..][1..] == [body] && [body][1..] == [];
      ConcatHead(f);
      ConcatHead(f[1..]);
      ConcatHead([body]);
      assert body + [] == body;
    case Del(index) =>
      assert Fields(r)[1..] == [];
    case Exec(index) =>
      assert Fields(r)[1..] == [];
    case Exit =>
  }

  /** The client before and after a read of `b`, with `rest` left on the wire. */
  predicate Reads(exec: Effect, k: Call, c: Client, b: seq<Byte>, rest: seq<Byte>)
    requires CallOk(k)
  {
    && ClientOk(c) && |b| == ReadSize(c.phase) && Awaits(k, c.phase, b + rest)
    && !(c.phase.Reply? || c.phase.Quit?)
    && c.mem == (if c.phase.Receive? then k.before else Synced(k))
  }

  predicate GoesOn(exec: Effect, k: Call, d: Client, rest: seq<Byte>)
    requires CallOk(k)
  {
    && d.mem.Valid() && !d.phase.Receive? && Awaits(k, d.phase, rest)
    && d.mem == (if d.phase.Reply? then Apply(exec, k.request, Synced(k)) else Synced(k))
  }

  lemma ReadFrame(exec: Effect, k: Call, c: Client, b: seq<Byte>, rest: seq<Byte>)
    requires CallOk(k) && Reads(exec, k, c, b, rest) && (c.phase.Receive? || c.phase.ReadOperation?)
    ensures GoesOn(exec, k, OnRead(exec, c, b), rest)
  {
    WritesAre(k.globals, k.request);
    FieldsAre(k.request);
    if c.phase.Receive? {
      SameSplit(b, rest, k.globals, [Opcode(k.request)] + Concat(Fields(k.request)));
    } else {
      SameSplit(b, rest, [Opcode(k.request)], Concat(Fields(k.request)));
    }
  }

  lemma ReadNew(exec: Effect, k: Call, c: Client, b: seq<Byte>, rest: seq<Byte>)
    requires CallOk(k) && Reads(exec, k, c, b, rest) && (c.phase.NewIndex? || c.phase.NewLength?)
    ensures GoesOn(exec, k, OnRead(exec, c, b), rest)
  {
    var r := k.request;
    FieldsAre(r);
    if c.phase.NewIndex? {
      SameSplit(b, rest, Int32Bytes(r.index), Int32Bytes(|r.body|) + r.body);
      Int32RoundTrip(r.index);
    } else {
      SameSplit(b, rest, Int32Bytes(|r.body|), r.body);
      Int32RoundTrip(|r.body|);
    }
  }

  lemma ReadBody(exec: Effect, k: Call, c: Client, b: seq<Byte>, rest: seq<Byte>)
    requires CallOk(k) && KeepsShape(exec) && Reads(exec, k, c, b, rest) && c.phase.NewBody?
    ensures GoesOn(exec, k, OnRead(exec, c, b), rest)
  {
    assert b + rest == k.request.body + [];
    SameSplit(b, rest, k.request.body, []);
    ApplyValid(exec, k.request, Synced(k));
  }

  lemma ReadIndex(exec: Effect, k: Call, c: Client, b: seq<Byte>, rest: seq<Byte>)
    requires CallOk(k) && KeepsShape(exec) && Reads(exec, k, c, b, rest) && (c.phase.DelIndex? || c.phase.ExecIndex?)
    ensures GoesOn(exec, k, OnRead(exec, c, b), rest)
  {
    var r := k.request;
    assert b + rest == Int32Bytes(r.index) + [];
    SameSplit(b, rest, Int32Bytes(r.index), []);
    Int32RoundTrip(r.index);
    if Accepted(r) {
      ApplyValid(exec, r, Synced(k));
    }
  }

  lemma ReadGoesOn(exec: Effect, k: Call, c: Client, b: seq<Byte>, rest: seq<Byte>)
    requires CallOk(k) && KeepsShape(exec) && Reads(exec, k, c, b, rest)
    ensures GoesOn(exec, k, OnRead(exec, c, b), rest)
  {
    match c.phase
    case Receive => ReadFrame(exec, k, c, b, rest);
    case ReadOperation => ReadFrame(exec, k, c, b, rest);
    case NewIndex => ReadNew(exec, k, c, b, rest);
    case NewLength(_) => ReadNew(exec, k, c, b, rest);
    case NewBody(_, _) => ReadBody(exec, k, c, b, rest);
    case DelIndex => ReadIndex(exec, k, c, b, rest);
    case ExecIndex => ReadIndex(exec, k, c, b, rest);
    case _ =>
  }

  /** A client that has replied finds nothing to read before the next call. */
  lemma NoReadAfterReply(exec: Effect, k: Call, n: Net)
    requires CallOk(k) && InCall(exec, k, n) && Replied(exec, k, n)
    ensures !CanRead(n)
  {
    assert n.toClient == [];
  }

  lemma ReadKeeps(exec: Effect, k: Call, n: Net, m: Net)
    requires CallOk(k) && KeepsShape(exec) && InCall(exec, k, n) && ClientReads(exec, n, m)
    ensures InCall(exec, k, m)
  {
    if !Unreplied(exec, k, n) {
      NoReadAfterReply(exec, k, n);
    } else {
      var size := ReadSize(n.client.phase);
      var b := n.toClient[..size];
      ReadTakes(n, size, Wire(m));
      ReadGoesOn(exec, k, n.client, b, Wire(m));
    }
  }

  lemma ReplyKeeps(exec: Effect, k: Call, n: Net, m: Net)
    requires CallOk(k) && InCall(exec, k, n) && ClientReplies(n, m)
    ensures InCall(exec, k, m)
  {
    assert Wire(m) == Wire(n) == [];
    assert m.toServer == m.client.mem.globals;
  }

  /** The server's read ends the call. */
  lemma ServerReadEnds(exec: Effect, k: Call, n: Net, m: Net)
    requires CallOk(k) && InCall(exec, k, n) && ServerReads(n, m)
    ensures Ended(exec, k, m)
  {
    assert Replied(exec, k, n);
    assert Concat(n.server.pending) == [] && n.toClient == [];
    assert n.toServer[..BUFFER] == n.toServer && n.toServer[BUFFER..] == [];
    assert Wire(m) == [];
  }

  /** Every step of either side keeps the invariant of the call or ends it. */
  lemma StepKeeps(exec: Effect, k: Call, n: Net, m: Net)
    requires CallOk(k) && KeepsShape(exec) && InCall(exec, k, n) && Step(exec, n, m)
    ensures InCall(exec, k, m) || Ended(exec, k, m) || CutOff(k, m)
  {
    if ServerWrites(n, m) {
      WriteKeeps(exec, k, n, m);
    } else if ServerReads(n, m) {
      ServerReadEnds(exec, k, n, m);
    } else if ServerFindsClosed(n, m) || ServerSignalled(n, m) {
      assert Unreplied(exec, k, n);
    } else if ClientReads(exec, n, m) {
      ReadKeeps(exec, k, n, m);
    } else {
      ReplyKeeps(exec, k, n, m);
    }
  }

  // Progress: no call gets stuck, and every call is short.

  /** Until the call is over one of the two sides can go on, also when the client has quit. */
  lemma CallGoesOn(exec: Effect, k: Call, n: Net) returns (m: Net)
    requires CallOk(k) && InCall(exec, k, n)
    ensures Step(exec, n, m)
  {
    if n.server.pending != [] {
      m := n.(server := n.server.(pending := n.server.pending[1..]), toClient := n.toClient + n.server.pending[0]);
    } else if Replied(exec, k, n) && n.toServer == n.client.mem.globals {
      m := n.(server := Server(n.toServer[..BUFFER], [], false, false), toServer := n.toServer[BUFFER..]);
    } else if n.client.phase.Quit? {
      m := n.(server := n.server.(calling := false));
      assert ServerFindsClosed(n, m);
    } else if n.client.phase.Reply? {
      m := n.(client := n.client.(phase := if n.client.phase.last then Finished else Receive, sent := n.client.sent
          + 1),
              toServer := n.toServer + n.client.mem.globals);
    } else {
      assert n.toClient == Wire(n);
      EnoughToRead(exec, k, n);
      var size := ReadSize(n.client.phase);
      m := n.(client := OnRead(exec, n.client, n.toClient[..size]), toClient := n.toClient[size..]);
    }
  }

  lemma EnoughToRead(exec: Effect, k: Call, n: Net)
    requires CallOk(k) && InCall(exec, k, n) && Unreplied(exec, k, n) && n.toClient == Wire(n)
    requires !n.client.phase.Reply? && !n.client.phase.Quit?
    ensures ClientOk(n.client) && CanRead(n)
  {
    WritesAre(k.globals, k.request);
    FieldsAre(k.request);
  }

  function PhaseRank(phase: Phase): nat {
    match phase
    case Receive => 7
    case ReadOperation => 6
    case NewIndex => 5
    case NewLength(_) => 4
    case NewBody(_, _) => 3
    case DelIndex => 3
    case ExecIndex => 3
    case Reply(_) => 2
    case Finished => 1
    case Quit => 0
  }

  /** An upper bound for the steps left in a call. */
  function StepsLeft(k: Call, n: Net): nat {
    |n.server.pending| + (if n.server.calling then 1 else 0)
    + if n.client.sent > k.sent then 1 else PhaseRank(n.client.phase)
  }

  lemma StepsRunOut(exec: Effect, k: Call, n: Net, m: Net)
    requires CallOk(k) && InCall(exec, k, n) && Step(exec, n, m)
    ensures StepsLeft(k, m) < StepsLeft(k, n)
  {
    if ClientReads(exec, n, m) && Replied(exec, k, n) && !Unreplied(exec, k, n) {
      NoReadAfterReply(exec, k, n);
    }
  }

  /** Nothing moves between calls, nor after the client has quit. */
  lemma EndedRests(exec: Effect, k: Call, n: Net, m: Net)
    requires CallOk(k) && (Ended(exec, k, n) || CutOff(k, n))
    ensures !Step(exec, n, m)
  {
  }

  // Whole runs.

  /** The server begins a call. */
  function Begin(n: Net, r: Request): Net
    requires Sendable(r)
  {
    n.(server := Server(n.server.globals, Writes(n.server.globals, r), true, false))
  }

  /** Between calls: both channels empty, the client waiting or finished, with this memory. */
  predicate Rests(n: Net, phase: Phase, mem: Memory, sent: nat) {
    && !n.server.calling && !n.server.gone && n.server.pending == [] && n.toClient == [] && n.toServer == []
    && |n.server.globals| == BUFFER && mem.Valid()
    && n.client == Client(phase, mem, sent)
  }

  predicate Idle(n: Net, mem: Memory, sent: nat) {
    Rests(n, Receive, mem, sent)
  }

  predicate IsRun(exec: Effect, run: seq<Net>) {
    run != [] && forall i :: 0 < i < |run| ==> Step(exec, run[i - 1], run[i])
  }

  lemma BeginsInCall(exec: Effect, n: Net, r: Request, mem: Memory, sent: nat)
    requires Sendable(r) && Idle(n, mem, sent)
    ensures CallOk(Call(r, n.server.globals, mem, sent))
    ensures InCall(exec, Call(r, n.server.globals, mem, sent), Begin(n, r))
  {
    var m := Begin(n, r);
    assert Wire(m) == Concat(m.server.pending);
  }

  /** In every run from the beginning of a call all states are in the call, or the last one ends it. */
  lemma {:induction false} RunOfCall(exec: Effect, k: Call, run: seq<Net>)
    requires CallOk(k) && KeepsShape(exec) && IsRun(exec, run) && InCall(exec, k, run[0])
    ensures forall i :: 0 <= i < |run| - 1 ==> InCall(exec, k, run[i])
    ensures InCall(exec, k, run[|run| - 1]) || Ended(exec, k, run[|run| - 1]) || CutOff(k, run[|run| - 1])
    ensures |run| + StepsLeft(k, run[|run| - 1]) <= 1 + StepsLeft(k, run[0])
    decreases |run|
  {
    var last := |run| - 1;
    if last > 0 {
      var front := run[..last];
      assert IsRun(exec, front);
      RunOfCall(exec, k, front);
      assert Step(exec, run[last - 1], run[last]);
      if Ended(exec, k, front[last - 1]) || CutOff(k, front[last - 1]) {
        EndedRests(exec, k, run[last - 1], run[last]);
      }
      StepKeeps(exec, k, run[last - 1], run[last]);
      StepsRunOut(exec, k, run[last - 1], run[last]);
      forall i | 0 <= i < last
        ensures InCall(exec, k, run[i])
      {
        assert i < last - 1 ==> InCall(exec, k, front[i]);
      }
    }
  }

  ghost predicate Stuck(exec: Effect, n: Net) {
    forall m :: !Step(exec, n, m)
  }

  /** A run that cannot go on. */
  ghost predicate Maximal(exec: Effect, run: seq<Net>) {
    IsRun(exec, run) && Stuck(exec, run[|run| - 1])
  }

  /**
   Every maximal run of a call takes at most 13 steps, and then the call is over: with equal
   buffers when the request is accepted, and without a reply from a client that has quit when
   it is not.
   */
  lemma CallOutcome(exec: Effect, n: Net, r: Request, mem: Memory, sent: nat, run: seq<Net>)
    requires KeepsShape(exec) && Sendable(r) && Idle(n, mem, sent)
    requires Maximal(exec, run) && run[0] == Begin(n, r)
    ensures |run| <= 14
    ensures var k, end := Call(r, n.server.globals, mem, sent), run[|run| - 1];
            && CallOk(k)
            && (Accepted(r) <==> Ended(exec, k, end))
            && (!Accepted(r) <==> CutOff(k, end))
  {
    var k := Call(r, n.server.globals, mem, sent);
    BeginsInCall(exec, n, r, mem, sent);
    RunOfCall(exec, k, run);
    var end := run[|run| - 1];
    if !Ended(exec, k, end) && !CutOff(k, end) {
      var m := CallGoesOn(exec, k, end);
    }
  }

  /** A slot too many: the call comes back with the server's own buffer, and the client is gone. */
  lemma SlotOutOfRange(exec: Effect, n: Net, mem: Memory, sent: nat, run: seq<Net>)
    requires KeepsShape(exec) && Idle(n, mem, sent)
    requires Maximal(exec, run) && run[0] == Begin(n, New(500, []))
    ensures var end := run[|run| - 1];
            && !end.server.calling && end.server.globals == n.server.globals
            && end.client == Client(Quit, mem.(globals := n.server.globals), sent)
  {
    CallOutcome(exec, n, New(500, []), mem, sent, run);
  }

  // Sequences of calls.

  /** One turn of the server: it sets its buffer as it likes and makes a call. */
  datatype Turn = Turn(request: Request, globals: seq<Byte>)

  predicate TurnOk(t: Turn) {
    Sendable(t.request) && |t.globals| == BUFFER
  }

  /** The server changes its own buffer between calls. */
  function Edited(n: Net, globals: seq<Byte>): Net {
    n.(server := n.server.(globals := globals))
  }

  /** Some run of the call that the turn makes ends at `m`. */
  ghost predicate TurnLeads(exec: Effect, n: Net, t: Turn, m: Net)
    requires TurnOk(t)
  {
    !m.server.calling &&
    exists run :: IsRun(exec, run) && run[0] == Begin(Edited(n, t.globals), t.request) && run[|run| - 1] == m
  }

  /** The states between the turns. */
  ghost predicate Session(exec: Effect, turns: seq<Turn>, nets: seq<Net>) {
    && |nets| == |turns| + 1
    && forall i :: 0 <= i < |turns| ==> TurnOk(turns[i]) && TurnLeads(exec, nets[i], turns[i], nets[i + 1])
  }

  /** What a turn does to the client's memory; a refused request does nothing. */
  function AfterTurn(exec: Effect, t: Turn, m: Memory): Memory {
    if m.Valid() && |t.globals| == BUFFER && Accepted(t.request)
    then Apply(exec, t.request, m.(globals := t.globals))
    else m
  }

  /** What the first n turns do to it. */
  function AfterTurns(exec: Effect, turns: seq<Turn>, n: nat, m: Memory): Memory
    requires n <= |turns|
  {
    if n == 0 then m else AfterTurn(exec, turns[n - 1], AfterTurns(exec, turns, n - 1, m))
  }

  lemma TurnEnds(exec: Effect, n: Net, t: Turn, m: Net, mem: Memory, sent: nat)
    requires KeepsShape(exec) && TurnOk(t) && Idle(n, mem, sent) && TurnLeads(exec, n, t, m)
    ensures var k := Call(t.request, t.globals, mem, sent);
            && CallOk(k)
            && (Accepted(t.request) ==> Ended(exec, k, m))
            && (!Accepted(t.request) ==> CutOff(k, m))
  {
    var start := Edited(n, t.globals);
    var run :| IsRun(exec, run) && run[0] == Begin(start, t.request) && run[|run| - 1] == m;
    BeginsInCall(exec, start, t.request, mem, sent);
    RunOfCall(exec, Call(t.request, t.globals, mem, sent), run);
  }

  /** One accepted turn from an idle state to the next. */
  lemma TurnRests(exec: Effect, n: Net, t: Turn, m: Net, mem: Memory, sent: nat)
    requires KeepsShape(exec) && TurnOk(t) && Idle(n, mem, sent) && TurnLeads(exec, n, t, m)
    requires Accepted(t.request)
    ensures Rests(m, if t.request.Exit? then Finished else Receive, AfterTurn(exec, t, mem), sent + 1)
    ensures m.server.globals == AfterTurn(exec, t, mem).globals
  {
    TurnEnds(exec, n, t, m, mem, sent);
  }

  /** After n turns the two sides rest with the same buffer. */
  predicate InStep(exec: Effect, turns: seq<Turn>, nets: seq<Net>, mem: Memory, sent: nat, n: nat)
    requires n <= |turns| && |nets| == |turns| + 1
  {
    && Rests(nets[n], if n > 0 && turns[n - 1].request.Exit? then Finished else Receive,
             AfterTurns(exec, turns, n, mem), sent + n)
    && (n > 0 ==> nets[n].server.globals == AfterTurns(exec, turns, n, mem).globals)
  }

  /** The first n requests are accepted, and EXIT is at most the last of them. */
  predicate GoodUpTo(turns: seq<Turn>, n: nat)
    requires n <= |turns|
  {
    && (forall i :: 0 <= i < n ==> Accepted(turns[i].request))
    && (forall i :: 0 <= i < n - 1 ==> !turns[i].request.Exit?)
  }

  /**
   Over any sequence of calls, however the two sides interleave: after each accepted call both
   channels are empty, both sides hold the same buffer, the client's memory is the fold of the
   calls, it has replied once a call, and after EXIT it is finished.
   */
  lemma {:induction false} LockStep(exec: Effect, turns: seq<Turn>, nets: seq<Net>, mem: Memory, sent: nat, n: nat)
    requires KeepsShape(exec) && Session(exec, turns, nets) && Idle(nets[0], mem, sent)
    requires n <= |turns| && GoodUpTo(turns, n)
    ensures InStep(exec, turns, nets, mem, sent, n)
    decreases n
  {
    if n > 0 {
      LockStep(exec, turns, nets, mem, sent, n - 1);
      assert TurnOk(turns[n - 1]) && TurnLeads(exec, nets[n - 1], turns[n - 1], nets[n]);
      TurnRests(exec, nets[n - 1], turns[n - 1], nets[n], AfterTurns(exec, turns, n - 1, mem), sent + n - 1);
    }
  }

  /** The first refused call ends the session: the client quits, with no effect of that call. */
  lemma SessionCutOff(exec: Effect, turns: seq<Turn>, nets: seq<Net>, mem: Memory, sent: nat, n: nat)
    requires KeepsShape(exec) && Session(exec, turns, nets) && Idle(nets[0], mem, sent)
    requires n < |turns| && GoodUpTo(turns, n) && (n > 0 ==> !turns[n - 1].request.Exit?)
    requires !Accepted(turns[n].request)
    ensures !nets[n + 1].server.calling && nets[n + 1].server.globals == turns[n].globals
    ensures nets[n + 1].client == Client(Quit, AfterTurns(exec, turns, n, mem).(globals := turns[n].globals), sent + n)
  {
    LockStep(exec, turns, nets, mem, sent, n);
    assert TurnOk(turns[n]) && TurnLeads(exec, nets[n], turns[n], nets[n + 1]);
    TurnEnds(exec, nets[n], turns[n], nets[n + 1], AfterTurns(exec, turns, n, mem), sent + n);
  }
}
