/**
 What one authenticated request packet does to a session: at the simulator
 (`handle_datagram` and what it calls) and at the DOS agent (`process_datagram`).
 The reply of the requested operation itself is an input.
 */
module Sessions {
  import opened Bytes
  import opened Wrappers
  import opened Packets
  import opened RequestIds

  const CACHE_LIMIT := 4
  const PENDING_LIMIT := 4

  datatype Reply = Reply(kind: Kind, opcode: Opcode, payload: bytes)

  // How the operation answers. At the agent, request and reply may share one buffer: `residue` is
  // what the reply leaves of the received fragments, and when a fragment completes no request,
  // `payload` is what storing it leaves of the last reply.
  datatype Answer = Answer(kind: Kind, payload: bytes, residue: map<nat, bytes>)

  datatype Outcome =
    | Silent
    | Resend(reply: Reply)
    | Refused(reply: Reply)
    | Dispatched(opcode: Opcode, payload: bytes, reply: Reply)

  // --- The bridge ---

  // What one decoded packet means to the exchange in progress.
  datatype Verdict =
    | Ignored
    | Kept(received: seq<Packet>)
    | Returns(payload: bytes)
    | RaisesError
    | RaisesMalformed

  predicate Matches(requestId: Word, opcode: Opcode, sessionId: Word, p: Packet) {
    p.requestId == requestId && p.opcode == opcode && (opcode == HELLO || p.sessionId == sessionId)
  }

  /** One decoded packet in `_exchange_with_packet`. */
  function Consider(requestId: Word, opcode: Opcode, sessionId: Word, received: seq<Packet>, p: Packet): Verdict {
    if !Matches(requestId, opcode, sessionId, p) then Ignored
    else if p.kind == ERROR then RaisesError
    else if p.kind != RESPONSE then Ignored
    else
      var stored := Store(received, p);
      if |stored| != p.count then Kept(stored)
      else match Reassemble(stored)
        case Ok(payload) => Returns(payload)
        case Err(_) => RaisesMalformed
  }

  // --- The simulator ---

  datatype Cached = Cached(id: Word, reply: Reply)

  datatype Pending = Pending(id: Word, fragments: seq<Packet>)

  datatype Simulator = Simulator(
    sessionId: Word,
    last: Option<Word>,
    cache: seq<Cached>,
    pending: seq<Pending>)

  predicate InCache(cache: seq<Cached>, id: Word) {
    exists c | c in cache :: c.id == id
  }

  function Lookup(cache: seq<Cached>, id: Word): (r: Reply)
    requires InCache(cache, id)
    ensures Cached(id, r) in cache
  {
    if cache[0].id == id then cache[0].reply else Lookup(cache[1..], id)
  }

  function Newest<T>(s: seq<T>, n: nat): seq<T> {
    if |s| <= n then s else s[|s| - n..]
  }

  // Remembering a reply: it becomes the watermark and the newest cache entry.
  function Record(s: Simulator, id: Word, reply: Reply): Simulator {
    s.(last := Some(id), cache := Newest(s.cache + [Cached(id, reply)], CACHE_LIMIT))
  }

  // The position of the partial request with this identifier, or the length when there is none.
  function Position(pending: seq<Pending>, id: Word): (i: nat)
    ensures i <= |pending|
    ensures i < |pending| ==> pending[i].id == id
    ensures forall j :: 0 <= j < i ==> pending[j].id != id
  {
    if pending == [] || pending[0].id == id then 0 else 1 + Position(pending[1..], id)
  }

  // Making room for a request: a fifth partial request displaces the oldest one.
  function Admit(pending: seq<Pending>, id: Word): (r: seq<Pending>)
    ensures Position(r, id) < |r|
    ensures forall e :: e in r ==> e in pending || e == Pending(id, [])
  {
    if Position(pending, id) < |pending| then
      pending
    else
      var kept := if |pending| >= PENDING_LIMIT then pending[1..] else pending;
      var r := kept + [Pending(id, [])];
      assert r[|kept|].id == id;
      r
  }

  function SimulatorRefusal(opcode: Opcode): Reply {
    Reply(ERROR, opcode, PutU16(4) + Ascii("request ID is outside the replay window"))
  }

  // With the i-th partial request now holding `fragments`: wait for more, give up, or dispatch.
  function Settle(s: Simulator, pending: seq<Pending>, i: nat, fragments: seq<Packet>, p: Packet, answer: Answer)
    : (r: (Simulator, Outcome))
    requires i < |pending|
  {
    if |fragments| != p.count then
      (s.(pending := pending[i := Pending(p.requestId, fragments)]), Silent)
    else
      var rest := s.(pending := pending[..i] + pending[i + 1..]);
      match Reassemble(fragments)
      case Err(_) => (rest, Silent)
      case Ok(payload) =>
        var reply := Reply(answer.kind, p.opcode, answer.payload);
        (Record(rest, p.requestId, reply), Dispatched(p.opcode, payload, reply))
  }

  // Recording a fragment of a request that is neither cached nor refused.
  function Accept(s: Simulator, p: Packet, answer: Answer): (r: (Simulator, Outcome)) {
    var pending := Admit(s.pending, p.requestId);
    var i := Position(pending, p.requestId);
    Settle(s, pending, i, Store(pending[i].fragments, p), p, answer)
  }

  /** One packet at the simulator. */
  function HandleSimulator(s: Simulator, p: Packet, answer: Answer): (r: (Simulator, Outcome)) {
    if p.kind != REQUEST || p.sessionId != s.sessionId then
      (s, Silent)
    else if InCache(s.cache, p.requestId) then
      (s, Resend(Lookup(s.cache, p.requestId)))
    else if s.last.Some? && !RequestIsNewer(p.requestId, s.last.value) then
      var reply := SimulatorRefusal(p.opcode);
      (Record(s, p.requestId, reply), Refused(reply))
    else
      Accept(s, p, answer)
  }

  // --- The DOS agent ---

  datatype Held = Held(id: Word, opcode: int, count: nat, parts: map<nat, bytes>)

  datatype Agent = Agent(sessionId: Word, last: Option<Word>, reply: Reply, held: Held)

  function AgentRefusal(opcode: Opcode): Reply {
    Reply(ERROR, opcode, PutU16(4) + Ascii("replayed request"))
  }

  function JoinParts(parts: map<nat, bytes>, n: nat): bytes
    requires forall i :: 0 <= i < n ==> i in parts
  {
    if n == 0 then [] else JoinParts(parts, n - 1) + parts[n - 1]
  }

  predicate Complete(parts: map<nat, bytes>, count: nat) {
    forall i | 0 <= i < count :: i in parts
  }

  predicate FullBeforeLast(parts: map<nat, bytes>, count: nat)
    requires Complete(parts, count)
  {
    forall i | 0 <= i < count :: i + 1 < count ==> |parts[i]| == MAX_FRAGMENT_PAYLOAD
  }

  // The reassembly record after a packet was looked at: a new identifier starts afresh.
  function HoldFor(held: Held, p: Packet): Held {
    if p.requestId != held.id then Held(p.requestId, p.opcode, p.count, map[]) else held
  }

  predicate Storable(held: Held, p: Packet) {
    p.count == held.count && p.opcode == held.opcode
    && p.index * MAX_FRAGMENT_PAYLOAD + |p.payload| <= REQUEST_BUFFER_SIZE
  }

  // Storing a fragment of a request that is neither repeated nor refused.
  function Collect(a: Agent, held: Held, p: Packet, answer: Answer): (r: (Agent, Outcome)) {
    if !Storable(held, p) then
      (a.(held := held), Silent)
    else
      var parts := held.parts[p.index := p.payload];
      if !Complete(parts, p.count) || !FullBeforeLast(parts, p.count) then
        (a.(held := held.(parts := parts), reply := a.reply.(payload := answer.payload)), Silent)
      else
        var reply := Reply(answer.kind, p.opcode, answer.payload);
        (Agent(a.sessionId, Some(p.requestId), reply, held.(parts := answer.residue)),
         Dispatched(p.opcode, JoinParts(parts, p.count), reply))
  }

  /** One packet at the DOS agent. */
  function HandleAgent(a: Agent, p: Packet, answer: Answer): (r: (Agent, Outcome)) {
    if p.kind != REQUEST || (p.opcode == HELLO && p.sessionId == 0) || p.sessionId != a.sessionId then
      (a, Silent)
    else if a.last == Some(p.requestId) then
      (a, Resend(a.reply))
    else if a.last.Some? && !RequestIsNewer(p.requestId, a.last.value) then
      var reply := AgentRefusal(p.opcode);
      (a.(last := Some(p.requestId), reply := reply, held := a.held.(parts := answer.residue)), Refused(reply))
    else
      Collect(a, HoldFor(a.held, p), p, answer)
  }
}
