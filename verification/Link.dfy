/**
 The bridge and a target joined by a channel that may lose packets and repeat them in
 place, but keeps their order. Every request has a sequence number that only the model
 sees; the programs see the sixteen-bit identifiers.
 */
module Link {
  import opened Bytes
  import opened Wrappers
  import opened Packets
  import opened RequestIds
  import opened Sessions

  datatype Request = Request(opcode: Opcode, payload: bytes)

  datatype Tagged = Tagged(n: nat, packet: Packet)

  datatype Dispatch = Dispatch(n: nat, opcode: Opcode, payload: bytes, reply: Reply)

  datatype Returned = Returned(n: nat, payload: bytes)

  datatype Endpoint = AtSimulator(simulator: Simulator) | AtAgent(agent: Agent)

  // What a run never changes: the identifier before the first request, the session, and the
  // size and largest number of the target's reply fragments.
  datatype Wire = Wire(base: Word, sessionId: Word, replySize: nat, replyLimit: nat)
  {
    predicate Valid() {
      base != 0 && 0 < replySize <= MAX_FRAGMENT_PAYLOAD && 1 <= replyLimit <= MAX_FRAGMENTS
    }
  }

  datatype System = System(
    wire: Wire,
    // the bridge
    history: seq<Request>, requestId: Word, active: bool, received: seq<Packet>,
    answers: seq<nat>, results: seq<Returned>,
    // the channel
    toServer: seq<Tagged>, toClient: seq<Tagged>,
    // the target; `served` and `holding` are the numbers of the last packet served and of
    // the request the agent holds fragments of
    endpoint: Endpoint, served: nat, holding: nat, log: seq<Dispatch>, refusals: seq<nat>)

  datatype Event =
    | Issue(request: Request)
    | Transmit
    | Timeout
    | Serve(answer: Answer)
    | Receive
    | LoseRequest(k: nat)
    | RepeatRequest(k: nat)
    | LoseReply(k: nat)
    | RepeatReply(k: nat)

  predicate Fits(request: Request) {
    FragmentCount(MAX_FRAGMENT_PAYLOAD, |request.payload|) <= MAX_FRAGMENTS
  }

  // The packets of a request under an identifier.
  function FragmentsOf(w: Wire, id: Word, request: Request): (whole: seq<Packet>)
    ensures |whole| == FragmentCount(MAX_FRAGMENT_PAYLOAD, |request.payload|)
  {
    Fragment(MAX_FRAGMENT_PAYLOAD, REQUEST, request.opcode, w.sessionId, id, request.payload)
  }

  function RequestPackets(w: Wire, history: seq<Request>, n: nat): seq<Packet>
    requires 1 <= n <= |history|
  {
    FragmentsOf(w, WireId(w.base, n), history[n - 1])
  }

  function ReplyPackets(w: Wire, n: nat, reply: Reply): seq<Packet>
    requires w.replySize > 0
  {
    Fragment(w.replySize, reply.kind, reply.opcode, w.sessionId, WireId(w.base, n), reply.payload)
  }

  function TagAll(n: nat, packets: seq<Packet>): (r: seq<Tagged>)
    ensures |r| == |packets|
    ensures forall i :: 0 <= i < |r| ==> r[i] == Tagged(n, packets[i])
  {
    seq(|packets|, i requires 0 <= i < |packets| => Tagged(n, packets[i]))
  }

  function Remove<T>(c: seq<T>, k: nat): seq<T>
    requires k < |c|
  {
    c[..k] + c[k + 1..]
  }

  function Repeat<T>(c: seq<T>, k: nat): seq<T>
    requires k < |c|
  {
    c[..k + 1] + c[k..]
  }

  function LastAnswer(answers: seq<nat>): nat {
    if answers == [] then 0 else answers[|answers| - 1]
  }

  predicate Enabled(s: System, e: Event) {
    match e
    case Issue(request) => !s.active && request.opcode != HELLO
    case Transmit => s.active
    case Timeout => s.active
    case Serve(answer) =>
      s.toServer != [] && answer.kind != REQUEST && s.wire.replySize > 0
      && FragmentCount(s.wire.replySize, |answer.payload|) <= s.wire.replyLimit
    case Receive => s.active && s.history != [] && s.toClient != []
    case LoseRequest(k) => k < |s.toServer|
    case RepeatRequest(k) => k < |s.toServer|
    case LoseReply(k) => k < |s.toClient|
    case RepeatReply(k) => k < |s.toClient|
  }

  /** `_request`: the identifier advances first, and a message too large raises before anything is sent. */
  function IssueStep(s: System, request: Request): System {
    s.(history := s.history + [request], requestId := NextId(s.requestId),
       active := Fits(request), received := [])
  }

  /** One pass of sending in `_exchange_with_packet`: every fragment, in order. */
  function TransmitStep(s: System): System {
    if s.history == [] then s
    else s.(toServer := s.toServer + TagAll(|s.history|, RequestPackets(s.wire, s.history, |s.history|)))
  }

  function Handle(e: Endpoint, p: Packet, answer: Answer): (Endpoint, Outcome) {
    match e
    case AtSimulator(simulator) =>
      var (simulator', outcome) := HandleSimulator(simulator, p, answer);
      (AtSimulator(simulator'), outcome)
    case AtAgent(agent) =>
      var (agent', outcome) := HandleAgent(agent, p, answer);
      (AtAgent(agent'), outcome)
  }

  function Emission(w: Wire, n: nat, outcome: Outcome): seq<Tagged>
    requires w.replySize > 0
  {
    if outcome.Silent? then [] else TagAll(n, ReplyPackets(w, n, outcome.reply))
  }

  // The next packet of the channel was taken, with this outcome.
  function Served(s: System, endpoint: Endpoint, outcome: Outcome): System
    requires s.toServer != [] && s.wire.replySize > 0
  {
    var n := s.toServer[0].n;
    s.(toServer := s.toServer[1..],
       toClient := s.toClient + Emission(s.wire, n, outcome),
       endpoint := endpoint,
       served := n,
       holding := if outcome.Silent? || outcome.Dispatched? then n else s.holding,
       log := if outcome.Dispatched?
              then s.log + [Dispatch(n, outcome.opcode, outcome.payload, outcome.reply)] else s.log,
       refusals := if outcome.Refused? then s.refusals + [n] else s.refusals)
  }

  /** The target takes the next packet of the channel. */
  function ServeStep(s: System, answer: Answer): System
    requires s.toServer != [] && s.wire.replySize > 0
  {
    var (endpoint, outcome) := Handle(s.endpoint, s.toServer[0].packet, answer);
    Served(s, endpoint, outcome)
  }

  /** The bridge takes the next packet of the channel. */
  function ReceiveStep(s: System): System
    requires s.toClient != [] && s.history != []
  {
    var n := |s.history|;
    var rest := s.(toClient := s.toClient[1..]);
    match Consider(s.requestId, s.history[n - 1].opcode, s.wire.sessionId, s.received, s.toClient[0].packet)
    case Ignored => rest
    case Kept(received) => rest.(received := received)
    case RaisesError => rest.(active := false, answers := s.answers + [n])
    case RaisesMalformed => rest.(active := false)
    case Returns(payload) =>
      rest.(active := false, answers := s.answers + [n], results := s.results + [Returned(n, payload)])
  }

  function Step(s: System, e: Event): System
    requires Enabled(s, e)
  {
    match e
    case Issue(request) => IssueStep(s, request)
    case Transmit => TransmitStep(s)
    case Timeout => s.(active := false)
    case Serve(answer) => ServeStep(s, answer)
    case Receive => ReceiveStep(s)
    case LoseRequest(k) => s.(toServer := Remove(s.toServer, k))
    case RepeatRequest(k) => s.(toServer := Repeat(s.toServer, k))
    case LoseReply(k) => s.(toClient := Remove(s.toClient, k))
    case RepeatReply(k) => s.(toClient := Repeat(s.toClient, k))
  }

  // --- What can go wrong under an identifier used before ---

  predicate HoldsReply(cache: seq<Cached>, id: Word, opcode: Opcode) {
    exists c | c in cache :: c.id == id && c.reply.opcode == opcode
  }

  // The fragments the simulator holds under an identifier.
  function FragmentsFor(pending: seq<Pending>, id: Word): seq<Packet> {
    var i := Position(pending, id);
    if i < |pending| then pending[i].fragments else []
  }

  // A fragment with the header of this request, but of another one.
  predicate Foreign(f: Packet, whole: seq<Packet>)
    requires whole != []
  {
    f.SameMessage(whole[0]) && !(f.index < |whole| && f == whole[f.index])
  }

  predicate Other(f: Packet, whole: seq<Packet>)
    requires whole != []
  {
    !f.SameMessage(whole[0])
  }

  predicate AtMostOneOther(held: seq<Packet>, whole: seq<Packet>)
    requires whole != []
  {
    forall f | f in held :: forall g | g in held :: Other(f, whole) && Other(g, whole) ==> f.index == g.index
  }

  // Whether what the simulator holds can be dispatched together with fragments of this request: a
  // foreign fragment among several, and everything with another header can be written over before
  // there are as many fragments as the request has.
  predicate Mixes(held: seq<Packet>, whole: seq<Packet>)
    requires whole != []
  {
    && |whole| > 1
    && (exists f | f in held :: Foreign(f, whole))
    && (forall g | g in held :: Other(g, whole) ==> g.index < |whole|)
    && (|held| < |whole| || AtMostOneOther(held, whole))
  }

  // A part held that a complete request may have at this place.
  predicate Usable(parts: map<nat, bytes>, i: nat, count: nat) {
    i in parts && (i + 1 < count ==> |parts[i]| == MAX_FRAGMENT_PAYLOAD)
  }

  // Whether what the agent holds can be dispatched together with fragments of this request.
  predicate HeldMixes(held: Held, whole: seq<Packet>)
    requires whole != []
  {
    && |whole| > 1
    && held.id == whole[0].requestId && held.opcode == whole[0].opcode && held.count == |whole|
    && (exists i | 0 <= i < |whole| :: Usable(held.parts, i, |whole|) && held.parts[i] != whole[i].payload)
    && (forall i | 0 <= i < |whole| :: Storable(held, whole[i]) || Usable(held.parts, i, |whole|))
  }

  // --- What must hold when the bridge issues a request ---

  // Fewer than 0x7FFF requests in a row without an answer, counting the new one.
  predicate Patient(s: System) {
    |s.history| + 1 - LastAnswer(s.answers) <= 0x7FFE
  }

  // The target holds nothing under the new identifier that it could take for this request or its
  // reply. Fragments do no harm behind a cached reply the bridge does not listen to, as long as
  // nothing on its way can displace that reply.
  predicate Clear(s: System, request: Request) {
    var id := NextId(s.requestId);
    var whole := FragmentsOf(s.wire, id, request);
    match s.endpoint
    case AtSimulator(x) =>
      && !HoldsReply(x.cache, id, request.opcode)
      && (Mixes(FragmentsFor(x.pending, id), whole) ==> InCache(x.cache, id) && s.toServer == [])
    case AtAgent(a) => !HeldMixes(a.held, whole)
  }

  predicate MayIssue(s: System, request: Request) {
    Patient(s) && (Fits(request) ==> Clear(s, request))
  }

  // A legal run: every event enabled, and every request issued when the bridge may.
  ghost predicate Legal(s: System, events: seq<Event>)
    decreases |events|
  {
    events == []
    || (Enabled(s, events[0])
        && (events[0].Issue? ==> MayIssue(s, events[0].request))
        && Legal(Step(s, events[0]), events[1..]))
  }

  ghost function Run(s: System, events: seq<Event>): System
    requires Legal(s, events)
    decreases |events|
  {
    if events == [] then s else Run(Step(s, events[0]), events[1..])
  }

  // The start of an agreed session. The agent's reassembly record survives a handshake, with
  // whatever it holds.
  ghost predicate Initial(s: System) {
    s.wire.Valid()
    && s.history == [] && s.requestId == s.wire.base && !s.active && s.received == []
    && s.answers == [] && s.results == [] && s.toServer == [] && s.toClient == []
    && s.served == 0 && s.holding == 0 && s.log == [] && s.refusals == []
    && match s.endpoint
       case AtSimulator(x) => x == Simulator(s.wire.sessionId, None, [], [])
       case AtAgent(a) => a.sessionId == s.wire.sessionId && a.last == None
  }
}
