/**
 The programs behind the packet steps: the simulator's session object and the bridge's
 retransmission loop.
 */
module SessionPrograms {
  import opened Bytes
  import opened Exchanges
  import opened Wrappers
  import opened Packets
  import opened RequestIds
  import opened Sessions

  datatype Address = Address(host: string, port: nat)

  /** `UdpAgentServer` with one session established. */
  class SimulatorSession {
    const sessionId: Word
    const address: Address
    const dropFirstResponse: bool
    var droppedResponse: bool
    var lastRequestId: Option<Word>
    var responseCache: seq<Cached>
    var pending: seq<Pending>
    // The datagrams sent to the address, as packets.
    var sent: seq<Packet>

    function State(): Simulator
      reads this
    {
      Simulator(sessionId, lastRequestId, responseCache, pending)
    }

    constructor (sessionId: Word, address: Address, dropFirstResponse: bool)
      ensures State() == Simulator(sessionId, None, [], []) && sent == [] && this.address == address
      ensures this.dropFirstResponse == dropFirstResponse && !droppedResponse
    {
      this.sessionId := sessionId;
      this.address := address;
      this.dropFirstResponse := dropFirstResponse;
      droppedResponse := false;
      lastRequestId := None;
      responseCache := [];
      pending := [];
      sent := [];
    }

    function Packets(id: Word, reply: Reply): seq<Packet> {
      Fragment(MAX_FRAGMENT_PAYLOAD, reply.kind, reply.opcode, sessionId, id, reply.payload)
    }

    // What of a new reply goes out: all of it, but for the very first where that is to be lost.
    function Outgoing(id: Word, reply: Reply): seq<Packet>
      reads this
    {
      if dropFirstResponse && !droppedResponse then [] else Packets(id, reply)
    }

    method SendResponse(id: Word, reply: Reply)
      modifies this
      ensures State() == Record(old(State()), id, reply)
      ensures sent == old(sent) + old(Outgoing(id, reply))
      ensures droppedResponse == (dropFirstResponse || old(droppedResponse))
    {
      lastRequestId := Some(id);
      responseCache := responseCache + [Cached(id, reply)];
      while |responseCache| > CACHE_LIMIT
        invariant responseCache == old(responseCache) + [Cached(id, reply)]
          || Newest(responseCache, CACHE_LIMIT) == Newest(old(responseCache) + [Cached(id, reply)], CACHE_LIMIT)
        invariant Newest(responseCache, CACHE_LIMIT) == Newest(old(responseCache) + [Cached(id, reply)], CACHE_LIMIT)
        invariant lastRequestId == Some(id) && pending == old(pending) && sent == old(sent)
        invariant droppedResponse == old(droppedResponse)
        decreases |responseCache|
      {
        responseCache := responseCache[1..];
      }
      if dropFirstResponse && !droppedResponse {
        droppedResponse := true;
        return;
      }
      sent := sent + Packets(id, reply);
    }

    /** `handle_datagram` for a packet that decodes under the session key. */
    method HandleDatagram(p: Packet, from: Address, answer: Answer) returns (outcome: Outcome)
      modifies this
      ensures (State(), outcome)
        == if from == address then HandleSimulator(old(State()), p, answer) else (old(State()), Silent)
      ensures sent == old(sent) + match outcome
                                  case Silent => []
                                  case Resend(reply) => Packets(p.requestId, reply)
                                  case _ => old(Outgoing(p.requestId, outcome.reply))
      ensures droppedResponse
        == (old(droppedResponse) || (dropFirstResponse && !outcome.Silent? && !outcome.Resend?))
    {
      hide Accept, SimulatorRefusal, RequestIsNewer, Record, Fragment;
      if p.kind != REQUEST || from != address || p.sessionId != sessionId {
        return Silent;
      }
      if InCache(responseCache, p.requestId) {
        var reply := Lookup(responseCache, p.requestId);
        sent := sent + Packets(p.requestId, reply);
        return Resend(reply);
      }
      if lastRequestId.Some? && !RequestIsNewer(p.requestId, lastRequestId.value) {
        SendResponse(p.requestId, SimulatorRefusal(p.opcode));
        return Refused(SimulatorRefusal(p.opcode));
      }
      outcome := TakeFragment(p, answer);
    }

    // The part of `handle_datagram` that collects a request and dispatches it.
    method TakeFragment(p: Packet, answer: Answer) returns (outcome: Outcome)
      modifies this
      ensures (State(), outcome) == Accept(old(State()), p, answer)
      ensures outcome.Silent? || outcome.Dispatched?
      ensures sent == old(sent) + if outcome.Silent? then [] else old(Outgoing(p.requestId, outcome.reply))
      ensures droppedResponse == (old(droppedResponse) || (dropFirstResponse && !outcome.Silent?))
    {
      hide Reassemble, Record, Fragment, Store;
      var i := Position(pending, p.requestId);
      if i == |pending| {
        if |pending| >= PENDING_LIMIT {
          pending := pending[1..];
        }
        pending := pending + [Pending(p.requestId, [])];
      }
      assert pending == Admit(old(pending), p.requestId);
      i := Position(pending, p.requestId);
      var fragments := Store(pending[i].fragments, p);
      if |fragments| != p.count {
        pending := pending[i := Pending(p.requestId, fragments)];
        return Silent;
      }
      pending := pending[..i] + pending[i + 1..];
      match Reassemble(fragments) {
        case Err(_) =>
          return Silent;
        case Ok(payload) =>
          var reply := Reply(answer.kind, p.opcode, answer.payload);
          SendResponse(p.requestId, reply);
          return Dispatched(p.opcode, payload, reply);
      }
    }
  }

  // The packets of a request, sent once for every attempt.
  function Sends(packets: seq<Packet>, attempts: nat): seq<Packet> {
    if attempts == 0 then [] else Sends(packets, attempts - 1) + packets
  }

  // The verdict of what arrives in the first attempts.
  function Heard(expected: Packet, arrivals: seq<seq<Option<Packet>>>, k: nat): Verdict
    requires k <= |arrivals|
  {
    Listen(expected.requestId, expected.opcode, expected.sessionId, [], Flatten(arrivals[..k]))
  }

  // The attempt in which an exchange ends: the first whose arrivals settle it, or the last.
  ghost predicate EndsAfter(expected: Packet, arrivals: seq<seq<Option<Packet>>>, attempts: nat) {
    && attempts <= |arrivals|
    && (forall k :: 0 <= k < attempts ==> Heard(expected, arrivals, k).Kept?)
    && (attempts < |arrivals| ==> !Heard(expected, arrivals, attempts).Kept?)
  }

  // What these arrivals settle, told by the packets: all of a reply, or an error.
  ghost predicate Settles(expected: Packet, all: seq<Option<Packet>>, whole: seq<Packet>) {
    AllBy(whole, all, |all|) || !NoErrorBefore(expected, all, |all|)
  }

  // The result and the last attempt, whenever the matching responses are fragments of one reply.
  ghost predicate RightOutcome(expected: Packet, arrivals: seq<seq<Option<Packet>>>,
                               result: Result<bytes, ExchangeError>, attempts: nat) {
    forall session, size, payload :: OneReply(expected, Flatten(arrivals), session, size, payload) ==>
      var whole := ReplyTo(expected, session, size, payload);
      && Decided(expected, Flatten(arrivals), whole, payload, result)
      && attempts <= |arrivals|
      && (forall k :: 0 <= k < attempts ==> !Settles(expected, Flatten(arrivals[..k]), whole))
      && (attempts < |arrivals| ==> Settles(expected, Flatten(arrivals[..attempts]), whole))
  }

  lemma PrefixIsReply(expected: Packet, arrivals: seq<seq<Option<Packet>>>, k: nat, session: Word, size: nat, payload: bytes)
    requires k <= |arrivals| && OneReply(expected, Flatten(arrivals), session, size, payload)
    ensures OneReply(expected, Flatten(arrivals[..k]), session, size, payload)
  {
    hide ReplyTo, ForUs, Flatten;
    FlattenPrefix(arrivals, k);
    var all, first := Flatten(arrivals), Flatten(arrivals[..k]);
    assert forall i :: 0 <= i < |first| ==> first[i] == all[i];
  }

  lemma KeptUnsettled(expected: Packet, all: seq<Option<Packet>>, session: Word, size: nat, payload: bytes)
    requires OneReply(expected, all, session, size, payload)
    ensures Listen(expected.requestId, expected.opcode, expected.sessionId, [], all).Kept?
      <==> !Settles(expected, all, ReplyTo(expected, session, size, payload))
  {
    hide Listen, OneReply, ReplyTo, AllBy, NoErrorBefore;
    ExchangeDecides(expected, all, session, size, payload);
    ListenOn(expected.requestId, expected.opcode, expected.sessionId, [], all, []);
  }

  lemma AttemptsSettle(expected: Packet, arrivals: seq<seq<Option<Packet>>>, attempts: nat,
                       session: Word, size: nat, payload: bytes)
    requires EndsAfter(expected, arrivals, attempts) && OneReply(expected, Flatten(arrivals), session, size, payload)
    ensures var whole := ReplyTo(expected, session, size, payload);
      && (forall k :: 0 <= k < attempts ==> !Settles(expected, Flatten(arrivals[..k]), whole))
      && (attempts < |arrivals| ==> Settles(expected, Flatten(arrivals[..attempts]), whole))
  {
    hide Listen, ReplyTo, Flatten, Settles, ForUs;
    forall k: nat | k <= |arrivals|
      ensures Heard(expected, arrivals, k).Kept?
        <==> !Settles(expected, Flatten(arrivals[..k]), ReplyTo(expected, session, size, payload))
    {
      PrefixIsReply(expected, arrivals, k, session, size, payload);
      KeptUnsettled(expected, Flatten(arrivals[..k]), session, size, payload);
    }
    hide Heard;
  }

  // Listening as the program does gives the right outcome.
  lemma OutcomeIsRight(expected: Packet, arrivals: seq<seq<Option<Packet>>>, attempts: nat)
    requires EndsAfter(expected, arrivals, attempts)
    ensures RightOutcome(expected, arrivals,
      Conclusion(Listen(expected.requestId, expected.opcode, expected.sessionId, [], Flatten(arrivals))), attempts)
  {
    hide Listen, ReplyTo, Flatten, Settles, Decided, Conclusion, ForUs, Heard;
    var result := Conclusion(Listen(expected.requestId, expected.opcode, expected.sessionId, [], Flatten(arrivals)));
    forall session, size, payload | OneReply(expected, Flatten(arrivals), session, size, payload)
      ensures Decided(expected, Flatten(arrivals), ReplyTo(expected, session, size, payload), payload, result)
      ensures var whole := ReplyTo(expected, session, size, payload);
        && (forall k :: 0 <= k < attempts ==> !Settles(expected, Flatten(arrivals[..k]), whole))
        && (attempts < |arrivals| ==> Settles(expected, Flatten(arrivals[..attempts]), whole))
    {
      ExchangeDecides(expected, Flatten(arrivals), session, size, payload);
      AttemptsSettle(expected, arrivals, attempts, session, size, payload);
    }
  }

  // One attempt goes on where those before it were left.
  lemma HeardOn(expected: Packet, arrivals: seq<seq<Option<Packet>>>, k: nat)
    requires k < |arrivals|
    requires Heard(expected, arrivals, k).Kept?
    ensures Heard(expected, arrivals, k + 1)
      == Listen(expected.requestId, expected.opcode, expected.sessionId, Heard(expected, arrivals, k).received, arrivals[k])
  {
    hide Listen, Flatten;
    FlattenSplit(arrivals, k);
    ListenOn(expected.requestId, expected.opcode, expected.sessionId, [], Flatten(arrivals[..k]), arrivals[k]);
  }

  // Once the exchange is settled, nothing that arrives later matters.
  lemma HeardEnough(expected: Packet, arrivals: seq<seq<Option<Packet>>>, k: nat)
    requires k <= |arrivals| && (k == |arrivals| || !Heard(expected, arrivals, k).Kept?)
    ensures Listen(expected.requestId, expected.opcode, expected.sessionId, [], Flatten(arrivals)) == Heard(expected, arrivals, k)
  {
    hide Listen, Flatten;
    if k == |arrivals| {
      assert arrivals[..k] == arrivals;
    } else {
      FlattenPrefix(arrivals, k);
      ListenOn(expected.requestId, expected.opcode, expected.sessionId, [], Flatten(arrivals[..k]), Flatten(arrivals[k..]));
    }
  }

  // The inner loop of `_exchange_with_packet`: what arrives before a deadline, one packet after the
  // other, up to the one that ends the exchange.
  method Await(requestId: Word, opcode: Opcode, sessionId: Word, received: seq<Packet>, row: seq<Option<Packet>>)
      returns (verdict: Verdict)
    ensures verdict == Listen(requestId, opcode, sessionId, received, row)
    ensures !verdict.Ignored?
  {
    hide Consider;
    var stored := received;
    for i := 0 to |row|
      invariant Listen(requestId, opcode, sessionId, stored, row[i..]) == Listen(requestId, opcode, sessionId, received, row)
    {
      assert row[i..][0] == row[i] && row[i..][1..] == row[i + 1..];
      if row[i].Some? {
        match Consider(requestId, opcode, sessionId, stored, row[i].value) {
          case Ignored =>
          case Kept(more) => stored := more;
          case settled => return settled;
        }
      }
    }
    assert row[|row|..] == [];
    return Kept(stored);
  }

  /**
   `_exchange_with_packet`: one attempt for every row of `arrivals`, each sending all the
   packets of the request and then listening to what arrives before its deadline. The
   outcome is that of considering all the arrivals in order, whatever the attempt they
   arrive in, up to the one that ends the exchange; nothing is sent after that.
   */
  method ExchangeWithPacket(packets: seq<Packet>, arrivals: seq<seq<Option<Packet>>>)
    returns (result: Result<bytes, ExchangeError>, sent: seq<Packet>, ghost attempts: nat)
    requires packets != []
    ensures result == Conclusion(Listen(packets[0].requestId, packets[0].opcode, packets[0].sessionId, [], Flatten(arrivals)))
    ensures EndsAfter(packets[0], arrivals, attempts) && sent == Sends(packets, attempts)
    ensures RightOutcome(packets[0], arrivals, result, attempts)
    ensures result == Err(Timeout) ==> attempts == |arrivals|
  {
    hide RightOutcome;
    var expected := packets[0];
    var received: seq<Packet> := [];
    sent := [];
    assert arrivals[..0] == [] && Heard(expected, arrivals, 0) == Kept([]);
    hide Listen, Flatten, Heard;
    for k := 0 to |arrivals|
      invariant sent == Sends(packets, k) && Heard(expected, arrivals, k) == Kept(received)
      invariant forall i :: 0 <= i < k ==> Heard(expected, arrivals, i).Kept?
    {
      HeardOn(expected, arrivals, k);
      sent := sent + packets;
      var verdict := Await(expected.requestId, expected.opcode, expected.sessionId, received, arrivals[k]);
      if !verdict.Kept? {
        HeardEnough(expected, arrivals, k + 1);
        OutcomeIsRight(expected, arrivals, k + 1);
        return Conclusion(verdict), sent, k + 1;
      }
      received := verdict.received;
    }
    HeardEnough(expected, arrivals, |arrivals|);
    OutcomeIsRight(expected, arrivals, |arrivals|);
    return Err(Timeout), sent, |arrivals|;
  }

  /** `UdpBackend` with a session: the identifier of its last request. */
  class UdpBackend {
    const sessionId: Word
    var requestId: Word

    constructor (sessionId: Word)
      ensures this.sessionId == sessionId && requestId == 0
    {
      this.sessionId := sessionId;
      requestId := 0;
    }

    /**
     `_request`: a new identifier, the message in fragments, all of them sent in every attempt up to
     the one that settles the exchange, and what the arrivals come to. A message that is too long is
     refused, its identifier spent.
     */
    method Request(opcode: Opcode, payload: bytes, arrivals: seq<seq<Option<Packet>>>)
        returns (result: Result<bytes, ExchangeError>, sent: seq<Packet>, ghost attempts: nat)
      modifies this`requestId
      ensures requestId == NextId(old(requestId)) && requestId != 0
      ensures |payload| > MAX_MESSAGE_SIZE ==> sent == [] && result == Err(MessageTooLong)
      ensures |payload| <= MAX_MESSAGE_SIZE ==>
        && var packets := Fragment(MAX_FRAGMENT_PAYLOAD, REQUEST, opcode, sessionId, requestId, payload);
        && packets != [] && (forall p :: p in packets ==> p.Valid())
        && sent == Sends(packets, attempts) && EndsAfter(packets[0], arrivals, attempts)
        && RightOutcome(packets[0], arrivals, result, attempts)
        && result == Conclusion(Listen(requestId, opcode, sessionId, [], Flatten(arrivals)))
        && (result == Err(Timeout) ==> attempts == |arrivals|)
    {
      hide Fragment, EndsAfter, RightOutcome;
      requestId := NextId(requestId);
      if |payload| > MAX_MESSAGE_SIZE {
        return Err(MessageTooLong), [], 0;
      }
      var packets := Fragment(MAX_FRAGMENT_PAYLOAD, REQUEST, opcode, sessionId, requestId, payload);
      EnoughSlices(MAX_FRAGMENT_PAYLOAD, |payload|);
      FragmentsAreAlike(MAX_FRAGMENT_PAYLOAD, REQUEST, opcode, sessionId, requestId, payload);
      assert packets[0] in packets;
      result, sent, attempts := ExchangeWithPacket(packets, arrivals);
    }
  }
}
