/**
 The resident agent as the agent of the packet link: seen without its buffer and its interrupts,
 every packet it takes out of the receive slot is the step of a session in Sessions, and the reply
 of that step goes out over the runs that follow.
 */
module ResidentSessions {
  import opened AgentTransfers
  import opened Buffers
  import opened Bytes
  import opened PacketCodec
  import opened Packets
  import opened RequestIds
  import opened ResidentReplies
  import opened ResidentRuns
  import opened ResidentSafety
  import opened ResidentWorker
  import opened TransferSafety
  import opened Wrappers
  import RequestAssembly
  import S = Sessions

  // What else the variables always satisfy: no part is longer than a payload, and the last request
  // is the one whose reply is on record.
  ghost predicate Settled(r: Resident) {
    && (forall i :: i in r.receiving.lengths ==> r.receiving.lengths[i] <= MAX_FRAGMENT_PAYLOAD)
    && (r.session.last.Some? ==> r.session.last == Some(r.outgoing.id) && r.outgoing.count > 0)
  }

  ghost predicate Placed(q: Receiving, workspace: bytes) {
    && |workspace| == REQUEST_BUFFER_SIZE
    && forall i :: i in q.lengths ==>
         q.lengths[i] <= MAX_FRAGMENT_PAYLOAD && i * MAX_FRAGMENT_PAYLOAD + q.lengths[i] <= |workspace|
  }

  // The parts of the request being received, where they lie in the buffer.
  ghost function PartsOf(q: Receiving, workspace: bytes): (parts: map<nat, bytes>)
    requires Placed(q, workspace)
    ensures parts.Keys == q.lengths.Keys
    ensures forall i :: i in parts ==>
      |parts[i]| == q.lengths[i]
      && parts[i] == workspace[i * MAX_FRAGMENT_PAYLOAD..i * MAX_FRAGMENT_PAYLOAD + q.lengths[i]]
  {
    map i | i in q.lengths :: workspace[i * MAX_FRAGMENT_PAYLOAD..i * MAX_FRAGMENT_PAYLOAD + q.lengths[i]]
  }

  ghost predicate InPlace(r: Resident) {
    Placed(r.receiving, r.workspace) && r.outgoing.length <= |r.workspace|
  }

  ghost function HeldOf(q: Receiving, workspace: bytes): S.Held
    requires Placed(q, workspace)
  {
    S.Held(q.id, q.opcode, q.count, PartsOf(q, workspace))
  }

  ghost function ReplyOf(r: Resident): S.Reply
    requires r.outgoing.length <= |r.workspace|
  {
    S.Reply(r.outgoing.kind, r.outgoing.opcode, r.workspace[..r.outgoing.length])
  }

  // The session as the packet link sees it.
  ghost function AgentOf(r: Resident): S.Agent
    requires InPlace(r)
  {
    S.Agent(r.session.id, r.session.last, ReplyOf(r), HeldOf(r.receiving, r.workspace))
  }

  // How the operation answered, by what it left in the buffer.
  ghost function AnswerOf(r: Resident): S.Answer
    requires InPlace(r)
  {
    S.Answer(r.outgoing.kind, ReplyOf(r).payload, PartsOf(r.receiving, r.workspace))
  }

  function PacketOf(p: DmPacket): Packet
    requires Decoded(p)
  {
    hide Value;
    Packet(KindOf(Value(p.kind)).value, Value(p.opcode), p.sessionId, p.requestId,
           Value(p.fragmentIndex), Value(p.fragmentCount), p.payload)
  }

  // --- The parts in the buffer ---

  // Storing a part leaves the others where they are.
  lemma PartKept(q: Receiving, workspace: bytes, index: nat, payload: bytes, i: nat)
    requires Placed(q, workspace) && |payload| <= MAX_FRAGMENT_PAYLOAD
    requires index * MAX_FRAGMENT_PAYLOAD + |payload| <= |workspace| && i in q.lengths && i != index
    ensures var from := i * MAX_FRAGMENT_PAYLOAD;
      Written(workspace, index * MAX_FRAGMENT_PAYLOAD, payload)[from..from + q.lengths[i]]
      == workspace[from..from + q.lengths[i]]
  {
    hide Written;
    var from := i * MAX_FRAGMENT_PAYLOAD;
    RequestAssembly.WrittenElsewhere(workspace, index * MAX_FRAGMENT_PAYLOAD, payload, from, from + q.lengths[i]);
  }

  lemma StillPlaced(q: Receiving, workspace: bytes, index: nat, payload: bytes)
    requires Placed(q, workspace) && |payload| <= MAX_FRAGMENT_PAYLOAD
    requires index * MAX_FRAGMENT_PAYLOAD + |payload| <= |workspace|
    ensures var workspace' := Written(workspace, index * MAX_FRAGMENT_PAYLOAD, payload);
      Placed(q.(lengths := q.lengths[index := |payload|]), workspace')
  {
    hide Written;
  }

  lemma PartStored(q: Receiving, workspace: bytes, index: nat, payload: bytes)
    requires Placed(q, workspace) && |payload| <= MAX_FRAGMENT_PAYLOAD
    requires index * MAX_FRAGMENT_PAYLOAD + |payload| <= |workspace|
    ensures var q' := q.(lengths := q.lengths[index := |payload|]);
      var workspace' := Written(workspace, index * MAX_FRAGMENT_PAYLOAD, payload);
      Placed(q', workspace') && PartsOf(q', workspace') == PartsOf(q, workspace)[index := payload]
  {
    hide Written, Placed, PartsOf;
    StillPlaced(q, workspace, index, payload);
    var q' := q.(lengths := q.lengths[index := |payload|]);
    var start := index * MAX_FRAGMENT_PAYLOAD;
    var workspace' := Written(workspace, start, payload);
    var parts, later := PartsOf(q, workspace), PartsOf(q', workspace');
    assert later.Keys == parts.Keys + {index};
    assert later[index] == payload by {
      assert index in later;
      RequestAssembly.WrittenHere(workspace, start, payload);
    }
    forall i | i in parts && i != index
      ensures later[i] == parts[i]
    {
      assert i in later;
      PartKept(q, workspace, index, payload, i);
    }
    SameParts(parts, later, index, payload);
  }

  lemma SameParts(parts: map<nat, bytes>, later: map<nat, bytes>, index: nat, payload: bytes)
    requires later.Keys == parts.Keys + {index} && later[index] == payload
    requires forall i :: i in parts && i != index ==> later[i] == parts[i]
    ensures later == parts[index := payload]
  {
    assert later.Keys == parts[index := payload].Keys;
  }

  lemma PartsAlike(q: Receiving, workspace: bytes)
    requires Placed(q, workspace)
    ensures var parts := PartsOf(q, workspace);
      && (S.Complete(parts, q.count) <==> AllHere(q))
      && (AllHere(q) ==> (S.FullBeforeLast(parts, q.count) <==> ResidentWorker.FullBeforeLast(q)))
  {
    hide Placed, PartsOf;
    var parts := PartsOf(q, workspace);
    assert forall i :: i in parts <==> i in parts.Keys;
    assert forall i :: i in q.lengths <==> i in parts;
  }

  // All the parts, full but for the last, are one run of bytes at the front of the buffer.
  lemma PartsJoin(q: Receiving, workspace: bytes)
    requires Placed(q, workspace) && q.count > 0
    ensures var parts := PartsOf(q, workspace);
      && (S.Complete(parts, q.count) <==> AllHere(q))
      && (AllHere(q) ==> (S.FullBeforeLast(parts, q.count) <==> ResidentWorker.FullBeforeLast(q)))
      && (AllHere(q) && ResidentWorker.FullBeforeLast(q) ==>
            RequestLength(q) <= |workspace| && S.JoinParts(parts, q.count) == workspace[..RequestLength(q)])
  {
    PartsAlike(q, workspace);
    hide PartsOf, S.JoinParts, S.Complete, S.FullBeforeLast;
    if AllHere(q) && ResidentWorker.FullBeforeLast(q) {
      assert forall i :: 0 <= i < q.count ==> i in PartsOf(q, workspace).Keys;
      RequestAssembly.Contiguous(PartsOf(q, workspace), workspace, q.count);
    }
  }

  // --- A packet is a step of the session ---

  // A reply over the front of the buffer, all of it about to be sent.
  ghost predicate Due(r: Resident, id: Word, reply: S.Reply) {
    && r.outgoing == Outgoing(reply.kind, reply.opcode, id, |reply.payload|,
                              FragmentCount(RESPONSE_FRAGMENT_PAYLOAD, |reply.payload|), 0, true)
    && r.outgoing.length <= |r.workspace| && ReplyOf(r) == reply
  }

  // The bytes of an answer are the reply's, but for the text screen, which is read as it goes out.
  ghost predicate Gives(answer: Answer, opcode: Opcode, reply: S.Reply) {
    hide AnswerBytes;
    && reply.kind == (if answer.Error? then ERROR else RESPONSE) && reply.opcode == opcode
    && (!answer.TextScreen? ==> reply.payload == AnswerBytes(answer))
  }

  // What a step of the session does at the agent.
  ghost predicate Shows(setup: Setup, r: Resident, m: Moment, requestId: Word, r': Resident, outcome: S.Outcome) {
    && r'.sent == r.sent && r'.session.peer == r.session.peer && r'.session.key == r.session.key
    && match outcome
       case Silent => r'.outgoing == r.outgoing && r'.world == r.world
       case Resend(reply) => Due(r', requestId, reply) && r'.world == r.world
       case Refused(reply) => Due(r', requestId, reply) && r'.world == r.world
       case Dispatched(opcode, payload, reply) =>
         && Due(r', requestId, reply)
         && Sized(r.world.t) && Still(r.world.t, m.machine.picture) && r.world.keyboard.Valid()
         && r'.world == Respond(setup.config, m.machine, r.world, opcode, payload).0
         && Gives(Respond(setup.config, m.machine, r.world, opcode, payload).1, opcode, reply)
  }

  ghost predicate Refines(setup: Setup, r: Resident, m: Moment, packet: Packet, r': Resident)
    requires InPlace(r)
  {
    && InPlace(r') && Settled(r')
    && var (agent, outcome) := S.HandleAgent(AgentOf(r), packet, AnswerOf(r'));
    && agent == AgentOf(r') && Shows(setup, r, m, packet.requestId, r', outcome)
  }

  lemma DeliverRefines(r: Resident, world: World, opcode: Opcode, requestId: Word, answer: Answer)
    requires InPlace(r) && Settled(r) && PayloadSize(answer) <= SCREEN_BUFFER_SIZE
    ensures var r' := Deliver(r, world, opcode, requestId, answer);
      && InPlace(r') && Settled(r') && Due(r', requestId, ReplyOf(r')) && Gives(answer, opcode, ReplyOf(r'))
      && r'.world == world && r'.sent == r.sent && r'.receiving == r.receiving
      && r'.session == r.session.(last := Some(requestId))
  {
    hide AnswerBytes;
    AnswerFits(answer);
    if !answer.TextScreen? {
      FrontIs(r.workspace, AnswerBytes(answer));
    }
  }

  // A request put together is answered by `Respond` applied to its bytes.
  lemma DispatchRefines(setup: Setup, r: Resident, m: Moment)
    requires Shaped(setup, r) && m.Valid(setup) && InPlace(r) && Settled(r) && 1 <= r.receiving.opcode <= 18
    requires r.receiving.count > 0 && AllHere(r.receiving) && RequestLength(r.receiving) <= |r.workspace|
    ensures Sized(r.world.t) && Still(r.world.t, m.machine.picture) && r.world.keyboard.Valid()
    ensures var r' := Dispatch(setup, r, m);
      var opcode, payload := r.receiving.opcode, r.workspace[..RequestLength(r.receiving)];
      && InPlace(r') && Settled(r') && Due(r', r.receiving.id, ReplyOf(r'))
      && r'.world == Respond(setup.config, m.machine, r.world, opcode, payload).0
      && Gives(Respond(setup.config, m.machine, r.world, opcode, payload).1, opcode, ReplyOf(r'))
      && r'.sent == r.sent && r'.receiving == r.receiving
      && r'.session == r.session.(last := Some(r.receiving.id))
  {
    hide Respond, Deliver, Inv, Gives, Due, Seen, Settled, ReplyOf;
    InvParts(setup.picture, r.world.t, r.world.disk);
    var p := r.workspace[..RequestLength(r.receiving)];
    RepliesFit(setup.config, m.machine, r.world, r.receiving.opcode, p);
    var (world, answer) := Respond(setup.config, m.machine, r.world, r.receiving.opcode, p);
    DeliverRefines(r, world, r.receiving.opcode, r.receiving.id, answer);
  }

  lemma RestartRefines(q: Receiving, workspace: bytes, packet: DmPacket)
    requires Placed(q, workspace) && Decoded(packet)
    ensures var q' := Restarted(q, packet.requestId, Value(packet.opcode), Value(packet.fragmentCount));
      Placed(q', workspace) && HeldOf(q', workspace) == S.HoldFor(HeldOf(q, workspace), PacketOf(packet))
  {
    hide Value;
    var q' := Restarted(q, packet.requestId, Value(packet.opcode), Value(packet.fragmentCount));
    if packet.requestId != q.id {
      assert PartsOf(q', workspace) == map[];
    }
  }

  predicate PartFits(r: Resident, packet: DmPacket) {
    hide Value;
    Value(packet.fragmentIndex) * MAX_FRAGMENT_PAYLOAD + |packet.payload| <= |r.workspace|
  }

  // The record once the packet's part is stored, and the buffer with it.
  ghost function WithPart(r: Resident, packet: DmPacket): Resident
    requires InPlace(r) && Decoded(packet) && PartFits(r, packet)
  {
    hide Value, Written;
    var q := Restarted(r.receiving, packet.requestId, Value(packet.opcode), Value(packet.fragmentCount));
    var index := Value(packet.fragmentIndex);
    r.(receiving := q.(lengths := q.lengths[index := |packet.payload|]),
       workspace := Written(r.workspace, index * MAX_FRAGMENT_PAYLOAD, packet.payload))
  }

  lemma PartShaped(setup: Setup, r: Resident, packet: DmPacket)
    requires Shaped(setup, r) && InPlace(r) && Settled(r) && Decoded(packet) && PartFits(r, packet)
    requires var q := Restarted(r.receiving, packet.requestId, Value(packet.opcode), Value(packet.fragmentCount));
      q.count == Value(packet.fragmentCount)
    ensures var w := WithPart(r, packet); Shaped(setup, w) && InPlace(w) && Settled(w)
  {
    hide Value, Written, Inv;
  }

  lemma StoreRefines(setup: Setup, r: Resident, packet: DmPacket)
    requires Shaped(setup, r) && InPlace(r) && Settled(r) && Decoded(packet)
    requires S.Storable(S.HoldFor(AgentOf(r).held, PacketOf(packet)), PacketOf(packet))
    ensures PartFits(r, packet)
    ensures var (w, p, held) := (WithPart(r, packet), PacketOf(packet), S.HoldFor(AgentOf(r).held, PacketOf(packet)));
      && Shaped(setup, w) && InPlace(w) && Settled(w)
      && HeldOf(w.receiving, w.workspace) == held.(parts := held.parts[p.index := p.payload])
      && w.receiving.count == p.count && w.receiving.opcode == p.opcode && w.receiving.id == p.requestId
  {
    hide Value, Written, Shaped, Settled, PartsOf, Placed;
    ShapedParts(setup, r);
    var q := Restarted(r.receiving, packet.requestId, Value(packet.opcode), Value(packet.fragmentCount));
    RestartRefines(r.receiving, r.workspace, packet);
    PartShaped(setup, r, packet);
    PartStored(q, r.workspace, Value(packet.fragmentIndex), packet.payload);
  }

  predicate Whole(q: Receiving) {
    q.count > 0 && AllHere(q) && ResidentWorker.FullBeforeLast(q)
  }

  // What `Collect` does, by whether the part can be stored and completes the request.
  lemma CollectIs(setup: Setup, r: Resident, m: Moment, packet: DmPacket)
    requires Shaped(setup, r) && m.Valid(setup) && InPlace(r) && Settled(r)
    requires Decoded(packet)
    ensures var p, held := PacketOf(packet), S.HoldFor(AgentOf(r).held, PacketOf(packet));
      if !S.Storable(held, p) then
        var r' := Collect(setup, r, m, packet);
        && Placed(r'.receiving, r.workspace) && HeldOf(r'.receiving, r.workspace) == held
        && r' == r.(receiving := r'.receiving)
      else
        && PartFits(r, packet)
        && var w := WithPart(r, packet);
        && Shaped(setup, w)
        && Collect(setup, r, m, packet) == if Whole(w.receiving) then Dispatch(setup, w, m) else w
  {
    hide Value, Written, Dispatch, Inv, AllHere, ResidentWorker.FullBeforeLast, PartsOf;
    RestartRefines(r.receiving, r.workspace, packet);
    var p, held := PacketOf(packet), S.HoldFor(AgentOf(r).held, PacketOf(packet));
    if S.Storable(held, p) {
      StoreRefines(setup, r, packet);
    }
  }

  lemma PartKeeps(r: Resident, packet: DmPacket)
    requires InPlace(r) && Decoded(packet) && PartFits(r, packet)
    ensures var w := WithPart(r, packet);
      w == r.(receiving := w.receiving, workspace := w.workspace)
  {
    hide Value, Written;
  }

  // What collecting a packet comes to at the agent of the link.
  ghost predicate Collects(setup: Setup, r: Resident, m: Moment, packet: DmPacket, r': Resident)
    requires InPlace(r) && Decoded(packet)
  {
    && InPlace(r') && Settled(r')
    && var p := PacketOf(packet);
    var (agent, outcome) := S.Collect(AgentOf(r), S.HoldFor(AgentOf(r).held, p), p, AnswerOf(r'));
    && agent == AgentOf(r') && Shows(setup, r, m, packet.requestId, r', outcome)
  }

  // A part that completes no request: nothing is answered, and the last reply is written over.
  lemma PartRefines(setup: Setup, r: Resident, m: Moment, packet: DmPacket)
    requires Shaped(setup, r) && InPlace(r) && Settled(r) && Decoded(packet)
    requires S.Storable(S.HoldFor(AgentOf(r).held, PacketOf(packet)), PacketOf(packet))
    requires PartFits(r, packet)
    requires !Whole(WithPart(r, packet).receiving)
    ensures Collects(setup, r, m, packet, WithPart(r, packet))
  {
    hide Value, WithPart, Shaped, Written, AllHere, ResidentWorker.FullBeforeLast, Settled;
    hide PartsOf, S.JoinParts, S.Complete, S.FullBeforeLast, S.Storable, S.HoldFor;
    StoreRefines(setup, r, packet);
    PartKeeps(r, packet);
    var w := WithPart(r, packet);
    PartsJoin(w.receiving, w.workspace);
  }

  // The part that completes a request: it is dispatched.
  lemma LastPartRefines(setup: Setup, r: Resident, m: Moment, packet: DmPacket)
    requires Shaped(setup, r) && m.Valid(setup) && InPlace(r) && Settled(r) && Decoded(packet)
    requires S.Storable(S.HoldFor(AgentOf(r).held, PacketOf(packet)), PacketOf(packet))
    requires PartFits(r, packet)
    requires Whole(WithPart(r, packet).receiving) && Shaped(setup, WithPart(r, packet))
    ensures Collects(setup, r, m, packet, Dispatch(setup, WithPart(r, packet), m))
  {
    hide Value, WithPart, Shaped, Written, Dispatch, Due, AnswerBytes, Respond, AllHere;
    hide ResidentWorker.FullBeforeLast, Settled;
    hide PartsOf, S.JoinParts, S.Complete, S.FullBeforeLast, S.Storable, S.HoldFor, RequestLength;
    StoreRefines(setup, r, packet);
    PartKeeps(r, packet);
    var w := WithPart(r, packet);
    PartsJoin(w.receiving, w.workspace);
    DispatchRefines(setup, w, m);
  }

  lemma CollectRefines(setup: Setup, r: Resident, m: Moment, packet: DmPacket)
    requires Shaped(setup, r) && m.Valid(setup) && InPlace(r) && Settled(r)
    requires Decoded(packet)
    ensures Collects(setup, r, m, packet, Collect(setup, r, m, packet))
  {
    hide Value, Collect, WithPart, Shaped, Dispatch, Shows, Whole, AllHere, ResidentWorker.FullBeforeLast;
    hide PartsOf, S.Collect, S.Storable, S.HoldFor;
    CollectIs(setup, r, m, packet);
    var p, held := PacketOf(packet), S.HoldFor(AgentOf(r).held, PacketOf(packet));
    if !S.Storable(held, p) {
      RejectRefines(setup, r, m, packet);
    } else if Whole(WithPart(r, packet).receiving) {
      LastPartRefines(setup, r, m, packet);
    } else {
      PartRefines(setup, r, m, packet);
    }
  }

  lemma RejectRefines(setup: Setup, r: Resident, m: Moment, packet: DmPacket)
    requires Shaped(setup, r) && m.Valid(setup) && InPlace(r) && Settled(r)
    requires Decoded(packet)
    requires !S.Storable(S.HoldFor(AgentOf(r).held, PacketOf(packet)), PacketOf(packet))
    ensures Collects(setup, r, m, packet, Collect(setup, r, m, packet))
  {
    hide Value, Collect, Shaped, S.Storable, S.HoldFor, PartsOf;
    CollectIs(setup, r, m, packet);
    var r' := Collect(setup, r, m, packet);
    assert forall i :: i in r'.receiving.lengths ==> r'.receiving.lengths[i] <= MAX_FRAGMENT_PAYLOAD;
  }

  lemma RepeatRefines(setup: Setup, r: Resident, m: Moment, requestId: Word)
    requires Shaped(setup, r) && InPlace(r) && Settled(r) && r.session.last == Some(requestId)
    ensures var r' := r.(outgoing := r.outgoing.(next := 0, pending := r.outgoing.count != 0));
      && InPlace(r') && Settled(r') && AgentOf(r') == AgentOf(r)
      && Shows(setup, r, m, requestId, r', S.Resend(AgentOf(r).reply))
  {
    hide Inv, PartsOf;
  }

  lemma RefusalRefines(setup: Setup, r: Resident, m: Moment, opcode: Opcode, requestId: Word)
    requires InPlace(r) && Settled(r)
    ensures var r' := Deliver(r, r.world, opcode, requestId, Error(4, "replayed request"));
      && InPlace(r') && Settled(r') && ReplyOf(r') == S.AgentRefusal(opcode)
      && AgentOf(r') == S.Agent(r.session.id, Some(requestId), S.AgentRefusal(opcode),
                                AgentOf(r).held.(parts := AnswerOf(r').residue))
      && Shows(setup, r, m, requestId, r', S.Refused(S.AgentRefusal(opcode)))
  {
    hide Deliver, PartsOf, PutU16, Ascii;
    DeliverRefines(r, r.world, opcode, requestId, Error(4, "replayed request"));
  }

  lemma SessionRefines(setup: Setup, r: Resident, m: Moment, packet: DmPacket)
    requires Shaped(setup, r) && m.Valid(setup) && InPlace(r) && Settled(r) && Decoded(packet)
    requires Value(packet.opcode) != HELLO || packet.sessionId != 0
    requires Value(packet.kind) == KindNumber(REQUEST) && packet.sessionId == r.session.id
    ensures Refines(setup, r, m, PacketOf(packet), ProcessSession(setup, r, m, packet))
  {
    hide Value, Collect, Deliver, Shaped, Shows, PartsOf, S.Collect, S.HoldFor, RequestIsNewer, Settled;
    var last := r.session.last;
    if last == Some(packet.requestId) {
      RepeatRefines(setup, r, m, packet.requestId);
    } else if last.Some? && !RequestIsNewer(packet.requestId, last.value) {
      RefusalRefines(setup, r, m, Value(packet.opcode), packet.requestId);
    } else {
      CollectRefines(setup, r, m, packet);
    }
  }

  lemma TouchKeeps(setup: Setup, r: Resident)
    requires Shaped(setup, r) && InPlace(r) && Settled(r)
    ensures var t := r.(session := r.session.(activity := r.ticks));
      Shaped(setup, t) && InPlace(t) && Settled(t) && AgentOf(t) == AgentOf(r)
  {
    hide Inv, PartsOf;
  }

  lemma TouchShows(setup: Setup, r: Resident, m: Moment, packet: Packet, r': Resident)
    requires InPlace(r)
    ensures var t := r.(session := r.session.(activity := r.ticks));
      InPlace(t) && (Refines(setup, t, m, packet, r') ==> Refines(setup, r, m, packet, r'))
  {
    hide PartsOf, S.HandleAgent, Respond, Due, Gives, Settled;
  }

  lemma IgnoredRefines(setup: Setup, r: Resident, m: Moment, packet: DmPacket)
    requires InPlace(r) && Settled(r) && Decoded(packet)
    requires Value(packet.kind) != KindNumber(REQUEST) || (Value(packet.opcode) == HELLO && packet.sessionId == 0)
      || packet.sessionId != r.session.id
    ensures Refines(setup, r, m, PacketOf(packet), r)
  {
    hide Value, PartsOf, S.Collect, S.HoldFor, Settled;
    KindNumberOf(Value(packet.kind));
  }

  /**
   Every authentic packet from the peer of the session, unless a new handshake is served, is one
   step of the session: the same record and the same last reply after it, the same outcome, and a
   reply about to go out exactly when there is one.
   */
  lemma PacketRefines(setup: Setup, r: Resident, m: Moment, packet: DmPacket)
    requires Shaped(setup, r) && m.Valid(setup) && InPlace(r) && Settled(r) && r.session.active
    requires Decoded(packet) && EffectOf(r, packet, r.session.peer) != Greets
    ensures Refines(setup, r, m, PacketOf(packet), ProcessPacket(setup, r, m, packet, r.session.peer))
  {
    hide Value, ProcessSession, Shaped, PartsOf, S.Collect, S.HoldFor, Settled, Refines, RequestIsNewer;
    var greeting := Value(packet.opcode) == HELLO && packet.sessionId == 0;
    if Value(packet.kind) == KindNumber(REQUEST) && !greeting && packet.sessionId == r.session.id {
      var t := r.(session := r.session.(activity := r.ticks));
      TouchKeeps(setup, r);
      TouchShows(setup, r, m, PacketOf(packet), ProcessSession(setup, t, m, packet));
      SessionRefines(setup, t, m, packet);
    } else {
      IgnoredRefines(setup, r, m, packet);
    }
  }

  // --- Over the life of the agent ---

  lemma ShapedInPlace(setup: Setup, r: Resident)
    requires Shaped(setup, r) && Settled(r)
    ensures InPlace(r)
  {
    hide Inv;
  }

  // What a run prepares keeps the session as the link sees it, while it lasts.
  lemma PrepareKeepsAgent(setup: Setup, r: Resident, m: Moment)
    requires Shaped(setup, r) && Settled(r)
    ensures var p := Prepare(r, m);
      && Shaped(setup, p) && Settled(p) && InPlace(r) && InPlace(p)
      && (p.session.active ==> r.session.active && AgentOf(p) == AgentOf(r) && p.session == r.session
                               && p.outgoing == r.outgoing && p.sent == r.sent)
      && (!r.session.active ==> !p.session.active)
  {
    hide GiveUp, Inv, PartsOf;
    PrepareShaped(setup, r, m);
    ShapedInPlace(setup, r);
    ShapedInPlace(setup, Prepare(r, m));
  }

  lemma GreetingSettles(setup: Setup, r: Resident, m: Moment, packet: DmPacket, from: Peer)
    requires Shaped(setup, r) && m.Valid(setup) && Settled(r) && Decoded(packet)
    requires EffectOf(r, packet, from) == Greets || !r.session.active || from != r.session.peer
    ensures var r' := ProcessPacket(setup, r, m, packet, from);
      && Settled(r')
      && (EffectOf(r, packet, from) != Greets ==> r' == r)
  {
    hide Value, PutU16, SessionId, Encode, RequestIsNewer, Inv;
  }

  // Emptying the slot, the session as the link sees it stays.
  lemma SlotApart(setup: Setup, r: Resident, m: Moment, packet: Packet, r': Resident)
    requires InPlace(r) && Refines(setup, r, m, packet, r')
    ensures Refines(setup, r, m, packet, r'.(slot := None))
    ensures AgentOf(r'.(slot := None)) == AgentOf(r') && AnswerOf(r'.(slot := None)) == AnswerOf(r')
  {
    hide PartsOf, S.HandleAgent, Respond, Gives;
  }

  // The packet a run takes from the peer of the session.
  function FromPeer(setup: Setup, r: Resident, m: Moment): Option<DmPacket>
    requires Good(setup, r) && m.Valid(setup)
  {
    hide Taken, Prepare;
    match Taken(setup, r, m)
    case None => None
    case Some((packet, from)) =>
      var p := Prepare(r, m);
      if p.session.active && from == p.session.peer then Some(packet) else None
  }

  lemma FromPeerDecoded(setup: Setup, r: Resident, m: Moment)
    requires Good(setup, r) && m.Valid(setup) && r.enabled && FromPeer(setup, r, m).Some?
    ensures Decoded(FromPeer(setup, r, m).value)
  {
    hide Taken, Prepare, Worker, ProcessPacket, Good, Value;
    WorkerTakes(setup, r, m);
  }

  lemma WorkSettles(setup: Setup, r: Resident, m: Moment)
    requires Good(setup, r) && m.Valid(setup) && r.enabled && Settled(r)
    ensures Settled(Worker(setup, r, m)) && InPlace(Worker(setup, r, m))
  {
    hide Taken, Prepare, ProcessPacket, Shaped, Timed, Value, EffectOf, Encode, Slice, PartsOf, Refines;
    WorkerTakes(setup, r, m);
    WorkerShaped(setup, r, m);
    PrepareKeepsAgent(setup, r, m);
    var p := Prepare(r, m);
    match Taken(setup, r, m) {
      case Some((packet, from)) =>
        if EffectOf(p, packet, from) == Greets || !p.session.active || from != p.session.peer {
          GreetingSettles(setup, p, m, packet, from);
        } else {
          PacketRefines(setup, p, m, packet);
          RefinesSettled(setup, p, m, PacketOf(packet), ProcessPacket(setup, p, m, packet, from));
        }
      case None =>
        if p.outgoing.pending {
          DueIsValid(setup, p, m);
          ShapedParts(setup, p);
        }
    }
    ShapedInPlace(setup, Worker(setup, r, m));
  }

  lemma RefinesSettled(setup: Setup, r: Resident, m: Moment, packet: Packet, r': Resident)
    requires InPlace(r) && Refines(setup, r, m, packet, r')
    ensures Settled(r')
  {
    hide Shows, S.HandleAgent, PartsOf, Settled;
  }

  // A run that takes a packet from the peer serves it as a step of the session.
  lemma WorkServes(setup: Setup, r: Resident, m: Moment)
    requires Good(setup, r) && m.Valid(setup) && r.enabled && Settled(r)
    requires FromPeer(setup, r, m).Some? && WorkEffect(setup, r, m) != Greets
    ensures Decoded(FromPeer(setup, r, m).value)
    ensures InPlace(r) && Settled(Prepare(r, m)) && InPlace(Prepare(r, m)) && AgentOf(Prepare(r, m)) == AgentOf(r)
    ensures Refines(setup, Prepare(r, m), m, PacketOf(FromPeer(setup, r, m).value), Worker(setup, r, m))
  {
    hide Taken, Prepare, Worker, ProcessPacket, Shaped, Timed, Value, EffectOf, PartsOf, Refines, Settled, AgentOf;
    GoodParts(setup, r);
    WorkerTakes(setup, r, m);
    PrepareKeepsAgent(setup, r, m);
    var p := Prepare(r, m);
    var (packet, from) := Taken(setup, r, m).value;
    PacketRefines(setup, p, m, packet);
    SlotApart(setup, p, m, PacketOf(packet), ProcessPacket(setup, p, m, packet, from));
  }

  // Any other run leaves the session as it is, unless it ends or a text capture goes out.
  lemma WorkRests(setup: Setup, r: Resident, m: Moment)
    requires Good(setup, r) && m.Valid(setup) && r.enabled && Settled(r)
    requires FromPeer(setup, r, m).None? && WorkEffect(setup, r, m) != Greets && Worker(setup, r, m).session.active
    requires r.outgoing.pending ==> r.outgoing.opcode != CAPTURE_TEXT_SCREEN
    ensures InPlace(r) && InPlace(Worker(setup, r, m)) && AgentOf(Worker(setup, r, m)) == AgentOf(r)
  {
    hide Taken, Prepare, ProcessPacket, Shaped, Timed, Value, EffectOf, Encode, Slice, PartsOf, Settled;
    GoodParts(setup, r);
    WorkerTakes(setup, r, m);
    PrepareKeepsAgent(setup, r, m);
    var p := Prepare(r, m);
    match Taken(setup, r, m) {
      case Some((packet, from)) => GreetingSettles(setup, p, m, packet, from);
      case None =>
        if p.outgoing.pending {
          DueIsValid(setup, p, m);
          ShapedParts(setup, p);
        }
    }
    WorkSettles(setup, r, m);
  }

  // --- Whole stretches of it ---

  // The packet an event of the agent's life takes from the peer of its session.
  function PacketAt(h: Host, e: Event): Option<DmPacket>
    requires Up(h) && Possible(h, e)
  {
    hide Good, FromPeer;
    match e
    case Arrive(_) => None
    case Work(m) =>
      SeenIsGood(h, m);
      FromPeer(Seen(h.setup, m), h.resident, m)
  }

  // The session goes on: no handshake is served, the session does not end, and no text capture is
  // being sent, whose bytes would go through the buffer.
  ghost predicate GoesOn(h: Host, e: Event)
    requires Up(h) && Possible(h, e)
  {
    && Happens(h, e).resident.session.active
    && (h.resident.outgoing.pending ==> h.resident.outgoing.opcode != CAPTURE_TEXT_SCREEN)
    && (e.Work? ==> RunEffect(h, e.moment) != Greets)
  }

  // The agent of the link after an event: the packet taken is served, answered as the run answers it.
  ghost function Stepped(a: S.Agent, h: Host, e: Event): S.Agent
    requires Up(h) && Possible(h, e)
    requires PacketAt(h, e).Some? ==> Decoded(PacketAt(h, e).value) && InPlace(Happens(h, e).resident)
  {
    match PacketAt(h, e)
    case None => a
    case Some(packet) => S.HandleAgent(a, PacketOf(packet), AnswerOf(Happens(h, e).resident)).0
  }

  lemma EventRefines(h: Host, e: Event)
    requires Up(h) && Possible(h, e) && Settled(h.resident)
    ensures Settled(Happens(h, e).resident) && InPlace(h.resident) && InPlace(Happens(h, e).resident)
    ensures PacketAt(h, e).Some? ==> Decoded(PacketAt(h, e).value)
    ensures GoesOn(h, e) ==> AgentOf(Happens(h, e).resident) == Stepped(AgentOf(h.resident), h, e)
  {
    hide Worker, Good, FromPeer, WorkEffect, Prepare, Shows, PartsOf, S.HandleAgent, Value;
    ShapedInPlace(h.setup, h.resident) by { Unhidden(h); }
    if e.Work? {
      var m, setup := e.moment, Seen(h.setup, e.moment);
      SeenIsGood(h, m);
      WorkSettles(setup, h.resident, m);
      if PacketAt(h, e).Some? {
        FromPeerDecoded(setup, h.resident, m);
      }
      if GoesOn(h, e) {
        if PacketAt(h, e).Some? {
          WorkServes(setup, h.resident, m);
        } else {
          WorkRests(setup, h.resident, m);
        }
      }
    } else {
      ShapedInPlace(Happens(h, e).setup, Happens(h, e).resident) by { Unhidden(Happens(h, e)); }
    }
  }

  // The session lasts throughout.
  ghost predicate Lasts(h: Host, es: seq<Event>)
    requires Up(h) && Legal(h, es)
    decreases |es|
  {
    es == [] || (GoesOn(h, es[0]) && Lasts(Happens(h, es[0]), es[1..]))
  }

  // The agent of the link after the packets taken in a stretch of life.
  ghost function AgentAfter(a: S.Agent, h: Host, es: seq<Event>): S.Agent
    requires Up(h) && Legal(h, es) && Settled(h.resident)
    decreases |es|
  {
    if es == [] then a
    else
      EventRefines(h, es[0]);
      AgentAfter(Stepped(a, h, es[0]), Happens(h, es[0]), es[1..])
  }

  /**
   Over every stretch of the agent's life within one session, the packets it takes, in order, take
   the agent of the packet link from where this one stands to where it stands afterwards.
   */
  lemma {:induction false} LifeRefines(h: Host, es: seq<Event>)
    requires Up(h) && Legal(h, es) && Settled(h.resident) && Lasts(h, es)
    ensures Settled(ResidentRuns.Run(h, es).resident) && InPlace(h.resident) && InPlace(ResidentRuns.Run(h, es).resident)
    ensures AgentOf(ResidentRuns.Run(h, es).resident) == AgentAfter(AgentOf(h.resident), h, es)
    decreases |es|
  {
    hide Happens, Possible, Up, GoesOn, Stepped, AgentOf, PacketAt;
    if es == [] {
      ShapedInPlace(h.setup, h.resident) by { Unhidden(h); }
    } else {
      EventRefines(h, es[0]);
      LifeRefines(Happens(h, es[0]), es[1..]);
    }
  }

  /** What `Settled` says holds from the installation on. */
  lemma {:induction false} LifeSettles(setup: Setup, nobody: Peer, workspace: bytes, world: World, es: seq<Event>)
    requires setup.Valid() && |workspace| == REQUEST_BUFFER_SIZE && world.keyboard.Valid()
    requires Inv(setup.picture, world.t, world.disk)
    requires Up(Host(setup, Installed(nobody, workspace, world)))
    requires Legal(Host(setup, Installed(nobody, workspace, world)), es)
    ensures Settled(ResidentRuns.Run(Host(setup, Installed(nobody, workspace, world)), es).resident)
  {
    hide Up, Legal, ResidentRuns.Run;
    StaysSettled(Host(setup, Installed(nobody, workspace, world)), es);
  }

  lemma {:induction false} StaysSettled(h: Host, es: seq<Event>)
    requires Up(h) && Legal(h, es) && Settled(h.resident)
    ensures Settled(ResidentRuns.Run(h, es).resident)
    decreases |es|
  {
    hide Happens, Possible, Up, Settled;
    if es != [] {
      EventRefines(h, es[0]);
      StaysSettled(Happens(h, es[0]), es[1..]);
    }
  }

  // --- The reply of a step goes out ---

  // While a fragment is due, no packet is taken.
  lemma DueTakesNothing(setup: Setup, r: Resident, m: Moment)
    requires Good(setup, r) && m.Valid(setup) && Replying(r)
    requires Elapsed(r.ticks, r.session.activity) + (if m.dosIdle then 0 else 1) < SESSION_IDLE_TICKS
    ensures FromPeer(setup, r, m) == None && WorkEffect(setup, r, m) == Nothing
  {
    hide Prepare, Good, EffectOf;
    PrepareReplying(setup, r, m);
  }

  lemma {:induction false} EmissionKeepsAgent(h: Host, es: seq<Event>)
    requires Up(h) && Legal(h, es) && Settled(h.resident) && Answering(h.resident)
    requires Works(es) > 0 ==> h.resident.outgoing.pending
    requires h.resident.outgoing.next + Works(es) <= h.resident.outgoing.count
    requires Elapsed(h.resident.ticks, h.resident.session.activity) + TimerRuns(es) < SESSION_IDLE_TICKS
    ensures InPlace(h.resident) && InPlace(ResidentRuns.Run(h, es).resident)
    ensures AgentOf(ResidentRuns.Run(h, es).resident) == AgentOf(h.resident)
    decreases |es|
  {
    hide Good, Happens, Possible, Elapsed, Fragment, Encode, AgentOf, RunEffect, PacketAt, Settled, InPlace;
    if es == [] {
      ShapedInPlace(h.setup, h.resident) by { Unhidden(h); }
    } else {
      var e, h' := es[0], Happens(h, es[0]);
      StepSends(h, e);
      EventRefines(h, e);
      NothingTaken(h, e);
      EmissionKeepsAgent(h', es[1..]);
    }
  }

  lemma NothingTaken(h: Host, e: Event)
    requires Up(h) && Possible(h, e) && Answering(h.resident) && (e.Work? ==> h.resident.outgoing.pending)
    requires Elapsed(h.resident.ticks, h.resident.session.activity) + TimerRuns([e]) < SESSION_IDLE_TICKS
    ensures PacketAt(h, e) == None && (e.Work? ==> RunEffect(h, e.moment) == Nothing)
  {
    hide Good, Elapsed, FromPeer, WorkEffect;
    if e.Work? {
      SeenIsGood(h, e.moment);
      DueTakesNothing(Seen(h.setup, e.moment), h.resident, e.moment);
    }
  }

  lemma SessionRenews(setup: Setup, r: Resident, m: Moment, packet: DmPacket)
    requires Shaped(setup, r) && m.Valid(setup)
    ensures var r' := ProcessSession(setup, r, m, packet);
      r'.ticks == r.ticks && r'.session == r.session.(last := r'.session.last)
  {
    hide Value, Written, Inv, AllHere, ResidentWorker.FullBeforeLast, Respond, RequestIsNewer, AnswerBytes;
  }

  // A step that is not silent renews the session.
  lemma ServedRenews(setup: Setup, r: Resident, m: Moment, packet: DmPacket)
    requires Shaped(setup, r) && m.Valid(setup) && InPlace(r) && r.session.active && Decoded(packet)
    requires EffectOf(r, packet, r.session.peer) != Greets
    ensures var r' := ProcessPacket(setup, r, m, packet, r.session.peer);
      && r'.session.active && r'.ticks == r.ticks && r'.session.id == r.session.id
      && (r'.session.activity == r.ticks || forall a :: S.HandleAgent(AgentOf(r), PacketOf(packet), a).1.Silent?)
  {
    hide Value, ProcessSession, Inv, RequestIsNewer, PartsOf, S.Collect, S.HoldFor;
    KindNumberOf(Value(packet.kind));
    SessionRenews(setup, r.(session := r.session.(activity := r.ticks)), m, packet);
  }

  // What a run that takes a packet from the peer comes to.
  ghost predicate Served(setup: Setup, r: Resident, m: Moment, packet: Packet, r': Resident)
    requires InPlace(r) && InPlace(r')
  {
    hide Prepare;
    var (agent, outcome) := S.HandleAgent(AgentOf(r), packet, AnswerOf(r'));
    && agent == AgentOf(r') && Shows(setup, Prepare(r, m), m, packet.requestId, r', outcome)
    && r'.session.active && (outcome.Silent? || Elapsed(r'.ticks, r'.session.activity) == 0)
    && r'.sent == r.sent && r'.session.peer == r.session.peer && r'.session.key == r.session.key
    && r'.session.id == r.session.id && (outcome.Silent? ==> r'.outgoing == r.outgoing)
  }

  lemma WorkAnswers(setup: Setup, r: Resident, m: Moment)
    requires Good(setup, r) && m.Valid(setup) && r.enabled && Settled(r)
    requires FromPeer(setup, r, m).Some? && WorkEffect(setup, r, m) != Greets
    ensures Decoded(FromPeer(setup, r, m).value) && InPlace(r) && InPlace(Worker(setup, r, m))
    ensures Served(setup, r, m, PacketOf(FromPeer(setup, r, m).value), Worker(setup, r, m))
  {
    hide Prepare, Taken, ProcessPacket, Worker, Shaped, Timed, Value, EffectOf, PartsOf, AgentOf, AnswerOf, S.HandleAgent;
    hide Respond, Due, Gives;
    WorkServes(setup, r, m);
    GoodParts(setup, r);
    WorkerTakes(setup, r, m);
    PrepareKeepsAgent(setup, r, m);
    var (packet, from) := Taken(setup, r, m).value;
    ServedRenews(setup, Prepare(r, m), m, packet);
  }

  /**
   Every packet the agent takes from the peer of its session, unless a handshake is served, is
   answered as the agent of the packet link answers it: nothing is sent when that says nothing, and
   otherwise the next runs of the worker send exactly the fragments of its reply, whatever arrives
   meanwhile. Text captures are read from the screen as they go out.
   */
  lemma OutcomeGoesOut(h: Host, m: Moment, es: seq<Event>) returns (agent: S.Agent, outcome: S.Outcome)
    requires Up(h) && Possible(h, Work(m)) && Settled(h.resident)
    requires PacketAt(h, Work(m)).Some? && RunEffect(h, m) != Greets && Legal(Happens(h, Work(m)), es)
    requires var o := Happens(h, Work(m)).resident.outgoing;
      o.pending ==> o.opcode != CAPTURE_TEXT_SCREEN && Works(es) == o.count
    ensures InPlace(h.resident) && InPlace(Happens(h, Work(m)).resident) && Decoded(PacketAt(h, Work(m)).value)
    ensures var packet, r, r1 := PacketOf(PacketAt(h, Work(m)).value), h.resident, Happens(h, Work(m)).resident;
      && (agent, outcome) == S.HandleAgent(AgentOf(r), packet, AnswerOf(r1))
      && if outcome.Silent? then
           AgentOf(r1) == agent && r1.sent == r.sent && r1.outgoing == r.outgoing
         else
           var later, reply := ResidentRuns.Run(Happens(h, Work(m)), es).resident, outcome.reply;
           var whole := Fragment(RESPONSE_FRAGMENT_PAYLOAD, reply.kind, reply.opcode, r.session.id, packet.requestId,
                                 reply.payload);
           && |r.session.key| == 16 && (forall f :: f in whole ==> f.Valid())
           && InPlace(later) && AgentOf(later) == agent
           && later.sent == r.sent + Mail(r.session.peer, r.session.key, whole)
  {
    hide Good, Worker, FromPeer, WorkEffect, Prepare, PartsOf, S.HandleAgent, Value, Fragment, Legal;
    hide ResidentRuns.Run, Elapsed, Mail, Settled, Respond, Gives;
    var setup, h1 := Seen(h.setup, m), Happens(h, Work(m));
    SeenIsGood(h, m);
    WorkAnswers(setup, h.resident, m);
    EventRefines(h, Work(m));
    var packet, r1 := PacketOf(PacketAt(h, Work(m)).value), h1.resident;
    var (a, o) := S.HandleAgent(AgentOf(h.resident), packet, AnswerOf(r1));
    agent, outcome := a, o;
    if !o.Silent? {
      DueGoesOut(h1, es, packet.requestId, o.reply);
    }
  }

  lemma DueGoesOut(h: Host, es: seq<Event>, id: Word, reply: S.Reply)
    requires Up(h) && Settled(h.resident) && Due(h.resident, id, reply) && h.resident.session.active
    requires Legal(h, es) && Works(es) == h.resident.outgoing.count && reply.opcode != CAPTURE_TEXT_SCREEN
    requires Elapsed(h.resident.ticks, h.resident.session.activity) == 0
    ensures var r, later := h.resident, ResidentRuns.Run(h, es).resident;
      var whole := Fragment(RESPONSE_FRAGMENT_PAYLOAD, reply.kind, reply.opcode, r.session.id, id, reply.payload);
      && |r.session.key| == 16 && (forall f :: f in whole ==> f.Valid())
      && InPlace(r) && InPlace(later) && AgentOf(later) == AgentOf(r)
      && later.sent == r.sent + Mail(r.session.peer, r.session.key, whole)
  {
    hide Good, Fragment, Legal, ResidentRuns.Run, Elapsed, PartsOf, Mail, Settled;
    assert h.resident.outgoing.count > 0;
    ReplyIsSendable(h.setup, h.resident) by { Unhidden(h); }
    ReplyGoesOut(h, es);
    EmissionKeepsAgent(h, es);
    var whole := ReplyFragments(h.resident);
    assert whole[0..|whole|] == whole;
  }
}
