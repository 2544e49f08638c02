/**
 The handshake: what the bridge sends, what either target answers, and what the bridge makes of the
 answer. Both ends come out with the same session and the same key.
 */
module Handshake {
  import opened Bytes
  import opened Checksums
  import opened PacketCodec
  import opened PacketMac
  import opened Packets
  import opened ResidentReplies
  import opened ResidentWorker
  import opened Wrappers
  import SessionKeys
  import TransferSafety

  // --- The bridge ---

  // `HelloRequest` in the packet of `_handshake`.
  function HelloPacket(requestId: Word, client: bv32): (p: Packet)
    ensures p.Valid()
  {
    hide WordBytes;
    Packet(REQUEST, HELLO, 0, requestId, 0, 1, WordBytes(client))
  }

  datatype Agreement = Agreement(id: Word, key: bytes)

  // `HelloResponse.decode` and the checks behind it.
  function Agreed(baseKey: bytes, client: bv32, response: Packet): Option<Agreement>
    requires |baseKey| == 16
  {
    hide GetU16, Word32, SessionKeys.SessionKey;
    var p := response.payload;
    if |p| != 12 then None
    else
      var echoed, server, id, most := Word32(p[..4]), Word32(p[4..8]), GetU16(p[8..10]), GetU16(p[10..12]);
      if !(64 <= most <= MAX_FRAGMENT_PAYLOAD) || id == 0 then None
      else if echoed != client || id != response.sessionId then None
      else Some(Agreement(id, SessionKeys.SessionKey(baseKey, client, server)))
  }

  // --- An answer ---

  // The answer of either target: both nonces, the session and the longest fragment.
  function Answer(requestId: Word, id: Word, client: bytes, server: bytes): (p: Packet)
    requires |client| == 4 && |server| == 4
    ensures p.Valid()
  {
    hide PutU16;
    Packet(RESPONSE, HELLO, id, requestId, 0, 1, client + server + PutU16(id) + PutU16(MAX_FRAGMENT_PAYLOAD))
  }

  lemma AnswerIsAgreed(baseKey: bytes, requestId: Word, id: Word, client: bv32, server: bytes)
    requires |baseKey| == 16 && id != 0 && |server| == 4
    ensures Agreed(baseKey, client, Answer(requestId, id, WordBytes(client), server))
      == Some(Agreement(id, SessionKeys.SessionKey(baseKey, client, Word32(server))))
  {
    hide PutU16, GetU16, Word32, WordBytes, SessionKeys.SessionKey;
    var p := Answer(requestId, id, WordBytes(client), server).payload;
    assert p[..4] == WordBytes(client) && p[4..8] == server && p[8..10] == PutU16(id);
    assert p[10..12] == PutU16(MAX_FRAGMENT_PAYLOAD);
    SessionKeys.WordOfBytes(client);
    U16RoundTrip(id);
    U16RoundTrip(MAX_FRAGMENT_PAYLOAD);
  }

  // --- The agent ---

  lemma IdNotZero(client: bytes, nonce: bytes)
    requires |client| == 4 && |nonce| == 4
    ensures SessionId(client, nonce) != 0
  {
  }

  // The hello the agent finds in its slot.
  lemma HelloIsRead(baseKey: bytes, client: bv32, requestId: Word)
    requires |baseKey| == 16
    ensures var d := EvenSized(Encode(HelloPacket(requestId, client), baseKey));
      && DmDecode(d, baseKey).Ok? && SameFields(DmDecode(d, baseKey).value, HelloPacket(requestId, client))
      && OpcodeByte(d) == Some(HELLO)
  {
    hide Encode, DmDecode, Decode;
    var p := HelloPacket(requestId, client);
    var words := TransportIsTransparent(p, baseKey);
    FirstBytes(p, baseKey);
  }

  lemma FirstBytes(p: Packet, key: bytes)
    requires p.Valid() && |key| == 16
    ensures OpcodeByte(EvenSized(Encode(p, key))) == Some(p.opcode)
  {
    hide Low, PutU16, Crc16, Tag, CrcBytes, Value;
    ValueLow(p.opcode);
    assert Encode(p, key)[..14] == PrefixOf(p);
  }

  // What stays when a hello is served: everything but the session and the record of the last reply.
  predicate OnlySession(r: Resident, next: Resident) {
    next == r.(session := next.session, outgoing := r.outgoing.(count := 0))
  }

  /**
   The agent takes the bridge's hello whatever session it has: the answer waits to be sent to where
   the hello came from, and what the bridge makes of it is the agent's own session.
   */
  lemma AgentAgrees(setup: Setup, r: Resident, m: Moment, client: bv32, requestId: Word, from: Peer)
    requires Shaped(setup, r) && m.Valid(setup)
    ensures var frame := Frame(EvenSized(Encode(HelloPacket(requestId, client), setup.baseKey)), from);
      var next := Process(setup, r, m, frame);
      var answer := Answer(requestId, next.session.id, WordBytes(client), m.nonce);
      && OnlySession(r, next) && next.session.active && next.session.peer == from
      && next.session.last == None && next.session.activity == r.ticks
      && next.session.hello == Some(Encode(answer, setup.baseKey))
      && Agreed(setup.baseKey, client, answer) == Some(Agreement(next.session.id, next.session.key))
  {
    hide Encode, DmDecode, EvenSized, WordBytes, Word32, Agreed, SessionId, SessionKeys.SessionKey, Shaped, Low, Value;
    hide Answer;
    ShapedParts(setup, r);
    var hello := HelloPacket(requestId, client);
    var frame := Frame(EvenSized(Encode(hello, setup.baseKey)), from);
    HelloIsRead(setup.baseKey, client, requestId);
    var packet := DmDecode(frame.payload, setup.baseKey).value;
    ValueLow(KindNumber(REQUEST));
    ValueLow(HELLO);
    ValueLow(1);
    var next := Process(setup, r, m, frame);
    assert next == ProcessHello(setup, r, m, packet, from);
    ServesHello(setup, r, m, packet, from, client, requestId);
  }

  lemma ServesHello(setup: Setup, r: Resident, m: Moment, packet: DmPacket, from: Peer, client: bv32, requestId: Word)
    requires setup.Valid() && m.Valid(setup)
    requires packet.payload == WordBytes(client) && Value(packet.fragmentCount) == 1 && packet.requestId == requestId
    ensures var next := ProcessHello(setup, r, m, packet, from);
      var answer := Answer(requestId, next.session.id, WordBytes(client), m.nonce);
      && OnlySession(r, next) && next.session.active && next.session.peer == from
      && next.session.last == None && next.session.activity == r.ticks
      && next.session.hello == Some(Encode(answer, setup.baseKey))
      && Agreed(setup.baseKey, client, answer) == Some(Agreement(next.session.id, next.session.key))
  {
    hide Encode, WordBytes, Word32, Agreed, SessionId, SessionKeys.SessionKey, Value, PutU16;
    var id := SessionId(packet.payload, m.nonce);
    IdNotZero(packet.payload, m.nonce);
    SessionKeys.WordOfBytes(client);
    AnswerIsAgreed(setup.baseKey, requestId, id, client, m.nonce);
  }

  lemma HelloNeedsNoDos(r: Resident, baseKey: bytes, client: bv32, requestId: Word, from: Peer)
    requires |baseKey| == 16
    ensures !DosOperation(r, Frame(EvenSized(Encode(HelloPacket(requestId, client), baseKey)), from))
  {
    hide Encode, OpcodeByte;
    FirstBytes(HelloPacket(requestId, client), baseKey);
  }

  // A run that finds nothing due, and the hello in the slot.
  ghost predicate FindsHello(setup: Setup, r: Resident, m: Moment, client: bv32, requestId: Word, from: Peer)
    requires setup.Valid()
  {
    && r.enabled && !Prepare(r, m).outgoing.pending && Prepare(r, m).session.hello.None?
    && r.slot == Some(Frame(EvenSized(Encode(HelloPacket(requestId, client), setup.baseKey)), from))
  }

  lemma TakesHello(setup: Setup, r: Resident, m: Moment, client: bv32, requestId: Word, from: Peer)
    requires Shaped(setup, r) && m.Valid(setup) && FindsHello(setup, r, m, client, requestId, from)
    ensures Shaped(setup, Prepare(r, m))
    ensures Worker(setup, r, m) == Process(setup, Prepare(r, m), m, r.slot.value).(slot := None)
    ensures Prepare(r, m).enabled && !Prepare(r, m).outgoing.pending
  {
    hide Encode, EvenSized, Process, Authentic, DosOperation, Emit, DuePacket, HelloPacket, Shaped, Prepare;
    PrepareShaped(setup, r, m);
    ShapedParts(setup, r);
    HelloNeedsNoDos(Prepare(r, m), setup.baseKey, client, requestId, from);
  }

  // A waiting answer is the first thing a run sends, while its session is new.
  lemma SendsHello(setup: Setup, r: Resident, m: Moment)
    requires Shaped(setup, r) && m.Valid(setup) && r.enabled && !r.outgoing.pending && r.session.hello.Some?
    requires r.session.active && r.session.activity == r.ticks
    ensures Worker(setup, r, m).sent == r.sent + [Datagram(r.session.peer, r.session.hello.value)]
  {
    hide Shaped, Prepare, Receive, Emit, DuePacket;
    NothingExpires(r, m);
  }

  lemma NothingExpires(r: Resident, m: Moment)
    requires r.session.active && r.session.activity == r.ticks
    ensures var p := Prepare(r, m); p.session == r.session && p.sent == r.sent && p.outgoing == r.outgoing
  {
  }

  lemma HelloServed(setup: Setup, r: Resident, m: Moment, client: bv32, requestId: Word, from: Peer)
    requires Shaped(setup, r) && m.Valid(setup) && FindsHello(setup, r, m, client, requestId, from)
    ensures var next := Worker(setup, r, m);
      var answer := Answer(requestId, next.session.id, WordBytes(client), m.nonce);
      && next.enabled && next.slot == None && !next.outgoing.pending && next.session.active && next.session.peer == from
      && next.session.activity == next.ticks && next.session.hello == Some(Encode(answer, setup.baseKey))
      && Agreed(setup.baseKey, client, answer) == Some(Agreement(next.session.id, next.session.key))
  {
    hide Encode, Agreed, Process, FindsHello, Worker, Shaped, Prepare, WordBytes, EvenSized, HelloPacket, Answer;
    ShapedParts(setup, r);
    SlotHeld(setup, r, m, client, requestId, from);
    TakesHello(setup, r, m, client, requestId, from);
    AgentAgrees(setup, Prepare(r, m), m, client, requestId, from);
  }

  /**
   A run that finds the hello agrees on a session, and the very next run sends the answer, whatever
   interrupt either comes from and whatever arrived meanwhile.
   */
  lemma AnswerIsSent(setup: Setup, r: Resident, m: Moment, client: bv32, requestId: Word, from: Peer,
                     slot: Option<Frame>, later: Moment) returns (answer: Packet)
    requires Shaped(setup, r) && m.Valid(setup) && later.Valid(setup) && FindsHello(setup, r, m, client, requestId, from)
    ensures var next := Worker(setup, r, m);
      && Agreed(setup.baseKey, client, answer) == Some(Agreement(next.session.id, next.session.key))
      && next.session.active && next.session.peer == from && next.slot == None
      && answer.Valid() && answer.requestId == requestId && answer.opcode == HELLO && answer.kind == RESPONSE
      && Shaped(setup, next.(slot := slot))
      && Worker(setup, next.(slot := slot), later).sent == next.sent + [Datagram(from, Encode(answer, setup.baseKey))]
  {
    hide Encode, Agreed, FindsHello, Worker, Shaped, WordBytes;
    HelloServed(setup, r, m, client, requestId, from);
    WorkerShaped(setup, r, m);
    var next := Worker(setup, r, m);
    answer := Answer(requestId, next.session.id, WordBytes(client), m.nonce);
    SlotShaped(setup, next, slot);
    SendsHello(setup, next.(slot := slot), later);
  }

  lemma SlotHeld(setup: Setup, r: Resident, m: Moment, client: bv32, requestId: Word, from: Peer)
    requires setup.Valid() && FindsHello(setup, r, m, client, requestId, from)
    ensures r.slot == Some(Frame(EvenSized(Encode(HelloPacket(requestId, client), setup.baseKey)), from))
  {
  }

  lemma SlotShaped(setup: Setup, r: Resident, slot: Option<Frame>)
    requires Shaped(setup, r)
    ensures Shaped(setup, r.(slot := slot))
  {
    hide TransferSafety.Inv;
  }

  // --- The simulator ---

  // `_handle_hello`: the answer it sends, and its session; nothing for any other datagram.
  function SimulatorAnswer(key: bytes, datagram: bytes, nonce: bv32): Option<(Packet, Agreement)>
    requires |key| == 16
  {
    hide Decode, SessionId, DerivedKey, WordBytes;
    match Decode(datagram, key)
    case Err(_) => None
    case Ok(p) =>
      if p.kind != REQUEST || p.opcode != HELLO || p.sessionId != 0 || |p.payload| != 4 then None
      else
        var server := WordBytes(nonce);
        var id := SessionId(p.payload, server);
        Some((Answer(p.requestId, id, p.payload, server), Agreement(id, DerivedKey(key, p.payload, server))))
  }

  /** The simulator takes the bridge's hello as well, and both agree. */
  lemma SimulatorAgrees(key: bytes, client: bv32, requestId: Word, nonce: bv32)
    requires |key| == 16
    ensures var answered := SimulatorAnswer(key, EvenSized(Encode(HelloPacket(requestId, client), key)), nonce);
      answered.Some? && Agreed(key, client, answered.value.0) == Some(answered.value.1)
  {
    hide Encode, EvenSized, Decode, WordBytes, Word32, Agreed, SessionId, SessionKeys.SessionKey, Answer;
    var words := TransportIsTransparent(HelloPacket(requestId, client), key);
    var id := SessionId(WordBytes(client), WordBytes(nonce));
    IdNotZero(WordBytes(client), WordBytes(nonce));
    SessionKeys.WordOfBytes(client);
    AnswerIsAgreed(key, requestId, id, client, WordBytes(nonce));
  }
}
