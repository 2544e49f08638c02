/**
 One run of the resident worker (`ratsr_idle_worker`) from a timer tick or from DOS's idle
 interrupt: expiry, the next fragment of a reply, or the datagram waiting in the one receive slot.
 */
module ResidentWorker {
  import opened AgentTransfers
  import opened Buffers
  import opened Bytes
  import opened DosFiles
  import opened DosPaths
  import opened PacketCodec
  import opened Packets
  import opened RequestIds
  import opened ResidentReplies
  import opened TransferSafety
  import opened Wrappers
  import SessionKeys

  const SESSION_IDLE_TICKS := 546
  const DISCOVERY_INTERVAL_TICKS := 91

  datatype Peer = Peer(mac: bytes, ip: bytes, port: Word)

  // A datagram in the receive slot, and one sent.
  datatype Frame = Frame(payload: bytes, from: Peer)

  datatype Sending = Datagram(to: Peer, payload: bytes) | Announcement

  datatype Session = Session(
    active: bool,
    id: Word,
    peer: Peer,
    key: bytes,
    last: Option<Word>,
    activity: Word,
    hello: Option<bytes>)

  // The reply being sent: how many fragments, which is next, and whether any is due.
  datatype Outgoing = Outgoing(
    kind: Kind,
    opcode: Opcode,
    id: Word,
    length: nat,
    count: nat,
    next: nat,
    pending: bool)

  // The request being received: which fragments have come, and how long they are.
  datatype Receiving = Receiving(id: Word, opcode: int, count: nat, lengths: map<nat, nat>)

  datatype Resident = Resident(
    enabled: bool,
    ticks: Word,
    discoveryTick: Word,
    session: Session,
    outgoing: Outgoing,
    receiving: Receiving,
    workspace: bytes,
    world: World,
    slot: Option<Frame>,
    sent: seq<Sending>)

  // What does not change while the agent is resident.
  datatype Setup = Setup(config: Config, baseKey: bytes, picture: Option<Picture>)
  {
    predicate Valid() {
      |baseKey| == 16 && (picture.Some? ==> |picture.value.description| == 16 && |picture.value.data| <= TSR_FILE_MAX)
    }
  }

  // What a run of the worker meets: the interrupt it comes from, the critical-error flag, the
  // hardware, the text screen, and the nonce of a new session.
  datatype Moment = Moment(
    dosIdle: bool,
    critical: bool,
    machine: Machine,
    screen: nat -> byte,
    nonce: bytes)
  {
    // Whether DOS may be entered.
    predicate Inside() {
      dosIdle && !critical
    }

    predicate Valid(setup: Setup) {
      machine.Valid() && machine.picture == setup.picture && |nonce| == 4
    }
  }

  // The shape the variables always have.
  ghost predicate Shaped(setup: Setup, r: Resident) {
    && setup.Valid() && |r.workspace| == REQUEST_BUFFER_SIZE && |r.session.key| == 16
    && Inv(setup.picture, r.world.t, r.world.disk) && r.world.keyboard.Valid()
    && r.outgoing.length <= SCREEN_BUFFER_SIZE
    && (r.outgoing.count == 0 || r.outgoing.count == FragmentCount(RESPONSE_FRAGMENT_PAYLOAD, r.outgoing.length))
    && (r.outgoing.pending ==> r.outgoing.next < r.outgoing.count && r.session.active)
    && (forall i :: i in r.receiving.lengths ==>
          i < r.receiving.count && i * MAX_FRAGMENT_PAYLOAD + r.receiving.lengths[i] <= REQUEST_BUFFER_SIZE)
    && r.receiving.count <= MAX_FRAGMENTS
  }

  // The variables as an installation leaves them.
  function Installed(nobody: Peer, workspace: bytes, world: World): Resident {
    Resident(true, 0, 0x1_0000 - DISCOVERY_INTERVAL_TICKS, Session(false, 0, nobody, seq(16, i => 0), None, 0, None),
             Outgoing(RESPONSE, HELLO, 0, 0, 0, 0, false), Receiving(0, 0, 0, map[]), workspace, world, None, [])
  }

  function Elapsed(ticks: Word, since: Word): Word {
    (ticks - since) % 0x1_0000
  }

  // --- The phases of a run, in their order ---

  function Tick(r: Resident, m: Moment): Resident {
    r.(ticks := if m.dosIdle then r.ticks else (r.ticks + 1) % 0x1_0000,
       world := r.world.(disk := r.world.disk.(inside := m.Inside())))
  }

  function Expire(r: Resident): Resident {
    if r.session.active && Elapsed(r.ticks, r.session.activity) >= SESSION_IDLE_TICKS then
      r.(session := r.session.(active := false, last := None), outgoing := r.outgoing.(pending := false))
    else r
  }

  function DropTransfer(r: Resident, m: Moment): Resident {
    if !r.session.active && r.world.t.kind != NoTransfer && m.Inside() then
      var s := GiveUp(r.world.t, r.world.disk);
      r.(world := r.world.(t := s.t, disk := s.disk))
    else r
  }

  function Announce(r: Resident): Resident {
    if !r.session.active && Elapsed(r.ticks, r.discoveryTick) >= DISCOVERY_INTERVAL_TICKS then
      r.(discoveryTick := r.ticks, sent := r.sent + [Announcement])
    else r
  }

  // Everything before the worker turns to what is due or waiting.
  function Prepare(r: Resident, m: Moment): Resident {
    Announce(DropTransfer(Expire(Tick(r, m)), m))
  }

  // The bytes of the fragment that is due: of the reply in the buffer, or of the screen as it is now.
  function FragmentPayload(r: Resident, m: Moment): bytes
    requires r.outgoing.length <= |r.workspace|
  {
    if r.outgoing.opcode == CAPTURE_TEXT_SCREEN then
      Slice(RESPONSE_FRAGMENT_PAYLOAD, seq(r.outgoing.length, i requires 0 <= i => m.screen(i)), r.outgoing.next)
    else
      Slice(RESPONSE_FRAGMENT_PAYLOAD, r.workspace[..r.outgoing.length], r.outgoing.next)
  }

  // The packet of the fragment that is due.
  function DuePacket(r: Resident, m: Moment): Packet
    requires r.outgoing.length <= |r.workspace|
  {
    var o := r.outgoing;
    Packet(o.kind, o.opcode, r.session.id, o.id, o.next, o.count, FragmentPayload(r, m))
  }

  // The screen's bytes go through the front of the buffer.
  function Filled(r: Resident, m: Moment): bytes
    requires r.outgoing.length <= |r.workspace|
  {
    hide Slice;
    if r.outgoing.opcode == CAPTURE_TEXT_SCREEN && |FragmentPayload(r, m)| <= |r.workspace| then
      Written(r.workspace, 0, FragmentPayload(r, m))
    else r.workspace
  }

  function Emit(r: Resident, m: Moment): Resident
    requires r.outgoing.length <= |r.workspace| && DuePacket(r, m).Valid() && |r.session.key| == 16
  {
    hide Encode, FragmentPayload;
    var o := r.outgoing;
    r.(sent := r.sent + [Datagram(r.session.peer, Encode(DuePacket(r, m), r.session.key))],
       workspace := Filled(r, m),
       outgoing := o.(next := o.next + 1, pending := o.next + 1 < o.count))
  }

  function SendHello(r: Resident): Resident {
    if r.session.hello.None? then r
    else r.(sent := r.sent + [Datagram(r.session.peer, r.session.hello.value)], session := r.session.(hello := None))
  }

  // --- The waiting datagram ---

  function OpcodeByte(p: bytes): Option<nat> {
    hide Value;
    if |p| >= HEADER_SIZE then Some(Value(p[4])) else None
  }

  // An opcode that may lead to a DOS call, by the byte in the packet.
  predicate DosOperation(r: Resident, frame: Frame) {
    match OpcodeByte(frame.payload)
    case None => false
    case Some(opcode) =>
      FILE_READ_BEGIN <= opcode <= FILE_ABORT && !(opcode == FILE_ABORT && r.world.t.kind == ReadScreen)
  }

  // The key a datagram must be sealed under: none when it needs a session there is not.
  function KeyFor(setup: Setup, r: Resident, p: bytes): Option<bytes> {
    match OpcodeByte(p)
    case None => Some(setup.baseKey)
    case Some(opcode) =>
      if opcode == HELLO then Some(setup.baseKey)
      else if r.session.active then Some(r.session.key) else None
  }

  // `validate_deferred_datagram`
  predicate Authentic(setup: Setup, r: Resident, p: bytes)
    requires setup.Valid() && |r.session.key| == 16
  {
    hide DmDecode;
    var key := KeyFor(setup, r, p);
    key.Some? && DmDecode(p, key.value).Ok?
  }

  // The worker's last phase: a file request waits in the slot for an idle DOS, if it is authentic.
  function Receive(setup: Setup, r: Resident, m: Moment): Resident
    requires Shaped(setup, r) && m.Valid(setup)
  {
    hide Authentic, Process;
    match r.slot
    case None => r
    case Some(frame) =>
      if DosOperation(r, frame) && !m.Inside() then
        if Authentic(setup, r, frame.payload) then r else r.(slot := None)
      else
        Process(setup, r, m, frame).(slot := None)
  }

  // `process_datagram`
  function Process(setup: Setup, r: Resident, m: Moment, frame: Frame): Resident
    requires Shaped(setup, r) && m.Valid(setup)
  {
    hide DmDecode, ProcessPacket;
    match KeyFor(setup, r, frame.payload)
    case None => r
    case Some(key) =>
      match DmDecode(frame.payload, key)
      case Err(_) => r
      case Ok(packet) => ProcessPacket(setup, r, m, packet, frame.from)
  }

  function ProcessPacket(setup: Setup, r: Resident, m: Moment, packet: DmPacket, from: Peer): Resident
    requires Shaped(setup, r) && m.Valid(setup)
  {
    hide Value, ProcessHello, ProcessSession;
    if Value(packet.kind) != KindNumber(REQUEST) then r
    else if Value(packet.opcode) == HELLO && packet.sessionId == 0 then ProcessHello(setup, r, m, packet, from)
    else if !r.session.active || packet.sessionId != r.session.id || from != r.session.peer then r
    else ProcessSession(setup, r.(session := r.session.(activity := r.ticks)), m, packet)
  }

  function SessionId(client: bytes, nonce: bytes): Word
    requires |client| == 4 && |nonce| == 4
  {
    hide GetU16;
    var id := GetU16([PacketMac.XorByte(client[0], nonce[0]), PacketMac.XorByte(client[1], nonce[1])]);
    if id == 0 then 1 else id
  }

  // The key of a session, from the nonces as they travel.
  function DerivedKey(baseKey: bytes, client: bytes, nonce: bytes): (r: bytes)
    requires |baseKey| == 16 && |client| == 4 && |nonce| == 4
    ensures |r| == 16
  {
    hide PacketMac.Word32, SessionKeys.SessionKey;
    SessionKeys.SessionKey(baseKey, PacketMac.Word32(client), PacketMac.Word32(nonce))
  }

  // `process_hello`: a new session, whose answer waits for a later run.
  function ProcessHello(setup: Setup, r: Resident, m: Moment, packet: DmPacket, from: Peer): Resident
    requires setup.Valid() && m.Valid(setup)
  {
    hide PutU16, Value, SessionId, Encode, DerivedKey;
    if |packet.payload| != 4 || Value(packet.fragmentCount) != 1 then r
    else
      var id := SessionId(packet.payload, m.nonce);
      var answer := packet.payload + m.nonce + PutU16(id) + PutU16(MAX_FRAGMENT_PAYLOAD);
      var reply := Packet(RESPONSE, HELLO, id, packet.requestId, 0, 1, answer);
      var key := DerivedKey(setup.baseKey, packet.payload, m.nonce);
      r.(session := Session(true, id, from, key, None, r.ticks, Some(Encode(reply, setup.baseKey))),
         outgoing := r.outgoing.(count := 0))
  }

  // An authentic request of the session: repeated, refused, or collected.
  function ProcessSession(setup: Setup, r: Resident, m: Moment, packet: DmPacket): Resident
    requires Shaped(setup, r) && m.Valid(setup)
  {
    hide Value, Collect, RequestIsNewer, Deliver;
    var last := r.session.last;
    if last == Some(packet.requestId) then
      r.(outgoing := r.outgoing.(next := 0, pending := r.outgoing.count != 0))
    else if last.Some? && !RequestIsNewer(packet.requestId, last.value) then
      var opcode := Value(packet.opcode);
      if !(1 <= opcode <= 18) then r
      else Deliver(r, r.world, opcode, packet.requestId, Error(4, "replayed request"))
    else
      Collect(setup, r, m, packet)
  }

  // `send_response`: the reply over the front of the buffer, and its first fragment due.
  function Deliver(r: Resident, world: World, opcode: Opcode, requestId: Word, answer: Answer): Resident {
    hide AnswerBytes;
    var kind := if answer.Error? then ERROR else RESPONSE;
    var count := FragmentCount(RESPONSE_FRAGMENT_PAYLOAD, PayloadSize(answer));
    if count > MAX_RESPONSE_FRAGMENTS then r.(world := world)
    else
      r.(world := world,
         workspace := WithReply(r.workspace, Some(AnswerBytes(answer))),
         outgoing := Outgoing(kind, opcode, requestId, PayloadSize(answer), count, 0, true),
         session := r.session.(last := Some(requestId)))
  }

  // A packet with a new identifier starts the request afresh.
  function Restarted(q: Receiving, requestId: Word, opcode: int, count: nat): Receiving {
    if requestId != q.id then Receiving(requestId, opcode, count, map[]) else q
  }

  predicate AllHere(q: Receiving) {
    forall i | 0 <= i < q.count :: i in q.lengths
  }

  predicate FullBeforeLast(q: Receiving)
    requires AllHere(q)
  {
    forall i | 0 <= i < q.count :: i + 1 < q.count ==> q.lengths[i] == MAX_FRAGMENT_PAYLOAD
  }

  // Lines 722 to 752 of `process_datagram`.
  function Collect(setup: Setup, r: Resident, m: Moment, packet: DmPacket): Resident
    requires Shaped(setup, r) && m.Valid(setup)
  {
    hide Value, Dispatch, Written;
    var opcode, count, index := Value(packet.opcode), Value(packet.fragmentCount), Value(packet.fragmentIndex);
    var q := Restarted(r.receiving, packet.requestId, opcode, count);
    var at := index * MAX_FRAGMENT_PAYLOAD;
    if count != q.count || opcode != q.opcode || at + |packet.payload| > REQUEST_BUFFER_SIZE then
      r.(receiving := q)
    else
      var q' := q.(lengths := q.lengths[index := |packet.payload|]);
      var stored := r.(receiving := q', workspace := Written(r.workspace, at, packet.payload));
      if !AllHere(q') || !FullBeforeLast(q') || q'.count == 0 then stored
      else Dispatch(setup, stored, m)
  }

  // The length of the whole request in the buffer.
  function RequestLength(q: Receiving): nat
    requires q.count > 0 && AllHere(q)
  {
    (q.count - 1) * MAX_FRAGMENT_PAYLOAD + q.lengths[q.count - 1]
  }

  // `process_request` on the request in the buffer.
  function Dispatch(setup: Setup, r: Resident, m: Moment): Resident
    requires Inv(setup.picture, r.world.t, r.world.disk) && r.world.keyboard.Valid() && m.Valid(setup)
    requires r.receiving.count > 0 && AllHere(r.receiving)
  {
    hide Respond, Deliver, Inv;
    InvParts(setup.picture, r.world.t, r.world.disk);
    var length := RequestLength(r.receiving);
    if length > |r.workspace| || !(1 <= r.receiving.opcode <= 18) then r
    else
      var (world, answer) := Respond(setup.config, m.machine, r.world, r.receiving.opcode, r.workspace[..length]);
      Deliver(r, world, r.receiving.opcode, r.receiving.id, answer)
  }

  // --- The shape is kept ---

  lemma PrepareShaped(setup: Setup, r: Resident, m: Moment)
    requires Shaped(setup, r)
    ensures Shaped(setup, Prepare(r, m))
    ensures var p := Prepare(r, m);
      p.slot == r.slot && p.workspace == r.workspace && p.receiving == r.receiving && p.enabled == r.enabled
  {
    hide GiveUp, Inv;
    InsideKeepsInv(setup.picture, r.world.t, r.world.disk, m.Inside());
    var e := Expire(Tick(r, m));
    if e.world.t.kind != NoTransfer {
      GiveUpKeeps(setup.picture, e.world.t, e.world.disk);
    }
  }

  lemma InsideKeepsInv(picture: Option<Picture>, t: Transfer, d: Disk, inside: bool)
    requires Inv(picture, t, d)
    ensures Inv(picture, t, d.(inside := inside))
  {
    hide Checksums.Crc32;
  }

  lemma DueIsValid(setup: Setup, r: Resident, m: Moment)
    requires Shaped(setup, r) && r.outgoing.pending
    ensures DuePacket(r, m).Valid()
  {
    var o := r.outgoing;
    assert FragmentCount(RESPONSE_FRAGMENT_PAYLOAD, o.length) <= MAX_RESPONSE_FRAGMENTS;
  }

  /** One run of the worker. */
  function Worker(setup: Setup, r: Resident, m: Moment): Resident
    requires Shaped(setup, r) && m.Valid(setup)
  {
    hide Shaped, Prepare, Emit, DuePacket, Receive;
    if !r.enabled then r
    else
      PrepareShaped(setup, r, m);
      var p := Prepare(r, m);
      if p.outgoing.pending then
        DueIsValid(setup, p, m);
        ShapedParts(setup, p);
        Emit(p, m)
      else if p.session.hello.Some? then SendHello(p)
      else Receive(setup, p, m)
  }

  lemma ShapedParts(setup: Setup, r: Resident)
    requires Shaped(setup, r)
    ensures setup.Valid() && |r.workspace| == REQUEST_BUFFER_SIZE && |r.session.key| == 16
    ensures r.outgoing.length <= |r.workspace|
  {
  }

  lemma EmitShaped(setup: Setup, r: Resident, m: Moment)
    requires Shaped(setup, r) && r.outgoing.pending && DuePacket(r, m).Valid()
    ensures Shaped(setup, Emit(r, m)) && Emit(r, m).slot == r.slot
  {
    hide Encode, Inv, FragmentPayload;
  }

  lemma RespondKeeps(setup: Setup, m: Moment, w: World, opcode: Opcode, p: bytes)
    requires setup.Valid() && m.Valid(setup) && Inv(setup.picture, w.t, w.disk) && w.keyboard.Valid()
    ensures Sized(w.t) && Still(w.t, m.machine.picture)
    ensures var w' := Respond(setup.config, m.machine, w, opcode, p).0;
      Inv(setup.picture, w'.t, w'.disk) && w'.keyboard.Valid()
  {
    hide Inv, Perform, KeyReply, BiosKeys.KeysWellFormed;
    InvParts(setup.picture, w.t, w.disk);
    match OperationOf(opcode, m.machine.drawn)
    case Some((op, _, _)) => PerformKeeps(setup.config, setup.picture, w.t, w.disk, op, p);
    case None =>
  }

  lemma DeliverShaped(setup: Setup, r: Resident, world: World, opcode: Opcode, requestId: Word, answer: Answer)
    requires Shaped(setup, r) && r.session.active
    requires Inv(setup.picture, world.t, world.disk) && world.keyboard.Valid() && PayloadSize(answer) <= SCREEN_BUFFER_SIZE
    ensures var r' := Deliver(r, world, opcode, requestId, answer); Shaped(setup, r') && r'.slot == r.slot
  {
    hide PutU16, Ascii, Inv;
  }

  lemma DispatchShaped(setup: Setup, r: Resident, m: Moment)
    requires Shaped(setup, r) && r.session.active && m.Valid(setup)
    requires r.receiving.count > 0 && AllHere(r.receiving)
    ensures var r' := Dispatch(setup, r, m); Shaped(setup, r') && r'.slot == r.slot
  {
    hide Respond, Deliver, Inv;
    InvParts(setup.picture, r.world.t, r.world.disk);
    var length := RequestLength(r.receiving);
    if length <= |r.workspace| && 1 <= r.receiving.opcode <= 18 {
      var p := r.workspace[..length];
      RespondKeeps(setup, m, r.world, r.receiving.opcode, p);
      RepliesFit(setup.config, m.machine, r.world, r.receiving.opcode, p);
      var (world, answer) := Respond(setup.config, m.machine, r.world, r.receiving.opcode, p);
      DeliverShaped(setup, r, world, r.receiving.opcode, r.receiving.id, answer);
    }
  }

  // What a decoded packet satisfies.
  ghost predicate Decoded(packet: DmPacket) {
    && 1 <= Value(packet.kind) <= 3 && 1 <= Value(packet.opcode) <= 18 && |packet.payload| <= MAX_FRAGMENT_PAYLOAD
    && 1 <= Value(packet.fragmentCount) <= MAX_FRAGMENTS
    && Value(packet.fragmentIndex) < Value(packet.fragmentCount)
  }

  lemma DecodedValid(p: bytes, key: bytes)
    requires |key| == 16 && DmDecode(p, key).Ok?
    ensures Decoded(DmDecode(p, key).value)
  {
    hide GetU16, Value, CrcMatches, TagMatches;
  }

  lemma CollectShaped(setup: Setup, r: Resident, m: Moment, packet: DmPacket)
    requires Shaped(setup, r) && r.session.active && m.Valid(setup) && Decoded(packet)
    ensures var r' := Collect(setup, r, m, packet); Shaped(setup, r') && r'.slot == r.slot
  {
    hide Value, Dispatch, Inv;
    var opcode, count, index := Value(packet.opcode), Value(packet.fragmentCount), Value(packet.fragmentIndex);
    var q := Restarted(r.receiving, packet.requestId, opcode, count);
    var at := index * MAX_FRAGMENT_PAYLOAD;
    if !(count != q.count || opcode != q.opcode || at + |packet.payload| > REQUEST_BUFFER_SIZE) {
      var q' := q.(lengths := q.lengths[index := |packet.payload|]);
      var stored := r.(receiving := q', workspace := Written(r.workspace, at, packet.payload));
      assert Shaped(setup, stored);
      if AllHere(q') && FullBeforeLast(q') {
        DispatchShaped(setup, stored, m);
      }
    }
  }

  lemma SessionShaped(setup: Setup, r: Resident, m: Moment, packet: DmPacket)
    requires Shaped(setup, r) && r.session.active && m.Valid(setup) && Decoded(packet)
    ensures var r' := ProcessSession(setup, r, m, packet); Shaped(setup, r') && r'.slot == r.slot
  {
    hide Value, Collect, RequestIsNewer, Deliver, Inv;
    CollectShaped(setup, r, m, packet);
    DeliverShaped(setup, r, r.world, Value(packet.opcode), packet.requestId, Error(4, "replayed request"));
  }

  lemma HelloShaped(setup: Setup, r: Resident, m: Moment, packet: DmPacket, from: Peer)
    requires Shaped(setup, r) && m.Valid(setup) && !r.outgoing.pending
    ensures var r' := ProcessHello(setup, r, m, packet, from); Shaped(setup, r') && r'.slot == r.slot
  {
    hide PutU16, Value, SessionId, Encode, Inv, DerivedKey;
  }

  lemma ProcessShaped(setup: Setup, r: Resident, m: Moment, frame: Frame)
    requires Shaped(setup, r) && m.Valid(setup) && !r.outgoing.pending
    ensures var r' := Process(setup, r, m, frame); Shaped(setup, r') && r'.slot == r.slot
  {
    hide DmDecode, ProcessHello, ProcessSession, Value, Inv;
    var key := KeyFor(setup, r, frame.payload);
    if key.Some? {
      ShapedParts(setup, r);
      match DmDecode(frame.payload, key.value)
      case Ok(packet) =>
        DecodedValid(frame.payload, key.value);
        HelloShaped(setup, r, m, packet, frame.from);
        if r.session.active {
          SessionShaped(setup, r.(session := r.session.(activity := r.ticks)), m, packet);
        }
      case Err(_) =>
    }
  }

  lemma WorkerShaped(setup: Setup, r: Resident, m: Moment)
    requires Shaped(setup, r) && m.Valid(setup)
    ensures Shaped(setup, Worker(setup, r, m))
  {
    hide Prepare, Emit, DuePacket, Process, Authentic, Inv;
    if r.enabled {
      PrepareShaped(setup, r, m);
      var p := Prepare(r, m);
      if p.outgoing.pending {
        DueIsValid(setup, p, m);
        EmitShaped(setup, p, m);
      } else if p.session.hello.None? && p.slot.Some? {
        ProcessShaped(setup, p, m, p.slot.value);
      }
    }
  }
}
