/**
 The resident worker as the program it is: static variables changed in place, the request and the
 reply in one buffer. A run leaves the variables as ResidentWorker says.
 */
module ResidentProgram {
  import opened AgentTransfers
  import opened BiosKeys
  import opened Buffers
  import opened Bytes
  import opened DosFiles
  import opened DosPaths
  import opened PacketCodec
  import opened Packets
  import opened RequestIds
  import opened ResidentBuffer
  import opened ResidentReplies
  import opened ResidentRuns
  import opened ResidentSafety
  import opened ResidentWorker
  import opened TransferSafety
  import opened Wrappers

  // The session structure, but for the fields of the reply, which the handlers keep.
  datatype SessionRecord = SessionRecord(active: bool, id: Word, peer: Peer, key: bytes, activity: Word, hello: Option<bytes>)

  class Tsr {
    const config: Config
    const baseKey: bytes
    // What video memory shows, which only captures read.
    ghost var picture: Option<Picture>
    const agent: Agent
    var enabled: bool
    var ticks: Word
    var discoveryTick: Word
    var session: SessionRecord
    var receivingId: Word
    var receivingOpcode: int
    var receivingCount: nat
    var received: map<nat, nat>
    var slot: Option<Frame>
    var sent: seq<Sending>

    ghost function Site(): Setup
      reads this
    {
      Setup(config, baseKey, picture)
    }

    function Receives(): Receiving
      reads this
    {
      Receiving(receivingId, receivingOpcode, receivingCount, received)
    }

    ghost function Talks(): Session
      reads this, agent
    {
      Session(session.active, session.id, session.peer, session.key, agent.lastRequest, session.activity, session.hello)
    }

    ghost function Goes(): Outgoing
      reads agent
    {
      Outgoing(agent.responseKind, agent.responseOpcode, agent.responseId, agent.responseLength,
               agent.responseCount, agent.responseNext, agent.responsePending)
    }

    ghost function State(): Resident
      requires agent.keyboard.Valid()
      reads this, agent, agent.workspace, agent.keyboard, agent.keyboard.ring
    {
      Resident(enabled, ticks, discoveryTick, Talks(), Goes(), Receives(), agent.workspace[..], agent.State(), slot, sent)
    }

    ghost predicate Sound()
      reads this, agent, agent.workspace, agent.keyboard, agent.keyboard.ring
    {
      && agent.Prepared() && agent.config == Site().config
      && Apart() && Shaped(Site(), State())
    }

    ghost predicate Apart()
      reads this, agent
    {
      && this as object !in {agent as object, agent.keyboard, agent.workspace, agent.keyboard.ring}
      && agent as object !in {agent.keyboard as object, agent.workspace, agent.keyboard.ring}
      && agent.keyboard as object !in {agent.workspace as object, agent.keyboard.ring}
    }

    constructor (setup: Setup, agent: Agent, nobody: Peer)
      requires setup.Valid() && agent.Prepared() && agent.config == setup.config
      requires agent as object !in {agent.keyboard as object, agent.workspace, agent.keyboard.ring}
      requires agent.keyboard as object !in {agent.workspace as object, agent.keyboard.ring}
      requires Inv(setup.picture, agent.T(), agent.disk)
      requires agent.NoReplyYet()
      ensures Sound() && Site() == setup && this.agent == agent
      ensures State() == Installed(nobody, agent.workspace[..], agent.State())
    {
      config, baseKey, picture := setup.config, setup.baseKey, setup.picture;
      this.agent := agent;
      enabled, ticks, discoveryTick := true, 0, 0x1_0000 - DISCOVERY_INTERVAL_TICKS;
      session := SessionRecord(false, 0, nobody, seq(16, i => 0), 0, None);
      receivingId, receivingOpcode, receivingCount, received := 0, 0, 0, map[];
      slot, sent := None, [];
    }

    // --- What comes before the due fragment or the waiting datagram ---

    method CountTick(m: Moment)
      requires agent.Prepared() && Apart()
      modifies this`ticks, agent`disk
      ensures agent.Prepared() && Apart() && State() == Tick(old(State()), m)
    {
      if !m.dosIdle {
        ticks := (ticks + 1) % 0x1_0000;
      }
      agent.disk := agent.disk.(inside := m.Inside());
    }

    method ExpireSession()
      requires agent.Prepared() && Apart()
      modifies this`session, agent`responsePending, agent`lastRequest
      ensures agent.Prepared() && Apart() && State() == Expire(old(State()))
    {
      if session.active && Elapsed(ticks, session.activity) >= SESSION_IDLE_TICKS {
        session := session.(active := false);
        agent.responsePending := false;
        agent.lastRequest := None;
      }
    }

    method DropOldTransfer(m: Moment)
      requires agent.Prepared() && Apart()
      modifies agent`kind, agent`handle, agent`disk
      ensures agent.Prepared() && Apart() && State() == DropTransfer(old(State()), m)
    {
      hide AgentTransfers.CloseTransfer;
      if !session.active && agent.kind != NoTransfer && m.Inside() {
        ClosedIsNone(agent.T(), agent.disk);
        agent.CloseTransfer(true);
      }
    }

    method AnnounceIfDue()
      requires agent.Prepared() && Apart()
      modifies this`discoveryTick, this`sent
      ensures agent.Prepared() && Apart() && State() == Announce(old(State()))
    {
      if !session.active && Elapsed(ticks, discoveryTick) >= DISCOVERY_INTERVAL_TICKS {
        discoveryTick := ticks;
        sent := sent + [Announcement];
      }
    }

    method PrepareRun(m: Moment)
      requires Sound()
      modifies this`ticks, this`discoveryTick, this`session, this`sent, agent
      ensures Sound() && State() == Prepare(old(State()), m)
    {
      hide Shaped, Tick, Expire, DropTransfer, Announce, Tsr.State;
      PrepareShaped(Site(), State(), m);
      CountTick(m);
      ExpireSession();
      DropOldTransfer(m);
      AnnounceIfDue();
    }

    // --- The due fragment ---

    // `fill_text_capture_fragment`: the screen as it is now, over the front of the buffer.
    method FillScreenFragment(m: Moment, offset: nat, count: nat)
      requires agent.Prepared() && Apart() && count <= REQUEST_BUFFER_SIZE
      modifies agent.workspace
      ensures agent.Prepared() && Apart()
      ensures agent.workspace[..] == Written(old(agent.workspace[..]), 0, ScreenBytes(m, offset, count))
    {
      ghost var before, bytes := agent.workspace[..], ScreenBytes(m, offset, count);
      for index := 0 to count
        invariant agent.workspace[..index] == bytes[..index] && agent.workspace[index..] == before[index..]
      {
        agent.workspace[index] := m.screen(offset + index);
        assert bytes[..index + 1] == bytes[..index] + [bytes[index]];
        assert before[index + 1..] == before[index..][1..];
      }
      assert bytes[..count] == bytes;
      assert agent.workspace[..] == agent.workspace[..count] + agent.workspace[count..];
    }

    // The bytes of the due fragment: out of the buffer, or of the screen through it.
    method FragmentBytes(m: Moment) returns (payload: bytes)
      requires Sound() && agent.responsePending
      modifies agent.workspace
      ensures agent.Prepared() && Apart()
      ensures payload == FragmentPayload(old(State()), m)
      ensures State() == old(State()).(workspace := Filled(old(State()), m))
    {
      hide Inv, Written, ScreenBytes;
      ghost var r := State();
      DueWithin(Site(), State());
      var offset := agent.responseNext * RESPONSE_FRAGMENT_PAYLOAD;
      var count := Min(RESPONSE_FRAGMENT_PAYLOAD, agent.responseLength - offset);
      DuePayload(State(), m, offset, count);
      hide FragmentPayload;
      if agent.responseOpcode == CAPTURE_TEXT_SCREEN {
        FillScreenFragment(m, offset, count);
        payload := agent.workspace[..count];
        FrontIs(r.workspace, ScreenBytes(m, offset, count));
      } else {
        payload := agent.workspace[offset..offset + count];
      }
    }

    method EmitFragment(m: Moment)
      requires Sound() && agent.responsePending && m.Valid(Site())
      modifies this`sent, agent`responseNext, agent`responsePending, agent.workspace
      ensures agent.Prepared() && Apart() && DuePacket(old(State()), m).Valid()
      ensures State() == Emit(old(State()), m)
    {
      hide Encode, Inv, Filled, FragmentPayload, Tsr.Sound, Agent.State, Agent.Prepared;
      SoundParts();
      DueIsValid(Site(), State(), m);
      var payload := FragmentBytes(m);
      var packet := Packet(agent.responseKind, agent.responseOpcode, session.id, agent.responseId,
                           agent.responseNext, agent.responseCount, payload);
      sent := sent + [Datagram(session.peer, Encode(packet, session.key))];
      agent.FragmentSent();
    }

    lemma SoundParts()
      requires Sound()
      ensures agent.Prepared() && Apart() && Shaped(Site(), State()) && |session.key| == 16 && Site().Valid()
      ensures agent.workspace.Length == REQUEST_BUFFER_SIZE && agent.config == Site().config
      ensures State().outgoing.length <= |State().workspace|
    {
    }

    method EmitHello()
      requires agent.Prepared() && Apart()
      modifies this`sent, this`session
      ensures agent.Prepared() && Apart() && State() == SendHello(old(State()))
    {
      if session.hello.Some? {
        sent := sent + [Datagram(session.peer, session.hello.value)];
        session := session.(hello := None);
      }
    }

    // --- The waiting datagram ---

    // `send_error` to a request whose identifier is not newer.
    method RefuseReplay(opcode: Opcode, requestId: Word)
      requires Sound()
      modifies agent, agent.workspace
      ensures agent.Prepared() && Apart()
      ensures State() == Deliver(old(State()), old(State()).world, opcode, requestId, Error(4, "replayed request"))
    {
      hide PutU16, Ascii, Shaped;
      agent.RefuseReplay(opcode, requestId);
    }

    // The request is complete in the buffer: `process_request`, and its reply on its way.
    method DispatchRequest(m: Moment)
      requires Sound() && m.Valid(Site()) && session.active && receivingCount > 0 && AllHere(Receives())
      modifies agent, agent.workspace, agent.keyboard, agent.keyboard.ring
      ensures agent.keyboard.Valid()
      ensures State() == Dispatch(Site(), old(State()), m)
    {
      hide Respond, Inv, Agent.State, WithReply, AnswerBytes, PayloadSize;
      agent.StateParts();
      DispatchReady(Site(), State(), m);
      var length := (receivingCount - 1) * MAX_FRAGMENT_PAYLOAD + received[receivingCount - 1];
      if length > agent.workspace.Length || !(1 <= receivingOpcode <= 18) {
        return;
      }
      agent.ProcessRequest(receivingOpcode, receivingId, length, m.machine);
    }

    // A packet with a new identifier starts the request afresh.
    method RestartReceiving(requestId: Word, opcode: int, count: nat)
      requires Sound() && count <= MAX_FRAGMENTS
      modifies this`receivingId, this`receivingOpcode, this`receivingCount, this`received
      ensures Sound() && State() == old(State()).(receiving := Restarted(old(State()).receiving, requestId, opcode, count))
    {
      hide Inv, Agent.State;
      if requestId != receivingId {
        receivingId, receivingCount, receivingOpcode := requestId, count, opcode;
        received := map[];
      }
    }

    // Lines 722 to 752 of `process_datagram`.
    method CollectFragment(m: Moment, packet: DmPacket)
      requires Sound() && m.Valid(Site()) && session.active && Decoded(packet)
      modifies this`receivingId, this`receivingOpcode, this`receivingCount, this`received,
        agent, agent.workspace, agent.keyboard, agent.keyboard.ring
      ensures agent.keyboard.Valid()
      ensures State() == Collect(Site(), old(State()), m, packet)
    {
      hide Value, Dispatch, Inv, Written;
      var opcode, count, index := Value(packet.opcode), Value(packet.fragmentCount), Value(packet.fragmentIndex);
      RestartReceiving(packet.requestId, opcode, count);
      if count != receivingCount || opcode != receivingOpcode
        || index * MAX_FRAGMENT_PAYLOAD + |packet.payload| > REQUEST_BUFFER_SIZE {
        return;
      }
      CopyTo(agent.workspace, index * MAX_FRAGMENT_PAYLOAD, packet.payload);
      received := received[index := |packet.payload|];
      if !AllHere(Receives()) || !ResidentWorker.FullBeforeLast(Receives()) {
        return;
      }
      DispatchRequest(m);
    }

    // An authentic request of the session.
    method ProcessRequestPacket(m: Moment, packet: DmPacket)
      requires Sound() && m.Valid(Site()) && session.active && Decoded(packet)
      modifies this`receivingId, this`receivingOpcode, this`receivingCount, this`received,
        agent, agent.workspace, agent.keyboard, agent.keyboard.ring
      ensures agent.keyboard.Valid()
      ensures State() == ProcessSession(Site(), old(State()), m, packet)
    {
      hide Value, Collect, Inv, RequestIsNewer, Deliver, Agent.State;
      if agent.lastRequest.Some? && packet.requestId == agent.lastRequest.value {
        agent.RepeatReply();
        return;
      }
      if agent.lastRequest.Some? && !RequestIsNewer(packet.requestId, agent.lastRequest.value) {
        RefuseReplay(Value(packet.opcode), packet.requestId);
        return;
      }
      CollectFragment(m, packet);
    }

    // `process_hello`
    method StartSession(m: Moment, packet: DmPacket, from: Peer)
      requires Sound() && m.Valid(Site())
      modifies this`session, agent`lastRequest, agent`responseCount
      ensures agent.keyboard.Valid()
      ensures State() == ProcessHello(Site(), old(State()), m, packet, from)
    {
      hide Value, PutU16, SessionId, Encode, DerivedKey, Shaped, Agent.State;
      SoundParts();
      if |packet.payload| != 4 || Value(packet.fragmentCount) != 1 {
        return;
      }
      var id := SessionId(packet.payload, m.nonce);
      var answer := packet.payload + m.nonce + PutU16(id) + PutU16(MAX_FRAGMENT_PAYLOAD);
      var datagram := Encode(Packet(RESPONSE, HELLO, id, packet.requestId, 0, 1, answer), baseKey);
      TakeSession(id, from, datagram, DerivedKey(baseKey, packet.payload, m.nonce));
    }

    method TakeSession(id: Word, from: Peer, datagram: bytes, key: bytes)
      requires agent.keyboard.Valid() && agent.Prepared() && Apart()
      modifies this`session, agent`lastRequest, agent`responseCount
      ensures agent.keyboard.Valid()
      ensures State() == old(State()).(session := Session(true, id, from, key, None, ticks, Some(datagram)),
                                       outgoing := old(State()).outgoing.(count := 0))
    {
      hide Agent.State, Agent.Prepared;
      agent.ForgetReply();
      session := SessionRecord(true, id, from, key, ticks, Some(datagram));
    }

    // `process_datagram` once the packet is decoded.
    method ProcessDecoded(m: Moment, packet: DmPacket, from: Peer)
      requires Sound() && m.Valid(Site()) && Decoded(packet)
      modifies this`session,
        this`receivingId, this`receivingOpcode, this`receivingCount, this`received,
        agent, agent.workspace, agent.keyboard, agent.keyboard.ring
      ensures agent.keyboard.Valid()
      ensures State() == ProcessPacket(Site(), old(State()), m, packet, from)
    {
      hide Value, ProcessHello, ProcessSession, Inv, Agent.State;
      if Value(packet.kind) != KindNumber(REQUEST) {
        return;
      }
      if Value(packet.opcode) == HELLO && packet.sessionId == 0 {
        StartSession(m, packet, from);
        return;
      }
      if !session.active || packet.sessionId != session.id || from != session.peer {
        return;
      }
      session := session.(activity := ticks);
      ProcessRequestPacket(m, packet);
    }

    // `process_datagram`
    method ProcessDatagram(m: Moment, frame: Frame)
      requires Sound() && m.Valid(Site())
      modifies this`session,
        this`receivingId, this`receivingOpcode, this`receivingCount, this`received,
        agent, agent.workspace, agent.keyboard, agent.keyboard.ring
      ensures agent.keyboard.Valid()
      ensures State() == Process(Site(), old(State()), m, frame)
    {
      hide Value, DmDecode, ProcessPacket, Shaped, Agent.State, Decoded;
      SoundParts();
      var p := frame.payload;
      var chosen := baseKey;
      if |p| >= HEADER_SIZE && Value(p[4]) != HELLO {
        if !session.active {
          return;
        }
        chosen := session.key;
      }
      var decoded := DmDecode(p, chosen);
      if decoded.Err? {
        return;
      }
      DecodedValid(p, chosen);
      ProcessDecoded(m, decoded.value, frame.from);
    }

    // `validate_deferred_datagram`
    method ValidateDeferred(p: bytes) returns (ok: bool)
      requires Sound()
      ensures ok == Authentic(Site(), State(), p)
    {
      hide Value, DmDecode, Shaped;
      SoundParts();
      var chosen := baseKey;
      if |p| >= HEADER_SIZE && Value(p[4]) != HELLO {
        if !session.active {
          return false;
        }
        chosen := session.key;
      }
      ok := DmDecode(p, chosen).Ok?;
    }

    method ReceiveDatagram(m: Moment)
      requires Sound() && m.Valid(Site())
      modifies this`slot, this`session,
        this`receivingId, this`receivingOpcode, this`receivingCount, this`received,
        agent, agent.workspace, agent.keyboard, agent.keyboard.ring
      ensures agent.keyboard.Valid()
      ensures State() == Receive(Site(), old(State()), m)
    {
      hide Value, Process, Authentic, Shaped, Agent.State;
      if slot.None? {
        return;
      }
      var frame := slot.value;
      var p := frame.payload;
      var dosOperation := |p| >= HEADER_SIZE && FILE_READ_BEGIN <= Value(p[4]) <= FILE_ABORT
        && !(Value(p[4]) == FILE_ABORT && agent.kind == ReadScreen);
      agent.StateParts();
      if dosOperation && (!m.dosIdle || m.critical) {
        var ok := ValidateDeferred(p);
        if !ok {
          slot := None;
        }
        return;
      }
      ProcessDatagram(m, frame);
      slot := None;
    }

    /** `ratsr_idle_worker` */
    method IdleWorker(m: Moment)
      requires Sound() && m.Valid(Site())
      modifies this`ticks, this`discoveryTick, this`slot, this`sent, this`session,
        this`receivingId, this`receivingOpcode, this`receivingCount, this`received,
        agent, agent.workspace, agent.keyboard, agent.keyboard.ring
      ensures Sound() && State() == Worker(Site(), old(State()), m)
    {
      hide Prepare, Emit, DuePacket, Receive, Shaped, Agent.State, SendHello;
      ghost var r := State();
      WorkerShaped(Site(), r, m);
      if !enabled {
        return;
      }
      PrepareShaped(Site(), r, m);
      PrepareRun(m);
      if agent.responsePending {
        EmitFragment(m);
      } else if session.hello.Some? {
        EmitHello();
      } else {
        ReceiveDatagram(m);
      }
      StillSound();
    }

    // The agent and its host as ResidentRuns sees them.
    ghost function At(): Host
      requires agent.keyboard.Valid()
      reads this, agent, agent.workspace, agent.keyboard, agent.keyboard.ring
    {
      Host(Site(), State())
    }

    /** An interrupt gives the worker a turn, whatever the screen shows by now. */
    method TakeTurn(m: Moment)
      requires Sound() && Up(At()) && Possible(At(), Work(m))
      modifies this`picture, this`ticks, this`discoveryTick, this`slot, this`sent, this`session,
        this`receivingId, this`receivingOpcode, this`receivingCount, this`received,
        agent, agent.workspace, agent.keyboard, agent.keyboard.ring
      ensures Sound() && Up(At()) && At() == Happens(old(At()), Work(m))
    {
      hide Good, Worker, Agent.State;
      ghost var h := At();
      SeenIsGood(h, m);
      GoodParts(Seen(h.setup, m), h.resident);
      hide Shaped;
      picture := m.machine.picture;
      StillSound();
      IdleWorker(m);
      assert At() == Happens(h, Work(m));
    }

    /** A frame comes into the free receive slot. */
    method TakeFrame(frame: Frame)
      requires Sound() && Up(At()) && Possible(At(), Arrive(frame))
      modifies this`slot
      ensures Sound() && Up(At()) && At() == Happens(old(At()), Arrive(frame))
    {
      hide Inv, Agent.State;
      ghost var h := At();
      slot := Some(frame);
      ArrivalIsGood(h, frame);
      GoodParts(At().setup, At().resident);
    }

    lemma StillSound()
      requires agent.keyboard.Valid() && Apart() && agent.config == Site().config && Shaped(Site(), State())
      ensures Sound()
    {
    }
  }

  lemma DispatchReady(setup: Setup, r: Resident, m: Moment)
    requires Shaped(setup, r) && m.Valid(setup) && r.receiving.count > 0 && AllHere(r.receiving)
    ensures Sized(r.world.t) && Still(r.world.t, m.machine.picture)
    ensures m.machine.picture.Some? ==> |m.machine.picture.value.data| <= TSR_FILE_MAX
    ensures RequestLength(r.receiving) <= |r.workspace|
  {
    hide Checksums.Crc32;
  }

  function ScreenBytes(m: Moment, offset: nat, count: nat): (r: bytes)
    ensures |r| == count
  {
    seq(count, i requires 0 <= i => m.screen(offset + i))
  }

  lemma DueWithin(setup: Setup, r: Resident)
    requires Shaped(setup, r) && r.outgoing.pending
    ensures r.outgoing.next * RESPONSE_FRAGMENT_PAYLOAD <= r.outgoing.length <= SCREEN_BUFFER_SIZE
  {
    hide Inv;
    EnoughSlices(RESPONSE_FRAGMENT_PAYLOAD, r.outgoing.length);
  }

  lemma DuePayload(r: Resident, m: Moment, offset: nat, count: nat)
    requires r.outgoing.length <= |r.workspace| && offset == r.outgoing.next * RESPONSE_FRAGMENT_PAYLOAD <= r.outgoing.length
    requires count == Min(RESPONSE_FRAGMENT_PAYLOAD, r.outgoing.length - offset)
    ensures FragmentPayload(r, m) ==
      if r.outgoing.opcode == CAPTURE_TEXT_SCREEN then ScreenBytes(m, offset, count)
      else r.workspace[offset..offset + count]
  {
    var screen := seq(r.outgoing.length, i requires 0 <= i => m.screen(i));
    assert screen[offset..offset + count] == ScreenBytes(m, offset, count);
    assert r.workspace[..r.outgoing.length][offset..offset + count] == r.workspace[offset..offset + count];
  }

  lemma ClosedIsNone(t: Transfer, d: Disk)
    ensures var (closed, _) := AgentTransfers.CloseTransfer(t, d, true); closed.kind == NoTransfer && closed.handle == None
  {
    hide DosFiles.Close, DosFiles.Remove;
  }
}
