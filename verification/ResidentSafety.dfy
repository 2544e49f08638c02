/**
 What one run of the resident worker does and keeps: a frame held for an idle DOS stays as it is,
 DOS is called only where it may be, and a reply goes out as the fragments of one message.
 */
module ResidentSafety {
  import opened AgentTransfers
  import opened Buffers
  import opened Bytes
  import opened DosFiles
  import opened DosPaths
  import opened PacketCodec
  import opened Packets
  import opened RequestIds
  import opened ResidentReplies
  import opened ResidentWorker
  import opened TransferSafety
  import opened Wrappers

  // --- Time ---

  // The session is younger than the idle limit, and an unsent hello is of this very tick.
  ghost predicate Timed(r: Resident) {
    && (r.session.active ==> Elapsed(r.ticks, r.session.activity) < SESSION_IDLE_TICKS)
    && (r.session.hello.Some? ==> r.session.active && r.ticks == r.session.activity && !r.outgoing.pending)
  }

  ghost predicate Good(setup: Setup, r: Resident) {
    Shaped(setup, r) && Timed(r)
  }

  lemma PrepareTimed(r: Resident, m: Moment)
    requires Timed(r)
    ensures var p := Prepare(r, m);
      && (p.session.active ==>
            r.session.active && p.session.activity == r.session.activity
            && Elapsed(p.ticks, p.session.activity) < SESSION_IDLE_TICKS
            && Elapsed(p.ticks, p.session.activity)
               == Elapsed(r.ticks, r.session.activity) + (if m.dosIdle then 0 else 1))
      && (r.session.hello.Some? ==> p.session.active && p.outgoing == r.outgoing)
      && p.session.hello == r.session.hello
      && (p.outgoing.pending ==> r.outgoing.pending)
      && p.session.(active := true, last := None) == r.session.(active := true, last := None)
  {
    hide GiveUp, Elapsed;
    if r.session.active {
      ElapsedNothing(r.ticks);
      ElapsedNext(r.ticks, r.session.activity);
    }
  }

  lemma ElapsedNext(ticks: Word, since: Word)
    ensures Elapsed(ticks, since) < SESSION_IDLE_TICKS ==>
      Elapsed((ticks + 1) % 0x1_0000, since) == Elapsed(ticks, since) + 1
  {
  }

  lemma ProcessTimed(setup: Setup, r: Resident, m: Moment, frame: Frame)
    requires Shaped(setup, r) && m.Valid(setup) && !r.outgoing.pending && r.session.hello.None?
    requires r.session.active ==> Elapsed(r.ticks, r.session.activity) < SESSION_IDLE_TICKS
    ensures var r' := Process(setup, r, m, frame);
      Timed(r') && r'.enabled == r.enabled && r'.ticks == r.ticks
  {
    hide DmDecode, Value, Inv, RequestIsNewer, SessionId, Encode, PutU16, Respond, Written, FragmentCount, Ascii;
    hide AllHere, ResidentWorker.FullBeforeLast, RequestLength, DerivedKey, WithReply, AnswerBytes, Shaped, Elapsed;
    assert Elapsed(r.ticks, r.ticks) == 0 by {
      ElapsedNothing(r.ticks);
    }
  }

  lemma ElapsedNothing(ticks: Word)
    ensures Elapsed(ticks, ticks) == 0
  {
  }

  lemma WorkerTimed(setup: Setup, r: Resident, m: Moment)
    requires Good(setup, r) && m.Valid(setup)
    ensures Good(setup, Worker(setup, r, m)) && Worker(setup, r, m).enabled == r.enabled
  {
    hide Prepare, DuePacket, Process, Authentic, Inv, Shaped, Encode, Filled;
    WorkerShaped(setup, r, m);
    if r.enabled {
      PrepareShaped(setup, r, m);
      PrepareTimed(r, m);
      var p := Prepare(r, m);
      if p.outgoing.pending {
        DueIsValid(setup, p, m);
        ShapedParts(setup, p);
      } else if p.session.hello.None? && p.slot.Some? {
        ProcessTimed(setup, p, m, p.slot.value);
      }
    }
  }

  // --- The receive slot ---

  // A run that leaves the slot occupied leaves the same frame, the session alive and its last
  // activity where it was; the clock has moved if the run came from the timer.
  lemma KeptStep(setup: Setup, r: Resident, m: Moment)
    requires Good(setup, r) && m.Valid(setup) && r.enabled
    requires r.slot.Some? && Worker(setup, r, m).slot.Some?
    ensures var r' := Worker(setup, r, m);
      && r'.slot == r.slot && r.session.active && r'.session.active
      && Elapsed(r'.ticks, r'.session.activity)
         == Elapsed(r.ticks, r.session.activity) + (if m.dosIdle then 0 else 1)
  {
    hide Prepare, DuePacket, Process, Inv, Shaped, Encode, Filled, DmDecode;
    PrepareShaped(setup, r, m);
    PrepareTimed(r, m);
    var p := Prepare(r, m);
    if p.outgoing.pending {
      DueIsValid(setup, p, m);
      ShapedParts(setup, p);
      PendingIsActive(setup, p);
    }
  }

  lemma PendingIsActive(setup: Setup, r: Resident)
    requires Shaped(setup, r) && r.outgoing.pending
    ensures r.session.active
  {
  }

  lemma GoodParts(setup: Setup, r: Resident)
    requires Good(setup, r)
    ensures Shaped(setup, r) && Timed(r)
  {
  }

  // --- Where DOS is called ---

  // The packet the run takes out of the slot and decodes, if it does, and its sender.
  function Taken(setup: Setup, r: Resident, m: Moment): Option<(DmPacket, Peer)>
    requires Good(setup, r) && m.Valid(setup)
  {
    hide Prepare, DmDecode, Authentic, Shaped, Value;
    GoodParts(setup, r);
    PrepareShaped(setup, r, m);
    var p := Prepare(r, m);
    if !r.enabled || p.outgoing.pending || p.session.hello.Some? || p.slot.None? then None
    else if DosOperation(p, p.slot.value) && !m.Inside() then None
    else
      ShapedParts(setup, p);
      var frame := p.slot.value;
      match KeyFor(setup, p, frame.payload)
      case None => None
      case Some(key) =>
        match DmDecode(frame.payload, key)
        case Err(_) => None
        case Ok(packet) => Some((packet, frame.from))
  }

  // What the run hands to `process_request`, if anything: the opcode and the bytes of the request.
  function Dispatches(setup: Setup, r: Resident, m: Moment): Option<(int, bytes)>
    requires Good(setup, r) && m.Valid(setup)
  {
    hide Prepare, Shaped, Taken, Completes;
    GoodParts(setup, r);
    PrepareShaped(setup, r, m);
    ShapedParts(setup, Prepare(r, m));
    match Taken(setup, r, m)
    case None => None
    case Some((packet, from)) => Completes(setup, Prepare(r, m), m, packet, from)
  }

  // The request a decoded packet completes, if it does.
  function Completes(setup: Setup, r: Resident, m: Moment, packet: DmPacket, from: Peer): Option<(int, bytes)>
    requires |r.workspace| == REQUEST_BUFFER_SIZE
  {
    hide Value, RequestIsNewer, Written;
    var last := r.session.last;
    if Value(packet.kind) != KindNumber(REQUEST) || (Value(packet.opcode) == HELLO && packet.sessionId == 0)
      || !r.session.active || packet.sessionId != r.session.id || from != r.session.peer then None
    else if last == Some(packet.requestId) || (last.Some? && !RequestIsNewer(packet.requestId, last.value)) then None
    else
      var opcode, count, index := Value(packet.opcode), Value(packet.fragmentCount), Value(packet.fragmentIndex);
      var q := Restarted(r.receiving, packet.requestId, opcode, count);
      var at := index * MAX_FRAGMENT_PAYLOAD;
      if count != q.count || opcode != q.opcode || at + |packet.payload| > REQUEST_BUFFER_SIZE then None
      else
        var q' := q.(lengths := q.lengths[index := |packet.payload|]);
        var workspace := Written(r.workspace, at, packet.payload);
        if !AllHere(q') || !ResidentWorker.FullBeforeLast(q') || q'.count == 0 || RequestLength(q') > |workspace| then None
        else Some((opcode, workspace[..RequestLength(q')]))
  }

  // The one request that reaches DOS where it may not be entered: the end of a graphics capture,
  // naming a file download that is complete.
  predicate Hole(t: Transfer, dispatched: Option<(int, bytes)>) {
    hide GetU16;
    && dispatched.Some? && dispatched.value.0 == GRAPHICS_END && t.kind == ReadFile
    && |dispatched.value.1| == 2 && GetU16(dispatched.value.1[..2]) == t.id && t.offset == t.size
  }

  // A request outside an idle DOS makes no call, but for that one.
  lemma QuietRequest(config: Config, picture: Option<Picture>, t: Transfer, d: Disk, op: Operation, p: bytes)
    requires Inv(picture, t, d)
    requires op in {EndOp(true), GraphicsBlockOp} || op.GraphicsBeginOp? || (op.AbortOp? && t.kind in {ReadScreen})
    ensures var s := Perform(config, picture, t, d, op, p);
      var closes := op.EndOp? && t.kind == ReadFile && |p| == 2 && GetU16(p[..2]) == t.id && t.offset == t.size;
      s.disk.trace == d.trace + (if closes then [Call(CLOSE, d.inside)] else [])
  {
    hide Checksums.Crc32, GetU16, PutU16, BlockReply, EndReply, Wanted;
  }

  lemma QuietRespond(setup: Setup, m: Moment, w: World, opcode: Opcode, p: bytes)
    requires setup.Valid() && m.Valid(setup) && Inv(setup.picture, w.t, w.disk) && w.keyboard.Valid()
    requires FILE_READ_BEGIN <= opcode <= FILE_ABORT ==> opcode == FILE_ABORT && w.t.kind == ReadScreen
    ensures Sized(w.t) && Still(w.t, m.machine.picture)
    ensures var w' := Respond(setup.config, m.machine, w, opcode, p).0;
      w'.disk.trace == w.disk.trace + (if Hole(w.t, Some((opcode, p))) then [Call(CLOSE, w.disk.inside)] else [])
  {
    hide Inv, Perform, KeyReply, BiosKeys.KeysWellFormed, GetU16, SendKeys;
    InvParts(setup.picture, w.t, w.disk);
    match OperationOf(opcode, m.machine.drawn)
    case Some((op, _, _)) => QuietRequest(setup.config, setup.picture, w.t, w.disk, op, p);
    case None =>
  }

  lemma DecodedBytes(p: bytes, key: bytes)
    requires |key| == 16 && DmDecode(p, key).Ok?
    ensures |p| >= HEADER_SIZE && DmDecode(p, key).value.opcode == p[4]
  {
    hide GetU16, Value, CrcMatches, TagMatches;
  }

  // The world after a request was handed to `process_request`, or was not.
  function After(setup: Setup, m: Moment, w: World, dispatched: Option<(int, bytes)>): World
    requires setup.Valid() && m.Valid(setup) && Inv(setup.picture, w.t, w.disk) && w.keyboard.Valid()
  {
    hide Inv, Respond;
    InvParts(setup.picture, w.t, w.disk);
    if dispatched.Some? && 1 <= dispatched.value.0 <= 18 then
      Respond(setup.config, m.machine, w, dispatched.value.0, dispatched.value.1).0
    else w
  }

  lemma CollectWorld(setup: Setup, r: Resident, m: Moment, packet: DmPacket)
    requires Shaped(setup, r) && r.session.active && m.Valid(setup) && Decoded(packet)
    requires Value(packet.kind) == KindNumber(REQUEST) && packet.sessionId == r.session.id
    requires !(Value(packet.opcode) == HELLO && packet.sessionId == 0)
    requires r.session.last != Some(packet.requestId)
    requires r.session.last.None? || RequestIsNewer(packet.requestId, r.session.last.value)
    ensures Collect(setup, r, m, packet).world
      == After(setup, m, r.world, Completes(setup, r, m, packet, r.session.peer))
  {
    hide Value, RequestIsNewer, Written, Inv, Respond, AllHere, ResidentWorker.FullBeforeLast, RequestLength, Ascii, PutU16;
  }

  lemma ProcessWorld(setup: Setup, r: Resident, m: Moment, packet: DmPacket, from: Peer)
    requires Shaped(setup, r) && m.Valid(setup) && Decoded(packet)
    ensures ProcessPacket(setup, r, m, packet, from).world
      == After(setup, m, r.world, Completes(setup, r, m, packet, from))
  {
    hide Collect, After, Value, RequestIsNewer, Written, Inv, SessionId, Encode, PutU16, Ascii;
    hide AllHere, ResidentWorker.FullBeforeLast, RequestLength;
    NothingDispatched(setup, m, r.world);
    if Value(packet.kind) == KindNumber(REQUEST) && !(Value(packet.opcode) == HELLO && packet.sessionId == 0)
      && r.session.active && packet.sessionId == r.session.id && from == r.session.peer {
      var touched := r.(session := r.session.(activity := r.ticks));
      assert Completes(setup, touched, m, packet, from) == Completes(setup, r, m, packet, from);
      if r.session.last != Some(packet.requestId)
        && (r.session.last.None? || RequestIsNewer(packet.requestId, r.session.last.value)) {
        CollectWorld(setup, touched, m, packet);
      }
    }
  }

  lemma NothingDispatched(setup: Setup, m: Moment, w: World)
    requires setup.Valid() && m.Valid(setup) && Inv(setup.picture, w.t, w.disk) && w.keyboard.Valid()
    ensures After(setup, m, w, None) == w
  {
    hide Inv, Respond;
  }

  lemma WorldParts(setup: Setup, r: Resident)
    requires Shaped(setup, r)
    ensures Inv(setup.picture, r.world.t, r.world.disk) && r.world.keyboard.Valid()
  {
    hide Inv;
  }

  // A run changes the world by what it prepares and by the request it dispatches.
  lemma WorkerWorld(setup: Setup, r: Resident, m: Moment)
    requires Good(setup, r) && m.Valid(setup) && r.enabled
    ensures Shaped(setup, Prepare(r, m)) && setup.Valid()
    ensures Inv(setup.picture, Prepare(r, m).world.t, Prepare(r, m).world.disk) && Prepare(r, m).world.keyboard.Valid()
    ensures Worker(setup, r, m).world == After(setup, m, Prepare(r, m).world, Dispatches(setup, r, m))
  {
    hide Prepare, DuePacket, Shaped, After, Encode, Filled, DmDecode, Authentic, ProcessPacket, Completes, Inv, Value;
    GoodParts(setup, r);
    PrepareShaped(setup, r, m);
    var p := Prepare(r, m);
    WorldParts(setup, p);
    ShapedParts(setup, p);
    NothingDispatched(setup, m, p.world);
    if p.outgoing.pending {
      DueIsValid(setup, p, m);
    } else if p.session.hello.None? && p.slot.Some? {
      var frame := p.slot.value;
      var key := KeyFor(setup, p, frame.payload);
      if key.Some? {
        match DmDecode(frame.payload, key.value)
        case Ok(packet) =>
          DecodedValid(frame.payload, key.value);
          ProcessWorld(setup, p, m, packet, frame.from);
        case Err(_) =>
      }
    }
  }

  // Where DOS may not be entered, no file opcode is dispatched, but for an abort of a capture.
  lemma DispatchedOutside(setup: Setup, r: Resident, m: Moment)
    requires Good(setup, r) && m.Valid(setup) && !m.Inside() && Dispatches(setup, r, m).Some?
    ensures var opcode := Dispatches(setup, r, m).value.0;
      && 1 <= opcode <= 18
      && (FILE_READ_BEGIN <= opcode <= FILE_ABORT ==> opcode == FILE_ABORT && Prepare(r, m).world.t.kind == ReadScreen)
  {
    hide Prepare, Shaped, DmDecode, Authentic, Inv, Value, RequestIsNewer, Written, Restarted, AllHere;
    hide ResidentWorker.FullBeforeLast, RequestLength;
    GoodParts(setup, r);
    PrepareShaped(setup, r, m);
    var p := Prepare(r, m);
    ShapedParts(setup, p);
    var frame := p.slot.value;
    var key := KeyFor(setup, p, frame.payload);
    DecodedBytes(frame.payload, key.value);
    DecodedValid(frame.payload, key.value);
  }

  // --- Every call is noted under the flag of its run ---

  lemma {:induction false} CreateTempContinues(d: Disk, prefix: bytes, path: Path, id: Word, attempt: nat)
    requires attempt <= 16
    ensures Continues(d, CreateTemp(d, prefix, path, id, attempt).0)
    decreases 16 - attempt
  {
    hide TempName;
    if attempt < 16 {
      var name := TempName(prefix, id, attempt);
      if name == path {
        CreateTempContinues(d, prefix, path, id, attempt + 1);
      } else {
        var d1 := CreateNew(d, name).0;
        CreateTempContinues(d1, prefix, path, id, attempt + 1);
        ContinuesTwice(d, d1, CreateTemp(d1, prefix, path, id, attempt + 1).0);
      }
    }
  }

  lemma MakeTempContinues(config: Config, d: Disk, path: Path, id: Word)
    ensures Continues(d, MakeTemp(config, d, path, id).0)
  {
    hide TempPrefix, CreateTemp;
    if TempPrefix(config, path).Some? {
      CreateTempContinues(d, TempPrefix(config, path).value, path, id, 0);
    }
  }

  lemma CloseContinues(t: Transfer, d: Disk, removeTemporary: bool)
    ensures Continues(d, CloseTransfer(t, d, removeTemporary).1)
  {
  }

  lemma SizeContinues(d: Disk, handle: nat)
    ensures Continues(d, Size(d, handle).0)
  {
  }

  lemma StartReadContinues(t: Transfer, measured: (Disk, Option<nat>), drawn: Word)
    ensures Continues(measured.0, StartRead(t, measured, drawn).disk)
  {
    hide CloseTransfer, BeginReply;
    CloseContinues(t, measured.0, false);
  }

  lemma BeginReadContinues(config: Config, t: Transfer, d: Disk, p: bytes, drawn: Word)
    ensures Continues(d, BeginRead(config, t, d, p, drawn).disk)
  {
    hide Value, BuildPath, StartRead, Size, Continues;
    NoCalls(d);
    if |p| > 0 && BuildPath(config, p[1..]).Some? {
      var path := BuildPath(config, p[1..]).value;
      var (d1, handle) := Open(d, path);
      OpenContinues(d, path);
      if handle.Some? {
        var measured := Size(d1, handle.value);
        var named := t.(path := path, handle := handle);
        SizeContinues(d1, handle.value);
        StartReadContinues(named, measured, drawn);
        ContinuesTwice(d, d1, measured.0);
        ContinuesTwice(d, measured.0, StartRead(named, measured, drawn).disk);
      }
    }
  }

  lemma NoCalls(d: Disk)
    ensures Continues(d, d)
  {
  }

  lemma OpenContinues(d: Disk, path: Path)
    ensures Continues(d, Open(d, path).0)
  {
  }

  lemma StartWriteContinues(config: Config, t: Transfer, d: Disk, p: bytes, drawn: Word)
    requires |p| >= 10 && GetU32(p[1..5]) <= TSR_FILE_MAX
    ensures Continues(d, StartWrite(config, t, d, p, drawn).disk)
  {
    hide Value, GetU32, BeginReply, MakeTemp, PacketMac.Word32;
    var d1 := if Value(p[0]) == 1 then d else Open(d, t.path).0;
    MakeTempContinues(config, d1, t.path, NextTransferId(drawn));
    ContinuesTwice(d, d1, MakeTemp(config, d1, t.path, NextTransferId(drawn)).0);
  }

  lemma BeginWriteContinues(config: Config, t: Transfer, d: Disk, p: bytes, drawn: Word)
    ensures Continues(d, BeginWrite(config, t, d, p, drawn).disk)
  {
    hide Value, GetU32, BuildPath, StartWrite;
    if |p| >= 10 && GetU32(p[1..5]) <= TSR_FILE_MAX && BuildPath(config, p[10..]).Some? {
      StartWriteContinues(config, t.(path := BuildPath(config, p[10..]).value), d, p, drawn);
    }
  }

  lemma ReplaceContinues(t: Transfer, d: Disk)
    requires Sized(t)
    ensures Continues(d, ReplaceFile(t, d).disk)
  {
    hide EndReply, RenameTemp, CloseTransfer;
    var (d1, existing) := Open(d, t.path);
    if existing.Some? {
      var d2 := Close(d1, existing.value);
      CloseContinues(t, d2, true);
      ContinuesTwice(d, d2, CloseTransfer(t, d2, true).1);
      var d3 := Remove(d2, t.path).0;
      CloseContinues(t, d3, true);
      ContinuesTwice(d, d3, CloseTransfer(t, d3, true).1);
      RenameContinues(t, d3);
      ContinuesTwice(d, d3, RenameTemp(t, d3).disk);
    } else {
      RenameContinues(t, d1);
      ContinuesTwice(d, d1, RenameTemp(t, d1).disk);
    }
  }

  lemma RenameContinues(t: Transfer, d: Disk)
    requires Sized(t)
    ensures Continues(d, RenameTemp(t, d).disk)
  {
    hide EndReply, CloseTransfer;
    var d1 := Rename(d, t.temp, t.path).0;
    CloseContinues(t, d1, true);
    ContinuesTwice(d, d1, CloseTransfer(t, d1, true).1);
  }

  lemma PerformContinues(config: Config, picture: Option<Picture>, t: Transfer, d: Disk, op: Operation, p: bytes)
    requires Sized(t) && Still(t, picture)
    ensures Continues(d, Perform(config, picture, t, d, op, p).disk)
  {
    hide BeginRead, BeginWrite, ReplaceFile, CloseTransfer, Checksums.Crc32, GetU16, Wanted, InSequence;
    hide BlockReply, EndReply, PutU16;
    match op
    case ReadBeginOp(drawn) => BeginReadContinues(config, t, d, p, drawn);
    case WriteBeginOp(drawn) => BeginWriteContinues(config, t, d, p, drawn);
    case CommitOp =>
      if t.handle.Some? {
        var closed := Close(d, t.handle.value);
        ReplaceContinues(t.(handle := None), closed);
        ContinuesTwice(d, closed, ReplaceFile(t.(handle := None), closed).disk);
      }
    case EndOp(_) => CloseContinues(t, d, false);
    case _ => CloseContinues(t, d, true);
  }

  lemma AfterContinues(setup: Setup, m: Moment, w: World, dispatched: Option<(int, bytes)>)
    requires setup.Valid() && m.Valid(setup) && Inv(setup.picture, w.t, w.disk) && w.keyboard.Valid()
    ensures Continues(w.disk, After(setup, m, w, dispatched).disk)
  {
    hide Inv, Perform, SendKeys;
    InvParts(setup.picture, w.t, w.disk);
    if dispatched.Some? && 1 <= dispatched.value.0 <= 18 {
      match OperationOf(dispatched.value.0, m.machine.drawn)
      case Some((op, _, _)) => PerformContinues(setup.config, setup.picture, w.t, w.disk, op, dispatched.value.1);
      case None =>
    }
  }

  lemma PrepareCalls(setup: Setup, r: Resident, m: Moment)
    requires Shaped(setup, r)
    ensures Continues(r.world.disk.(inside := m.Inside()), Prepare(r, m).world.disk)
    ensures !m.Inside() ==> Prepare(r, m).world.disk.trace == r.world.disk.trace
  {
    hide CloseTransfer, Inv;
    var d := r.world.disk.(inside := m.Inside());
    CloseContinues(r.world.t, d, true);
  }

  // The calls a run adds.
  function NewCalls(before: Disk, later: Disk): seq<Call>
    requires |before.trace| <= |later.trace|
  {
    later.trace[|before.trace|..]
  }

  /**
   A run of the worker calls DOS where DOS may not be entered exactly when it dispatches the end
   of a graphics capture against a complete file download; that run closes the file. Every other
   call is made inside an idle DOS with no critical error under way.
   */
  lemma CallsAreGated(setup: Setup, r: Resident, m: Moment)
    requires Good(setup, r) && m.Valid(setup) && r.enabled
    ensures var d, d' := r.world.disk, Worker(setup, r, m).world.disk;
      && |d.trace| <= |d'.trace| && d'.trace[..|d.trace|] == d.trace
      && (forall call :: call in NewCalls(d, d') ==> call.inside == m.Inside())
      && (!m.Inside() ==>
            NewCalls(d, d') == if Hole(Prepare(r, m).world.t, Dispatches(setup, r, m)) then [Call(CLOSE, false)] else [])
  {
    hide Prepare, Worker, After, Dispatches, Shaped, Timed, Hole;
    GoodParts(setup, r);
    var d, p := r.world.disk, Prepare(r, m).world;
    var dispatched := Dispatches(setup, r, m);
    PrepareCalls(setup, r, m);
    WorkerWorld(setup, r, m);
    AfterContinues(setup, m, p, dispatched);
    var d' := Worker(setup, r, m).world.disk;
    ContinuesTwice(d.(inside := m.Inside()), p.disk, d');
    if !m.Inside() {
      QuietAfter(setup, r, m);
      assert d'.trace == d.trace + NewCalls(d, d');
    }
  }

  lemma QuietAfter(setup: Setup, r: Resident, m: Moment)
    requires Good(setup, r) && m.Valid(setup) && r.enabled && !m.Inside()
    requires setup.Valid() && Inv(setup.picture, Prepare(r, m).world.t, Prepare(r, m).world.disk)
    requires Prepare(r, m).world.keyboard.Valid() && !Prepare(r, m).world.disk.inside
    ensures var p, dispatched := Prepare(r, m).world, Dispatches(setup, r, m);
      After(setup, m, p, dispatched).disk.trace
      == p.disk.trace + (if Hole(p.t, dispatched) then [Call(CLOSE, false)] else [])
  {
    hide Prepare, Dispatches, Shaped, Timed, Inv, Respond, GetU16;
    var p, dispatched := Prepare(r, m).world, Dispatches(setup, r, m);
    if dispatched.Some? {
      DispatchedOutside(setup, r, m);
      QuietRespond(setup, m, p, dispatched.value.0, dispatched.value.1);
    }
  }

  lemma JoinCalls(a: Disk, b: Disk, c: Disk)
    requires |a.trace| <= |b.trace| <= |c.trace| && c.trace[..|b.trace|] == b.trace
    ensures NewCalls(a, c) == NewCalls(a, b) + NewCalls(b, c)
  {
  }

  // --- Replies go out as the fragments of one message ---

  // The fragments of the reply that is being sent: all of the bytes in the buffer.
  function ReplyFragments(r: Resident): (whole: seq<Packet>)
    requires r.outgoing.length <= |r.workspace|
    ensures |whole| == FragmentCount(RESPONSE_FRAGMENT_PAYLOAD, r.outgoing.length)
  {
    var o := r.outgoing;
    Fragment(RESPONSE_FRAGMENT_PAYLOAD, o.kind, o.opcode, r.session.id, o.id, r.workspace[..o.length])
  }

  function Mail(peer: Peer, key: bytes, packets: seq<Packet>): seq<Sending>
    requires |key| == 16 && forall p :: p in packets ==> p.Valid()
  {
    hide Encode;
    seq(|packets|, i requires 0 <= i < |packets| => Datagram(peer, Encode(packets[i], key)))
  }

  // A reply is under way, other than of the text screen, which is read as it goes out.
  ghost predicate Replying(r: Resident) {
    r.enabled && r.session.active && r.outgoing.pending && r.outgoing.opcode != CAPTURE_TEXT_SCREEN
  }

  // The same reply to the same peer, from the same bytes.
  ghost predicate SameReply(r: Resident, later: Resident) {
    && later.workspace == r.workspace && later.session.last == r.session.last
    && later.session.peer == r.session.peer && later.session.key == r.session.key && later.session.id == r.session.id
    && later.outgoing.(next := 0, pending := true) == r.outgoing.(next := 0, pending := true)
  }

  lemma PrepareReplying(setup: Setup, r: Resident, m: Moment)
    requires Good(setup, r) && Replying(r)
    requires Elapsed(r.ticks, r.session.activity) + (if m.dosIdle then 0 else 1) < SESSION_IDLE_TICKS
    ensures var p := Prepare(r, m);
      && p.sent == r.sent && p.session == r.session && p.outgoing == r.outgoing && p.workspace == r.workspace
      && p.slot == r.slot && p.enabled
      && Elapsed(p.ticks, p.session.activity) == Elapsed(r.ticks, r.session.activity) + (if m.dosIdle then 0 else 1)
  {
    hide Shaped, GiveUp;
  }

  // One run sends the fragment that is due.
  lemma FragmentGoesOut(setup: Setup, r: Resident, m: Moment)
    requires Good(setup, r) && m.Valid(setup) && Replying(r)
    requires Elapsed(r.ticks, r.session.activity) + (if m.dosIdle then 0 else 1) < SESSION_IDLE_TICKS
    ensures var r' := Worker(setup, r, m);
      && r.outgoing.length <= |r.workspace| && r.outgoing.next < |ReplyFragments(r)| && |r.session.key| == 16
      && ReplyFragments(r)[r.outgoing.next].Valid()
      && r'.sent == r.sent + [Datagram(r.session.peer, Encode(ReplyFragments(r)[r.outgoing.next], r.session.key))]
      && SameReply(r, r') && r'.session.active && r'.enabled && r'.slot == r.slot
      && r'.outgoing.next == r.outgoing.next + 1
      && r'.outgoing.pending == (r.outgoing.next + 1 < r.outgoing.count)
      && r'.outgoing.count == |ReplyFragments(r)|
      && Elapsed(r'.ticks, r'.session.activity) == Elapsed(r.ticks, r.session.activity) + (if m.dosIdle then 0 else 1)
  {
    hide Prepare, Encode, Slice, Inv, Timed;
    PrepareReplying(setup, r, m);
    PrepareShaped(setup, r, m);
    DueIsValid(setup, Prepare(r, m), m);
  }

  // A reply there is, other than of the text screen, due or not.
  ghost predicate Answering(r: Resident) {
    r.session.active && r.outgoing.count > 0 && r.outgoing.opcode != CAPTURE_TEXT_SCREEN
  }

  ghost predicate Sendable(r: Resident) {
    && r.outgoing.length <= |r.workspace| && |r.session.key| == 16
    && r.outgoing.count == |ReplyFragments(r)|
    && forall p :: p in ReplyFragments(r) ==> p.Valid()
  }

  lemma ReplyIsSendable(setup: Setup, r: Resident)
    requires Good(setup, r) && r.outgoing.count > 0
    ensures Sendable(r) && r.outgoing.count <= MAX_RESPONSE_FRAGMENTS
    ensures r.outgoing.pending ==> r.outgoing.next < r.outgoing.count && r.session.active
  {
    hide Inv, Timed;
    var o := r.outgoing;
    FragmentsAreAlike(RESPONSE_FRAGMENT_PAYLOAD, o.kind, o.opcode, r.session.id, o.id, r.workspace[..o.length]);
  }

  lemma MailOne(peer: Peer, key: bytes, packets: seq<Packet>, from: nat, to: nat)
    requires |key| == 16 && (forall p :: p in packets ==> p.Valid()) && from < to <= |packets|
    ensures Mail(peer, key, packets[from..to])
      == [Datagram(peer, Encode(packets[from], key))] + Mail(peer, key, packets[from + 1..to])
  {
    hide Encode;
  }

  // What a decoded packet does to the reply: nothing, set it going again, or put other bytes into
  // the buffer or another session in its place.
  datatype Effect = Nothing | Repeats | Refuses | Stores | Greets

  function EffectOf(r: Resident, packet: DmPacket, from: Peer): Effect {
    hide Value, RequestIsNewer;
    var opcode, count, index := Value(packet.opcode), Value(packet.fragmentCount), Value(packet.fragmentIndex);
    var last, q := r.session.last, Restarted(r.receiving, packet.requestId, opcode, count);
    if Value(packet.kind) != KindNumber(REQUEST) then Nothing
    else if opcode == HELLO && packet.sessionId == 0 then
      if |packet.payload| != 4 || count != 1 then Nothing else Greets
    else if !r.session.active || packet.sessionId != r.session.id || from != r.session.peer then Nothing
    else if last == Some(packet.requestId) then Repeats
    else if last.Some? && !RequestIsNewer(packet.requestId, last.value) then Refuses
    else if count != q.count || opcode != q.opcode
      || index * MAX_FRAGMENT_PAYLOAD + |packet.payload| > REQUEST_BUFFER_SIZE then Nothing
    else Stores
  }

  // What a run of the worker does to the reply by the packet it takes.
  function WorkEffect(setup: Setup, r: Resident, m: Moment): Effect
    requires Good(setup, r) && m.Valid(setup)
  {
    hide Taken, Prepare, EffectOf;
    match Taken(setup, r, m)
    case None => Nothing
    case Some((packet, from)) => EffectOf(Prepare(r, m), packet, from)
  }

  // A run by the packet it takes.
  lemma WorkerTakes(setup: Setup, r: Resident, m: Moment)
    requires Good(setup, r) && m.Valid(setup) && r.enabled
    ensures var p := Prepare(r, m);
      && Shaped(setup, p)
      && (Taken(setup, r, m).Some? ==>
            var (packet, from) := Taken(setup, r, m).value;
            && Decoded(packet) && !p.outgoing.pending && p.session.hello == None
            && Worker(setup, r, m) == ProcessPacket(setup, p, m, packet, from).(slot := None))
      && (Taken(setup, r, m).None? && !p.outgoing.pending ==>
            var w := Worker(setup, r, m);
            w == p.(sent := w.sent, session := p.session.(hello := w.session.hello), slot := w.slot))
  {
    hide Prepare, DuePacket, Shaped, Encode, Filled, DmDecode, ProcessPacket, Value;
    GoodParts(setup, r);
    PrepareShaped(setup, r, m);
    var p := Prepare(r, m);
    ShapedParts(setup, p);
    if p.outgoing.pending {
      DueIsValid(setup, p, m);
    } else if p.session.hello.None? && p.slot.Some? {
      var key := KeyFor(setup, p, p.slot.value.payload);
      if key.Some? && DmDecode(p.slot.value.payload, key.value).Ok? {
        DecodedValid(p.slot.value.payload, key.value);
      }
    }
  }

  // What preparing a run keeps of the reply: all of it, while the session lasts.
  lemma PrepareKeepsReply(r: Resident, m: Moment)
    ensures var p := Prepare(r, m);
      && (p.session.active ==> r.session.active && SameReply(r, p) && p.outgoing == r.outgoing && p.sent == r.sent)
      && (!r.session.active ==> !p.session.active)
      && p.outgoing.opcode == r.outgoing.opcode
  {
    hide GiveUp;
  }

  lemma PacketKeepsReply(setup: Setup, r: Resident, m: Moment, packet: DmPacket, from: Peer)
    requires Shaped(setup, r) && m.Valid(setup) && EffectOf(r, packet, from) in {Nothing, Repeats}
    ensures var r' := ProcessPacket(setup, r, m, packet, from);
      && SameReply(r, r') && r'.session.active == r.session.active && r'.sent == r.sent
      && (EffectOf(r, packet, from) == Repeats ==>
            r.session.active && r'.outgoing.next == 0 && r'.outgoing.pending == (r.outgoing.count != 0)
            && r'.session.activity == r.ticks == r'.ticks)
  {
    hide Value, RequestIsNewer, Written, Inv, AllHere, ResidentWorker.FullBeforeLast, Dispatch;
  }

  /** A run that neither stores a fragment nor serves a refusal or a handshake keeps the reply while the session lasts. */
  lemma WorkKeepsReply(setup: Setup, r: Resident, m: Moment)
    requires Good(setup, r) && m.Valid(setup) && r.enabled && WorkEffect(setup, r, m) in {Nothing, Repeats}
    requires r.outgoing.opcode != CAPTURE_TEXT_SCREEN
    ensures var r' := Worker(setup, r, m);
      && r'.outgoing.opcode == r.outgoing.opcode
      && (r'.session.active ==> r.session.active && SameReply(r, r'))
      && (WorkEffect(setup, r, m) == Repeats ==>
            r'.session.active && SameReply(r, r') && r'.outgoing.next == 0 && r'.sent == r.sent
            && r'.outgoing.pending == (r.outgoing.count != 0) && r'.ticks == r'.session.activity)
  {
    hide Prepare, Shaped, Taken, EffectOf, ProcessPacket, Timed, Encode;
    GoodParts(setup, r);
    WorkerTakes(setup, r, m);
    PrepareKeepsReply(r, m);
    var p := Prepare(r, m);
    match Taken(setup, r, m)
    case Some((packet, from)) => PacketKeepsReply(setup, p, m, packet, from);
    case None =>
      if p.outgoing.pending {
        DueIsValid(setup, p, m);
        ShapedParts(setup, p);
      }
  }

  // The reply to a request, about to go out from its first fragment.
  ghost predicate Delivers(r: Resident, opcode: Opcode, answer: Answer) {
    && r.session.active && r.session.activity == r.ticks && r.session.last == Some(r.outgoing.id)
    && PayloadSize(answer) <= |r.workspace|
    && r.outgoing == Outgoing(if answer.Error? then ERROR else RESPONSE, opcode, r.outgoing.id, PayloadSize(answer),
                              FragmentCount(RESPONSE_FRAGMENT_PAYLOAD, PayloadSize(answer)), 0, true)
    && (!answer.TextScreen? ==> r.workspace[..PayloadSize(answer)] == AnswerBytes(answer))
  }

  lemma AnswerFits(answer: Answer)
    ensures !answer.TextScreen? ==> |AnswerBytes(answer)| == PayloadSize(answer)
  {
    hide PutU16, Ascii;
  }

  lemma DeliverDelivers(r: Resident, world: World, opcode: Opcode, requestId: Word, answer: Answer)
    requires |r.workspace| == REQUEST_BUFFER_SIZE && PayloadSize(answer) <= SCREEN_BUFFER_SIZE
    requires r.session.active && r.session.activity == r.ticks
    ensures var r' := Deliver(r, world, opcode, requestId, answer);
      Delivers(r', opcode, answer) && r'.world == world && r'.outgoing.id == requestId
      && r'.session.peer == r.session.peer && r'.session.key == r.session.key && r'.session.id == r.session.id
      && r'.sent == r.sent
  {
    hide AnswerBytes;
    AnswerFits(answer);
    if !answer.TextScreen? {
      FrontIs(r.workspace, AnswerBytes(answer));
    }
  }

  // What the run hands to `process_request` is answered by `Respond`, and the answer is about to go out.
  lemma DispatchDelivers(setup: Setup, r: Resident, m: Moment)
    requires Good(setup, r) && m.Valid(setup) && r.enabled && Dispatches(setup, r, m).Some?
    ensures var (opcode, p), w, r' := Dispatches(setup, r, m).value, Prepare(r, m).world, Worker(setup, r, m);
      && 1 <= opcode <= 18 && Sized(w.t) && Still(w.t, m.machine.picture) && w.keyboard.Valid()
      && var (w', answer) := Respond(setup.config, m.machine, w, opcode, p);
      && r'.world == w' && Delivers(r', opcode, answer)
      && r'.session.peer == r.session.peer && r'.session.key == r.session.key && r'.session.id == r.session.id
      && r'.sent == r.sent
  {
    hide Prepare, Shaped, Taken, Completes, ProcessPacket, Timed, Worker, Inv, Respond, AnswerBytes, Value, PayloadSize;
    GoodParts(setup, r);
    WorkerTakes(setup, r, m);
    PrepareKeepsReply(r, m);
    var p := Prepare(r, m);
    var (packet, from) := Taken(setup, r, m).value;
    WorldParts(setup, p);
    ShapedParts(setup, p);
    InvParts(setup.picture, p.world.t, p.world.disk);
    PacketDelivers(setup, p, m, packet, from);
  }

  lemma OnlyTextIsRead(config: Config, m: Machine, w: World, opcode: Opcode, p: bytes)
    requires Sized(w.t) && Still(w.t, m.picture) && w.keyboard.Valid() && opcode != CAPTURE_TEXT_SCREEN
    ensures !Respond(config, m, w, opcode, p).1.TextScreen?
  {
    hide Perform, KeyReply, BiosKeys.KeysWellFormed, OperationOf, EmptyKeys;
  }

  lemma PacketDelivers(setup: Setup, r: Resident, m: Moment, packet: DmPacket, from: Peer)
    requires Shaped(setup, r) && m.Valid(setup) && Decoded(packet) && |r.workspace| == REQUEST_BUFFER_SIZE
    requires Completes(setup, r, m, packet, from).Some?
    requires Sized(r.world.t) && Still(r.world.t, m.machine.picture) && r.world.keyboard.Valid()
    ensures var (opcode, p), r' := Completes(setup, r, m, packet, from).value, ProcessPacket(setup, r, m, packet, from);
      && 1 <= opcode <= 18 && r.session.active
      && var (w', answer) := Respond(setup.config, m.machine, r.world, opcode, p);
      && r'.world == w' && Delivers(r', opcode, answer)
      && r'.session.peer == r.session.peer && r'.session.key == r.session.key && r'.session.id == r.session.id
      && r'.sent == r.sent
  {
    hide Value, RequestIsNewer, Written, Inv, AllHere, ResidentWorker.FullBeforeLast, RequestLength, Respond, Deliver, Delivers;
    var (opcode, p) := Completes(setup, r, m, packet, from).value;
    RepliesFit(setup.config, m.machine, r.world, opcode, p);
    var touched := r.(session := r.session.(activity := r.ticks));
    var count, index := Value(packet.fragmentCount), Value(packet.fragmentIndex);
    var q := Restarted(r.receiving, packet.requestId, opcode, count);
    var q' := q.(lengths := q.lengths[index := |packet.payload|]);
    var stored := touched.(receiving := q', workspace := Written(r.workspace, index * MAX_FRAGMENT_PAYLOAD, packet.payload));
    var (w', answer) := Respond(setup.config, m.machine, r.world, opcode, p);
    DeliverDelivers(stored, w', opcode, q.id, answer);
  }

  // --- The exception is real ---

  // A session of this peer with a complete file download, and this datagram in the slot.
  function DownloadDone(key: bytes, peer: Peer, path: Path, content: bytes, id: Word, datagram: bytes): Resident {
    hide Checksums.Crc32;
    Resident(
      true, 0, 0,
      Session(true, 7, peer, key, None, 0, None),
      Outgoing(RESPONSE, PING, 0, 0, 0, 0, false),
      Receiving(0, 0, 0, map[]),
      seq(REQUEST_BUFFER_SIZE, i => 0),
      World(Transfer(ReadFile, id, Some(0), |content|, |content|, Checksums.Crc32(0, content), 0, false, path, [], [], map[]),
            Disk(map[path := content], map[0 := Cursor(path, |content|)], 1, [], true, []),
            Keyboard(None, 0)),
      Some(Frame(datagram, peer)),
      [])
  }

  lemma DownloadDoneIsGood(setup: Setup, key: bytes, peer: Peer, path: Path, content: bytes, id: Word, datagram: bytes)
    requires setup.Valid() && |key| == 16 && |content| <= TSR_FILE_MAX
    ensures Good(setup, DownloadDone(key, peer, path, content, id, datagram))
  {
    hide Checksums.Crc32;
    var r := DownloadDone(key, peer, path, content, id, datagram);
    assert content[..|content|] == content;
    assert r.world.disk.cursors.Keys == {0};
  }

  function GraphicsEndPacket(id: Word): (p: Packet)
    ensures p.Valid()
  {
    hide PutU16;
    Packet(REQUEST, GRAPHICS_END, 7, 1, 0, 1, PutU16(id))
  }

  lemma GraphicsEndDecodes(key: bytes, id: Word)
    requires |key| == 16
    ensures var d := Encode(GraphicsEndPacket(id), key);
      && DmDecode(d, key).Ok? && |d| >= HEADER_SIZE
      && var packet := DmDecode(d, key).value;
      && Value(packet.kind) == 1 && Value(packet.opcode) == GRAPHICS_END && Value(d[4]) == GRAPHICS_END
      && packet.sessionId == 7 && packet.requestId == 1
      && Value(packet.fragmentIndex) == 0 && Value(packet.fragmentCount) == 1 && packet.payload == PutU16(id)
  {
    hide PutU16, Encode, DmDecode, Decode, Value, Low;
    var p := GraphicsEndPacket(id);
    var d := Encode(p, key);
    DecodeEncode(p, key, false);
    assert d + [] == d;
    DecodersAgree(d, key);
    DecodedBytes(d, key);
    ValueLow(1);
    ValueLow(GRAPHICS_END);
    ValueLow(0);
  }

  lemma GraphicsEndDispatched(setup: Setup, key: bytes, peer: Peer, path: Path, content: bytes, id: Word, m: Moment)
    requires setup.Valid() && m.Valid(setup) && |key| == 16 && |content| <= TSR_FILE_MAX && !m.Inside()
    ensures var r := DownloadDone(key, peer, path, content, id, Encode(GraphicsEndPacket(id), key));
      && Good(setup, r)
      && Prepare(r, m).world.t == r.world.t
      && Dispatches(setup, r, m) == Some((GRAPHICS_END, PutU16(id)))
  {
    hide PutU16, Encode, DmDecode, Value, GiveUp, Shaped, Timed;
    var datagram := Encode(GraphicsEndPacket(id), key);
    DownloadDoneIsGood(setup, key, peer, path, content, id, datagram);
    GraphicsEndDecodes(key, id);
    var r := DownloadDone(key, peer, path, content, id, datagram);
    var packet := DmDecode(datagram, key).value;
    var p := Prepare(r, m);
    CompletesAtOnce(setup, p, m, packet, peer, PutU16(id));
  }

  // A one-fragment request with a new identifier is complete as it comes.
  lemma CompletesAtOnce(setup: Setup, r: Resident, m: Moment, packet: DmPacket, from: Peer, payload: bytes)
    requires |r.workspace| == REQUEST_BUFFER_SIZE && packet.payload == payload && |payload| <= MAX_FRAGMENT_PAYLOAD
    requires Value(packet.kind) == KindNumber(REQUEST) && Value(packet.opcode) != HELLO
    requires r.session.active && packet.sessionId == r.session.id && from == r.session.peer && r.session.last == None
    requires Value(packet.fragmentCount) == 1 && Value(packet.fragmentIndex) == 0 && packet.requestId != r.receiving.id
    ensures Completes(setup, r, m, packet, from) == Some((Value(packet.opcode), payload))
  {
    hide Value, RequestIsNewer;
    assert Written(r.workspace, 0, payload)[..|payload|] == payload;
  }

  /**
   A file download that is complete, and the end of a graphics capture that names it: the file is
   closed in a run from the timer, where DOS may not be entered.
   */
  lemma GraphicsEndClosesFile(setup: Setup, key: bytes, peer: Peer, path: Path, content: bytes, id: Word, m: Moment)
      returns (r: Resident)
    requires setup.Valid() && m.Valid(setup) && |key| == 16 && |content| <= TSR_FILE_MAX && !m.Inside()
    ensures Good(setup, r)
    ensures var d, d' := r.world.disk, Worker(setup, r, m).world.disk;
      |d.trace| <= |d'.trace| && NewCalls(d, d') == [Call(CLOSE, false)]
  {
    hide PutU16, GetU16, Encode, Prepare, Dispatches, Worker, Shaped, Timed;
    r := DownloadDone(key, peer, path, content, id, Encode(GraphicsEndPacket(id), key));
    GraphicsEndDispatched(setup, key, peer, path, content, id, m);
    GoodParts(setup, r);
    CallsAreGated(setup, r, m);
    U16RoundTrip(id);
    assert PutU16(id)[..2] == PutU16(id);
  }

  // --- What ends with a session ---

  // Whether a run still finds the session: it ends 546 ticks after the last request of its peer.
  predicate FindsSession(r: Resident, m: Moment) {
    var ticks := if m.dosIdle then r.ticks else (r.ticks + 1) % 0x1_0000;
    r.session.active && (ticks - r.session.activity) % 0x1_0000 < 546
  }

  lemma SessionFound(r: Resident, m: Moment)
    ensures Prepare(r, m).session.active == FindsSession(r, m)
  {
    hide GiveUp;
  }

  /**
   A run that finds no session and may enter DOS leaves no transfer: what the last session left is
   given up, and nothing but a hello is served.
   */
  lemma NoSessionNoTransfer(setup: Setup, r: Resident, m: Moment)
    requires Shaped(setup, r) && m.Valid(setup) && r.enabled && m.Inside() && !FindsSession(r, m)
    ensures Worker(setup, r, m).world.t.kind == NoTransfer
  {
    hide Shaped, Process, Emit, DuePacket, GiveUp, FindsSession, Authentic;
    SessionFound(r, m);
    PrepareShaped(setup, r, m);
    var p := Prepare(r, m);
    GivenUpEnds(r, m);
    NothingDue(setup, p);
    if p.slot.Some? {
      NoSessionKeepsWorld(setup, p, m, p.slot.value);
    }
  }

  lemma GivenUpEnds(r: Resident, m: Moment)
    requires m.Inside() && !Prepare(r, m).session.active
    ensures Prepare(r, m).world.t.kind == NoTransfer
  {
    hide Close, Remove;
  }

  lemma NothingDue(setup: Setup, r: Resident)
    requires Shaped(setup, r) && !r.session.active
    ensures !r.outgoing.pending
  {
  }

  lemma NoSessionKeepsWorld(setup: Setup, r: Resident, m: Moment, frame: Frame)
    requires Shaped(setup, r) && m.Valid(setup) && !r.session.active
    ensures Process(setup, r, m, frame).world == r.world
  {
    hide Shaped, DmDecode, ProcessSession, Value, SessionId, Encode, PutU16, DerivedKey;
  }

  lemma ProcessSends(setup: Setup, r: Resident, m: Moment, frame: Frame)
    requires Shaped(setup, r) && m.Valid(setup)
    ensures var next := Process(setup, r, m, frame);
      next.sent == r.sent && next.ticks == r.ticks && next.discoveryTick == r.discoveryTick
  {
    hide Shaped, DmDecode, Value, SessionId, Encode, PutU16, DerivedKey, Respond, Written, FragmentCount, AnswerBytes;
    hide RequestIsNewer, AllHere, ResidentWorker.FullBeforeLast, RequestLength, WithReply;
  }

  lemma EmitSends(r: Resident, m: Moment)
    requires r.outgoing.length <= |r.workspace| && DuePacket(r, m).Valid() && |r.session.key| == 16
    ensures var next := Emit(r, m);
      && next.ticks == r.ticks && next.discoveryTick == r.discoveryTick
      && next.sent == r.sent + [Datagram(r.session.peer, Encode(DuePacket(r, m), r.session.key))]
  {
    hide Encode, DuePacket, Filled;
  }

  lemma PreparedSends(r: Resident, m: Moment)
    ensures var (p, ticks) := (Prepare(r, m), if m.dosIdle then r.ticks else (r.ticks + 1) % 0x1_0000);
      var announced := !FindsSession(r, m) && (ticks - r.discoveryTick) % 0x1_0000 >= 91;
      && p.ticks == ticks && p.discoveryTick == (if announced then ticks else r.discoveryTick)
      && p.sent == r.sent + if announced then [Announcement] else []
  {
    hide GiveUp;
  }

  /** An announcement goes out exactly on a run that finds no session, 91 ticks after the last one. */
  lemma AnnouncedExactly(setup: Setup, r: Resident, m: Moment)
    requires Shaped(setup, r) && m.Valid(setup) && r.enabled
    ensures var next := Worker(setup, r, m);
      var ticks := if m.dosIdle then r.ticks else (r.ticks + 1) % 0x1_0000;
      var announced := !FindsSession(r, m) && (ticks - r.discoveryTick) % 0x1_0000 >= 91;
      && next.ticks == ticks && next.discoveryTick == (if announced then ticks else r.discoveryTick)
      && |r.sent| <= |next.sent| && next.sent[..|r.sent|] == r.sent
      && (Announcement in next.sent[|r.sent|..] <==> announced)
  {
    hide Shaped, Process, Emit, DuePacket, Prepare, Authentic, FindsSession, Encode;
    PrepareShaped(setup, r, m);
    var p := Prepare(r, m);
    PreparedSends(r, m);
    var next := Worker(setup, r, m);
    var extra: seq<Sending> := [];
    if p.outgoing.pending {
      DueIsValid(setup, p, m);
      ShapedParts(setup, p);
      EmitSends(p, m);
      extra := [Datagram(p.session.peer, Encode(DuePacket(p, m), p.session.key))];
    } else if p.session.hello.Some? {
      extra := [Datagram(p.session.peer, p.session.hello.value)];
    } else if p.slot.Some? {
      ProcessSends(setup, p, m, p.slot.value);
    }
    assert next.sent == p.sent + extra && Announcement !in extra;
    assert next.sent[|r.sent|..] == p.sent[|r.sent|..] + extra;
  }

  /** The first run after an installation announces the agent, whatever interrupt it comes from. */
  lemma InstalledAnnounces(setup: Setup, nobody: Peer, workspace: bytes, world: World, m: Moment)
    requires Shaped(setup, Installed(nobody, workspace, world)) && m.Valid(setup)
    ensures Announcement in Worker(setup, Installed(nobody, workspace, world), m).sent
  {
    hide Shaped, Worker;
    var r := Installed(nobody, workspace, world);
    AnnouncedExactly(setup, r, m);
    var next := Worker(setup, r, m);
    assert Announcement in next.sent[|r.sent|..];
  }

  /**
   A frame stays in the slot exactly when it is an authentic file request, other than the abort of a
   capture, and DOS may not be entered; every other frame is dealt with at once.
   */
  lemma HeldExactly(setup: Setup, r: Resident, m: Moment, frame: Frame)
    requires Shaped(setup, r) && m.Valid(setup) && r.enabled && r.slot == Some(frame)
    requires !Prepare(r, m).outgoing.pending && Prepare(r, m).session.hello.None?
    ensures var p, d := Prepare(r, m), frame.payload;
      Shaped(setup, p) && Worker(setup, r, m).slot ==
        if !m.Inside() && |d| >= 20 && 8 <= Value(d[4]) <= 14 && !(Value(d[4]) == 14 && p.world.t.kind == ReadScreen)
           && p.session.active && DmDecode(d, p.session.key).Ok?
        then Some(frame) else None
  {
    hide Shaped, Process, Emit, DuePacket, Prepare, Value, DmDecode;
    PrepareShaped(setup, r, m);
    ShapedParts(setup, Prepare(r, m));
  }
}
