/**
 What the agent makes of each operation of the protocol when it succeeds, with the requests and the
 replies in the bytes the bridge sends and reads.
 */
module AgentAnswers {
  import opened AgentServer
  import opened AgentTransfers
  import opened BiosKeys
  import opened Bytes
  import opened Checksums
  import opened DosFiles
  import opened DosPaths
  import opened PacketCodec
  import opened PacketMac
  import opened Packets
  import opened ResidentReplies
  import opened TransferSafety
  import opened Wrappers
  import M = TransferMessages
  import SessionKeys
  import T = TransferSpec

  // What the bridge hears in an answer.
  function Heard(opcode: Opcode, answer: Answer): T.Reply {
    hide AnswerBytes, M.Read;
    M.Read(opcode, if answer.Error? then ERROR else RESPONSE, AnswerBytes(answer))
  }

  ghost predicate Ready(m: Machine, w: World) {
    hide Inv;
    Inv(m.picture, w.t, w.disk) && w.keyboard.Valid()
  }

  // The answer to a request as the bridge sends it.
  function Answer(config: Config, m: Machine, w: World, request: T.Request, name: bytes): (World, ResidentReplies.Answer)
    requires Ready(m, w) && M.Sendable(request, name)
  {
    hide M.Sent, Respond, Inv;
    InvParts(m.picture, w.t, w.disk);
    var sent := M.Sent(request, name);
    Respond(config, m, w, sent.opcode, sent.payload)
  }

  // `ErrorCode` of the bridge.
  const UNSUPPORTED_OPERATION: Word := 5
  const INVALID_ARGUMENT: Word := 6
  const DENIED: Word := 7
  const INTEGRITY_FAILURE: Word := 11

  // --- Operations that are no transfers ---

  /** Status, capabilities, diagnostics and the screen are asked for with no payload; a ping is echoed. */
  lemma PlainAnswers(config: Config, m: Machine, w: World, p: bytes)
    requires Ready(m, w)
    ensures Respond(config, m, w, GET_STATUS, []) == (w, Reply(m.status))
    ensures Respond(config, m, w, GET_CAPABILITIES, []) == (w, Reply(m.capabilities))
    ensures Respond(config, m, w, CAPTURE_TEXT_SCREEN, []) == (w, TextScreen(13 + m.cells))
    ensures Respond(config, m, w, GET_DIAGNOSTICS, []) == (w, Reply(m.diagnostics))
    ensures |p| <= 4013 ==> Respond(config, m, w, PING, p) == (w, Reply(p))
    ensures |p| > 4013 ==> Respond(config, m, w, PING, p) == (w, Error(6, "ping payload too large"))
    ensures p != [] ==> forall opcode | opcode in {GET_STATUS, GET_CAPABILITIES, CAPTURE_TEXT_SCREEN, GET_DIAGNOSTICS} ::
      var (after, answer) := Respond(config, m, w, opcode, p); after == w && answer.Error? && answer.code == 6
    ensures forall opcode | opcode in {HELLO, CANCEL} ::
      Respond(config, m, w, opcode, p) == (w, Error(5, "unsupported operation"))
  {
  }

  /** A transfer request that is refused changes no key, and its code says why in the bridge's terms. */
  lemma RefusalsSay(config: Config, m: Machine, w: World, opcode: Opcode, p: bytes)
    requires Ready(m, w) && FILE_READ_BEGIN <= opcode <= GRAPHICS_END && Respond(config, m, w, opcode, p).1.Error?
    ensures var (after, answer) := Respond(config, m, w, opcode, p);
      && after.keyboard == w.keyboard
      && answer.code == (if opcode == FILE_WRITE_BEGIN then DENIED
                         else if opcode == FILE_WRITE_COMMIT then INTEGRITY_FAILURE
                         else if opcode == GRAPHICS_BEGIN then UNSUPPORTED_OPERATION
                         else INVALID_ARGUMENT)
  {
    hide Perform;
  }

  /** Keys: what was accepted stands in the ring behind what it held, and the reply says how much. */
  lemma KeysAnswered(config: Config, m: Machine, w: World, request: KeyRequest, p: bytes)
    requires Ready(m, w) && w.keyboard.queue.Some? && KeysWellFormed(p) && KeysOf(p) == request
    requires request.text != [] || request.keys != []
    ensures var (after, answer) := Respond(config, m, w, SEND_KEYS, p);
      var q := w.keyboard.queue.value;
      var text, keys := AcceptedText(q, request), AcceptedKeys(q, request);
      && after.t == w.t && after.disk == w.disk
      && after.keyboard.queue == Some(q + TextWords(request.text)[..text] + KeyWords(request.keys)[..keys])
      && (keys > 0 ==> text == |request.text|)
      && answer == Reply(PutU16(text) + [Low(keys)] + PutU16((w.keyboard.generation + 1) % 0x1_0000))
  {
    hide PutU16, Low, GetU16, Value, TextWords, KeyWords, KeysWellFormed;
    PrefixesAccepted(w.keyboard.queue.value, request);
  }

  // --- Transfers ---

  // The step a request is served by.
  function Operation(request: T.Request, drawn: Word): TransferSafety.Operation {
    match request
    case ReadBegin(source) => if source.Graphics? then GraphicsBeginOp(drawn) else ReadBeginOp(drawn)
    case ReadBlock(graphics, _, _, _) => if graphics then GraphicsBlockOp else ReadBlockOp
    case ReadEnd(graphics, _) => EndOp(graphics)
    case WriteBegin(_, _, _, _) => WriteBeginOp(drawn)
    case WriteBlock(_, _, _) => WriteBlockOp
    case WriteCommit(_) => CommitOp
    case Abort(_) => AbortOp
  }

  lemma OpcodeOf(request: T.Request, name: bytes, drawn: Word)
    requires M.Sendable(request, name)
    ensures var found := OperationOf(M.Sent(request, name).opcode, drawn);
      found.Some? && found.value.0 == Operation(request, drawn)
  {
    hide PutU16, PutU32, WordBytes, Low;
  }

  lemma AnswerIsStep(config: Config, m: Machine, w: World, request: T.Request, name: bytes)
    requires Ready(m, w) && M.Sendable(request, name)
    ensures Sized(w.t) && Still(w.t, m.picture)
    ensures var s := Perform(config, m.picture, w.t, w.disk, Operation(request, m.drawn), M.Sent(request, name).payload);
      var (after, answer) := Answer(config, m, w, request, name);
      && after == w.(t := s.t, disk := s.disk)
      && match s.reply { case Some(r) => answer == Reply(r) case None => answer.Error? }
  {
    hide Inv, Perform, M.Sent;
    InvParts(m.picture, w.t, w.disk);
    OpcodeOf(request, name, m.drawn);
  }

  // --- The bridge's reading ---

  // A picture's description says how many bytes it has.
  ghost predicate Described(picture: Picture) {
    hide GetU32;
    |picture.description| == 16 && GetU32(picture.description[8..12]) == |picture.data|
  }

  // The agent gives a name its own full name.
  function Naming(config: Config): bytes -> bytes {
    (name: bytes) => Named(config, name)
  }

  // A payload of the shape an operation takes.
  predicate Formed(op: TransferSafety.Operation, p: bytes) {
    hide GetU16, Value;
    match op
    case ReadBeginOp(_) => |p| > 0 && |p| == Value(p[0]) + 1
    case GraphicsBeginOp(_) => p == []
    case WriteBeginOp(_) => |p| >= 10 && |p| == Value(p[9]) + 10 && Value(p[0]) <= 1
    case WriteBlockOp => |p| >= 8 && |p| == GetU16(p[6..8]) + 8
    case ReadBlockOp => |p| == 8
    case GraphicsBlockOp => |p| == 8
    case _ => |p| == 2
  }

  lemma FormedAlike(config: Config, opcode: Opcode, drawn: Word, p: bytes)
    requires OperationOf(opcode, drawn).Some? && Formed(OperationOf(opcode, drawn).value.0, p)
    ensures M.Asked(M.Message(opcode, p), Naming(config)) == Asked(config, OperationOf(opcode, drawn).value.0, p)
  {
    hide GetU16, GetU32, Value, Named, Word32;
  }

  lemma MalformedIsRefused(config: Config, op: TransferSafety.Operation, p: bytes, picture: Option<Picture>, t: Transfer,
                           disk: Disk)
    requires !op.ExpireOp? && !Formed(op, p) && Sized(t) && Still(t, picture)
    ensures Perform(config, picture, t, disk, op, p) == Step(t, disk, None)
  {
    hide GetU16, GetU32, Value, BuildPath, StartRead, StartWrite, SentBlock, ReplaceFile, CloseTransfer, Open;
  }

  // A message of this opcode that is well-formed asks for what the operation does; any other is refused.
  lemma AskedAlike(config: Config, opcode: Opcode, drawn: Word, p: bytes, picture: Option<Picture>, t: Transfer,
                   disk: Disk)
    requires OperationOf(opcode, drawn).Some? && Sized(t) && Still(t, picture)
    ensures var op := OperationOf(opcode, drawn).value.0;
      && !op.ExpireOp?
      && (|| M.Asked(M.Message(opcode, p), Naming(config)) == Asked(config, op, p)
          || Perform(config, picture, t, disk, op, p) == Step(t, disk, None))
  {
    hide Formed, Perform, M.Asked, Asked;
    var op := OperationOf(opcode, drawn).value.0;
    if Formed(op, p) {
      FormedAlike(config, opcode, drawn, p);
    } else {
      MalformedIsRefused(config, op, p, picture, t, disk);
    }
  }

  // What the bridge reads is what the reply says.
  lemma ReadAlike(opcode: Opcode, drawn: Word, picture: Option<Picture>, kind: Kind, payload: bytes, says: T.Reply)
    requires OperationOf(opcode, drawn).Some? && kind != REQUEST && (says.Begun? ==> says.id != 0)
    requires var op := OperationOf(opcode, drawn).value.0;
      && Says(op, if kind == ERROR then None else Some(payload), says)
      && (op.GraphicsBeginOp? && says.Begun? ==>
            && picture.Some? && Described(picture.value) && says.size == |picture.value.data|
            && payload == PutU16(says.id) + picture.value.description)
    ensures says == M.Read(opcode, kind, payload)
  {
    hide GetU16, GetU32, PutU16, PutU32, Word32, WordBytes;
    if kind == RESPONSE {
      match OperationOf(opcode, drawn).value.0
      case AbortOp =>
      case GraphicsBeginOp(_) =>
        U16RoundTrip(says.id);
        assert payload[..2] == PutU16(says.id) && payload[10..14] == picture.value.description[8..12];
      case EndOp(_) => HeardEnd(says.size, says.crc, payload);
      case CommitOp => HeardEnd(says.size, says.crc, payload);
      case ReadBeginOp(_) => HeardBegin(says.id, says.size, payload);
      case WriteBeginOp(_) => HeardBegin(says.id, says.size, payload);
      case ReadBlockOp => HeardBlock(says.id, says.offset, says.data, says.crc, payload);
      case GraphicsBlockOp => HeardBlock(says.id, says.offset, says.data, says.crc, payload);
      case WriteBlockOp => HeardBlock(says.id, says.offset, says.data, says.crc, payload);
    }
  }

  lemma HeardBegin(id: Word, size: Long, p: bytes)
    requires p == BeginReply(id, size)
    ensures |p| == 6 && GetU16(p[..2]) == id && GetU32(p[2..6]) == size
  {
    hide GetU16, GetU32, PutU16, PutU32;
    assert p[..2] == PutU16(id) && p[2..6] == PutU32(size);
    U16RoundTrip(id);
    U32RoundTrip(size);
  }

  lemma HeardEnd(size: Long, crc: bv32, p: bytes)
    requires p == EndReply(size, crc)
    ensures |p| == 8 && GetU32(p[..4]) == size && Word32(p[4..8]) == crc
  {
    hide GetU32, PutU32, Word32, WordBytes;
    assert p[..4] == PutU32(size) && p[4..8] == WordBytes(crc);
    U32RoundTrip(size);
    SessionKeys.WordOfBytes(crc);
  }

  lemma HeardBlock(id: Word, offset: Long, data: bytes, crc: bv32, p: bytes)
    requires |data| < 0x1_0000 && p == BlockReply(id, offset, data, crc)
    ensures |p| == 12 + |data| && GetU16(p[..2]) == id && GetU32(p[2..6]) == offset
    ensures GetU16(p[6..8]) == |data| && Word32(p[8..12]) == crc && p[12..] == data
  {
    hide GetU16, GetU32, PutU16, PutU32, Word32, WordBytes;
    assert p[..2] == PutU16(id) && p[2..6] == PutU32(offset) && p[6..8] == PutU16(|data|);
    assert p[8..12] == WordBytes(crc) && p[12..] == data;
    U16RoundTrip(id);
    U32RoundTrip(offset);
    U16RoundTrip(|data|);
    SessionKeys.WordOfBytes(crc);
  }

  // --- What each transfer request does when it succeeds ---

  // What a download reads.
  ghost function Content(m: Machine, w: World): bytes
    requires Ready(m, w) && (w.t.kind == ReadFile || w.t.kind == ReadScreen)
  {
    hide Crc32;
    if w.t.kind == ReadFile then w.disk.files[w.t.path] else m.picture.value.data
  }

  /** A file is opened and measured: the reply says how long it is. */
  lemma ReadBegins(config: Config, m: Machine, w: World, name: bytes, path: Path)
    requires Ready(m, w) && w.t.kind == NoTransfer && config.allowRead
    requires 1 <= |name| <= 80 && BuildPath(config, name) == Some(path)
    requires path in w.disk.files && |w.disk.files[path]| <= TSR_FILE_MAX
    requires !FateAt(w.disk, 0).Fails? && !FateAt(w.disk, 1).Fails? && !FateAt(w.disk, 2).Fails?
    ensures var (after, answer) := Answer(config, m, w, T.ReadBegin(T.File(path)), name);
      && Ready(m, after) && after.disk.files == w.disk.files
      && after.t.kind == ReadFile && after.t.path == path && after.t.offset == 0
      && Heard(FILE_READ_BEGIN, answer) == T.Begun(if m.drawn == 0 then 1 else m.drawn, |w.disk.files[path]|)
  {
    hide Inv, BuildPath, Crc32, BeginReply, GetU16, GetU32, Value, Word32, Answer, M.Sent;
    var request := T.ReadBegin(T.File(path));
    var p := M.Sent(request, name).payload;
    M.SentHolds(request, name);
    AnswerIsStep(config, m, w, request, name);
    BeginReadKeeps(config, m.picture, w.t, w.disk, p, m.drawn);
    var (d, handle) := Open(w.disk, path);
    OpensAndMeasures(w.disk, path);
    var reply := Perform(config, m.picture, w.t, w.disk, ReadBeginOp(m.drawn), p).reply.value;
    HeardBegin(NextTransferId(m.drawn), |w.disk.files[path]|, reply);
  }

  lemma OpensAndMeasures(d: Disk, path: Path)
    requires path in d.files && !FateAt(d, 0).Fails? && !FateAt(d, 1).Fails? && !FateAt(d, 2).Fails?
    ensures var (d1, handle) := Open(d, path);
      handle.Some? && Size(d1, handle.value).1 == Some(|d.files[path]|)
  {
    var d1 := Open(d, path).0;
    assert NextFate(d1) == FateAt(d, 1);
    assert NextFate(Noted(d1, SEEK)) == FateAt(d, 2);
  }

  // No call fails, and each moves a whole block.
  predicate Smooth(d: Disk) {
    SmoothFates(d.fates)
  }

  predicate SmoothFates(fates: seq<Fate>) {
    forall f :: f in fates ==> f.Moves? && f.limit >= TRANSFER_BLOCK_MAX
  }

  lemma SmoothGoesOn(d: Disk, k: nat)
    requires Smooth(d)
    ensures !FateAt(d, k).Fails? && FateAt(d, k).limit >= TRANSFER_BLOCK_MAX
  {
    if k < |d.fates| {
      assert d.fates[k] in d.fates;
    }
  }

  // A name for the temporary that no file has, among the sixteen the agent tries.
  predicate HasTempName(config: Config, d: Disk, path: Path, id: Word) {
    hide TempPrefix, TempName;
    && TempPrefix(config, path).Some?
    && exists attempt | 0 <= attempt < 16 ::
         var name := TempName(TempPrefix(config, path).value, id, attempt); name != path && name !in d.files
  }

  lemma {:induction false} TempIsFound(d: Disk, prefix: bytes, path: Path, id: Word, attempt: nat, free: nat)
    requires attempt <= free < 16 && Smooth(d)
    requires TempName(prefix, id, free) != path && TempName(prefix, id, free) !in d.files
    ensures CreateTemp(d, prefix, path, id, attempt).1.Some?
    decreases 16 - attempt
  {
    hide TempName;
    var name := TempName(prefix, id, attempt);
    SmoothGoesOn(d, 0);
    if name == path {
      TempIsFound(d, prefix, path, id, attempt + 1, free);
    } else if name in d.files {
      TempIsFound(CreateNew(d, name).0, prefix, path, id, attempt + 1, free);
    }
  }

  /** A name that is free, or may be replaced, is accepted: an empty temporary stands beside the files. */
  lemma WriteBegins(config: Config, m: Machine, w: World, name: bytes, path: Path, size: Long, crc: bv32, overwrite: bool)
    requires Ready(m, w) && w.t.kind == NoTransfer && config.allowWrite && Smooth(w.disk)
    requires 1 <= |name| <= 80 && BuildPath(config, name) == Some(path) && size <= TSR_FILE_MAX
    requires overwrite || path !in w.disk.files
    requires HasTempName(config, w.disk, path, NextTransferId(m.drawn))
    ensures var (after, answer) := Answer(config, m, w, T.WriteBegin(path, size, crc, overwrite), name);
      && Ready(m, after) && after.t.temp !in w.disk.files && after.disk.files == w.disk.files[after.t.temp := []]
      && after.t.kind == WriteFile && after.t.path == path && after.t.accepted == [] && after.t.size == size
      && after.t.expected == crc && after.t.overwrite == overwrite
      && Heard(FILE_WRITE_BEGIN, answer) == T.Begun(if m.drawn == 0 then 1 else m.drawn, size)
  {
    hide Inv, BuildPath, Crc32, BeginReply, GetU16, GetU32, Value, Word32, Answer, M.Sent;
    hide TempPrefix, TempName, CreateTemp;
    var request, id := T.WriteBegin(path, size, crc, overwrite), NextTransferId(m.drawn);
    var p := M.Sent(request, name).payload;
    M.SentHolds(request, name);
    AnswerIsStep(config, m, w, request, name);
    BeginWriteKeeps(config, m.picture, w.t, w.disk, p, m.drawn);
    var d := if overwrite then w.disk else Open(w.disk, path).0;
    var prefix := TempPrefix(config, path).value;
    var free :| 0 <= free < 16 && TempName(prefix, id, free) != path && TempName(prefix, id, free) !in d.files;
    TempIsFound(d, prefix, path, id, 0, free);
    MakeTempIsNew(config, d, path, id);
    var reply := Perform(config, m.picture, w.t, w.disk, WriteBeginOp(m.drawn), p).reply.value;
    HeardBegin(id, size, reply);
  }

  /** A capture begins with the screen in a picture's mode: the reply describes it. */
  lemma GraphicsBegins(config: Config, m: Machine, w: World)
    requires Ready(m, w) && w.t.kind == NoTransfer && m.picture.Some? && Described(m.picture.value)
    ensures var (after, answer) := Answer(config, m, w, T.ReadBegin(T.Graphics), []);
      && Ready(m, after) && after.disk == w.disk && after.t.kind == ReadScreen && after.t.offset == 0
      && answer == Reply(PutU16(if m.drawn == 0 then 1 else m.drawn) + m.picture.value.description)
      && Heard(GRAPHICS_BEGIN, answer) == T.Begun(if m.drawn == 0 then 1 else m.drawn, |m.picture.value.data|)
  {
    hide Inv, Crc32, GetU16, GetU32, PutU16, Answer, M.Sent;
    var id, picture := NextTransferId(m.drawn), m.picture.value;
    M.SentHolds(T.ReadBegin(T.Graphics), []);
    AnswerIsStep(config, m, w, T.ReadBegin(T.Graphics), []);
    GraphicsKeeps(m.picture, w.t, w.disk, [], m.drawn);
    var p := PutU16(id) + picture.description;
    U16RoundTrip(id);
    assert p[..2] == PutU16(id) && p[10..14] == picture.description[8..12];
    assert Heard(GRAPHICS_BEGIN, Reply(p)) == M.Read(GRAPHICS_BEGIN, RESPONSE, p);
  }

  // What a begin cannot be served for: permission, a transfer under way, the name, or what it names.
  predicate Hopeless(config: Config, m: Machine, w: World, request: T.Request, name: bytes) {
    hide BuildPath;
    match request
    case ReadBegin(Graphics) => w.t.kind != NoTransfer || m.picture.None?
    case ReadBegin(File(_)) =>
      || !config.allowRead || w.t.kind != NoTransfer || BuildPath(config, name).None?
      || BuildPath(config, name).value !in w.disk.files
      || |w.disk.files[BuildPath(config, name).value]| > TSR_FILE_MAX
    case WriteBegin(_, size, _, overwrite) =>
      || !config.allowWrite || w.t.kind != NoTransfer || size > TSR_FILE_MAX || BuildPath(config, name).None?
      || (!overwrite && BuildPath(config, name).value in w.disk.files && !FateAt(w.disk, 0).Fails?)
    case _ => false
  }

  /** Such a begin is refused, and neither the files nor a transfer under way change. */
  lemma HopelessIsRefused(config: Config, m: Machine, w: World, request: T.Request, name: bytes)
    requires Ready(m, w) && M.Sendable(request, name) && Hopeless(config, m, w, request, name)
    ensures var (after, answer) := Answer(config, m, w, request, name);
      && Heard(M.Sent(request, name).opcode, answer) == T.Refused
      && after.disk.files == w.disk.files && after.t.kind == w.t.kind && (w.t.kind != NoTransfer ==> after.t == w.t)
  {
    hide Answer, M.Sent, Inv, Perform, Hopeless, M.Holds;
    M.SentHolds(request, name);
    AnswerIsStep(config, m, w, request, name);
    StepRefused(config, m, w, request, name, M.Sent(request, name).payload);
  }

  lemma StepRefused(config: Config, m: Machine, w: World, request: T.Request, name: bytes, p: bytes)
    requires Ready(m, w) && M.Sendable(request, name) && Hopeless(config, m, w, request, name) && M.Holds(request, name, p)
    ensures Sized(w.t) && Still(w.t, m.picture)
    ensures var s := Perform(config, m.picture, w.t, w.disk, Operation(request, m.drawn), p);
      s.reply == None && s.disk.files == w.disk.files && s.t.kind == w.t.kind && (w.t.kind != NoTransfer ==> s.t == w.t)
  {
    hide Inv, BeginReply, GetU16, GetU32, Value, Word32, BuildPath, MakeTemp, Size, StartRead;
    InvParts(m.picture, w.t, w.disk);
    if request.ReadBegin? && request.source.File? && BuildPath(config, name).Some? {
      var path := BuildPath(config, name).value;
      if path in w.disk.files && |w.disk.files[path]| > TSR_FILE_MAX && w.t.kind == NoTransfer {
        var (d, handle) := Open(w.disk, path);
        if handle.Some? {
          SizeMeasures(d, handle.value);
          TooLargeCloses(w.t.(path := path, handle := handle), Size(d, handle.value), m.drawn);
        }
      }
    }
  }

  lemma TooLargeCloses(t: Transfer, measured: (Disk, Option<nat>), drawn: Word)
    requires t.kind == NoTransfer && (measured.1.Some? ==> measured.1.value > TSR_FILE_MAX)
    ensures var s := StartRead(t, measured, drawn);
      s.reply == None && s.disk.files == measured.0.files && s.t.kind == NoTransfer
  {
  }

  // Where a block of so many bytes ends: at the end of what is read at the latest, and a file's
  // where DOS stops giving.
  ghost function BlockEnd(w: World, length: nat): int {
    var wanted := Min(length, w.t.size - w.t.offset);
    w.t.offset + if w.t.kind == ReadFile && NextFate(w.disk).Moves? then Min(wanted, NextFate(w.disk).limit) else wanted
  }

  lemma WantsBlock(t: Transfer, length: Word, p: bytes)
    requires 1 <= length <= T.MAX_BLOCK && t.offset < t.size
    requires |p| == 8 && GetU16(p[..2]) == t.id && GetU32(p[2..6]) == t.offset && GetU16(p[6..8]) == length
    ensures Wanted(t, p) == Some(Min(length, t.size - t.offset))
  {
    hide GetU16, GetU32;
  }

  // What a file has left from where its handle stands, as far as DOS goes.
  lemma ReadGives(d: Disk, handle: nat, path: Path, at: nat, count: nat)
    requires handle in d.cursors && d.cursors[handle] == Cursor(path, at) && path in d.files && at <= |d.files[path]|
    requires NextFate(d).Moves? && at + count <= |d.files[path]|
    ensures var end := at + Min(count, NextFate(d).limit);
      var (after, data) := Read(d, handle, count);
      after.files == d.files && data == Some(d.files[path][at..end])
  {
  }

  lemma FileBlock(config: Config, m: Machine, w: World, p: bytes)
    requires Ready(m, w) && w.t.kind == ReadFile && Wanted(w.t, p).Some?
    requires NextFate(w.disk).Moves? && NextFate(w.disk).limit > 0
    ensures var s := Perform(config, m.picture, w.t, w.disk, ReadBlockOp, p);
      var end := w.t.offset + Min(Wanted(w.t, p).value, NextFate(w.disk).limit);
      && w.t.offset < end <= |Content(m, w)|
      && var data := Content(m, w)[w.t.offset..end];
      && s.t == w.t.(offset := end, crc := Crc32(w.t.crc, data)) && s.disk.files == w.disk.files
      && s.reply == Some(BlockReply(w.t.id, w.t.offset, data, s.t.crc))
  {
    hide Crc32, BlockReply, Wanted, Read;
    ReadGives(w.disk, w.t.handle.value, w.t.path, w.t.offset, Wanted(w.t, p).value);
  }

  lemma ScreenBlock(config: Config, m: Machine, w: World, p: bytes)
    requires Ready(m, w) && w.t.kind == ReadScreen && Wanted(w.t, p).Some?
    ensures var s := Perform(config, m.picture, w.t, w.disk, GraphicsBlockOp, p);
      var end := w.t.offset + Wanted(w.t, p).value;
      && w.t.offset < end <= |Content(m, w)|
      && var data := Content(m, w)[w.t.offset..end];
      && s.t == w.t.(offset := end, crc := Crc32(w.t.crc, data)) && s.disk == w.disk
      && s.reply == Some(BlockReply(w.t.id, w.t.offset, data, s.t.crc))
  {
    hide Crc32, BlockReply, Wanted;
  }

  lemma GivesBlock(config: Config, m: Machine, w: World, length: Word, p: bytes)
    requires Ready(m, w) && (w.t.kind == ReadFile || w.t.kind == ReadScreen)
    requires 1 <= length <= T.MAX_BLOCK && w.t.offset < w.t.size
    requires |p| == 8 && GetU16(p[..2]) == w.t.id && GetU32(p[2..6]) == w.t.offset && GetU16(p[6..8]) == length
    requires w.t.kind == ReadFile ==> NextFate(w.disk).Moves? && NextFate(w.disk).limit > 0
    ensures var op := if w.t.kind == ReadScreen then GraphicsBlockOp else ReadBlockOp;
      var (s, end) := (Perform(config, m.picture, w.t, w.disk, op, p), BlockEnd(w, length));
      && w.t.offset < end <= |Content(m, w)| && end - w.t.offset <= length
      && var data := Content(m, w)[w.t.offset..end];
      && s.t == w.t.(offset := end, crc := Crc32(w.t.crc, data)) && s.disk.files == w.disk.files
      && (w.t.kind == ReadScreen ==> s.disk == w.disk)
      && s.reply == Some(BlockReply(w.t.id, w.t.offset, data, s.t.crc))
  {
    hide Crc32, BlockReply, GetU16, GetU32, Wanted, Perform;
    WantsBlock(w.t, length, p);
    if w.t.kind == ReadFile {
      FileBlock(config, m, w, p);
    } else {
      ScreenBlock(config, m, w, p);
    }
  }

  /** A block of a download is the next bytes of what is read, with the check of all bytes up to its end. */
  lemma BlockIsGiven(config: Config, m: Machine, w: World, length: Word)
    requires Ready(m, w) && (w.t.kind == ReadFile || w.t.kind == ReadScreen) && w.t.id != 0
    requires 1 <= length <= T.MAX_BLOCK && w.t.offset < w.t.size
    requires w.t.kind == ReadFile ==> NextFate(w.disk).Moves? && NextFate(w.disk).limit > 0
    ensures var graphics := w.t.kind == ReadScreen;
      var (after, answer) := Answer(config, m, w, T.ReadBlock(graphics, w.t.id, w.t.offset, length), []);
      var (content, end) := (Content(m, w), BlockEnd(w, length));
      && w.t.offset < end <= |content| && after.t == w.t.(offset := end, crc := Crc32(0, content[..end]))
      && after.disk.files == w.disk.files && (graphics ==> after.disk == w.disk)
      && Heard(if graphics then GRAPHICS_BLOCK else FILE_READ_BLOCK, answer)
         == T.Block(w.t.id, w.t.offset, content[w.t.offset..end], Crc32(0, content[..end]))
  {
    hide Crc32, BlockReply, GetU16, GetU32, Answer, M.Sent, BlockEnd, Perform, Heard;
    var request := T.ReadBlock(w.t.kind == ReadScreen, w.t.id, w.t.offset, length);
    var p := M.Sent(request, []).payload;
    M.SentHolds(request, []);
    AnswerIsStep(config, m, w, request, []);
    GivesBlock(config, m, w, length, p);
    var content, end := Content(m, w), BlockEnd(w, length);
    var data := content[w.t.offset..end];
    assert content[..end] == content[..w.t.offset] + data;
    Crc32Append(0, content[..w.t.offset], data);
    BlockIsHeard(if w.t.kind == ReadScreen then GRAPHICS_BLOCK else FILE_READ_BLOCK, w.t.id, w.t.offset, data,
                 Crc32(0, content[..end]));
  }

  lemma BlockIsHeard(opcode: Opcode, id: Word, offset: Long, data: bytes, crc: bv32)
    requires opcode == FILE_READ_BLOCK || opcode == GRAPHICS_BLOCK || opcode == FILE_WRITE_BLOCK
    requires |data| <= T.MAX_BLOCK
    ensures Heard(opcode, Reply(BlockReply(id, offset, data, crc))) == T.Block(id, offset, data, crc)
  {
    hide GetU16, GetU32, PutU16, PutU32, Word32, WordBytes;
    HeardBlock(id, offset, data, crc, BlockReply(id, offset, data, crc));
  }

  lemma EndIsHeard(opcode: Opcode, size: Long, crc: bv32)
    requires opcode == FILE_READ_END || opcode == GRAPHICS_END || opcode == FILE_WRITE_COMMIT
    ensures Heard(opcode, Reply(EndReply(size, crc))) == T.Ended(size, crc)
  {
    hide GetU32, PutU32, Word32, WordBytes;
    HeardEnd(size, crc, EndReply(size, crc));
  }

  /** The end of a complete download: its size and check, and its handle closed. */
  lemma ReadEnds(config: Config, m: Machine, w: World)
    requires Ready(m, w) && (w.t.kind == ReadFile || w.t.kind == ReadScreen) && w.t.id != 0 && w.t.offset == w.t.size
    ensures var graphics := w.t.kind == ReadScreen;
      var (after, answer) := Answer(config, m, w, T.ReadEnd(graphics, w.t.id), []);
      && Ready(m, after) && after.t.kind == NoTransfer && after.disk.cursors == map[] && after.disk.files == w.disk.files
      && Heard(if graphics then GRAPHICS_END else FILE_READ_END, answer)
         == T.Ended(|Content(m, w)|, Crc32(0, Content(m, w)))
  {
    hide Crc32, EndReply, GetU16, Answer, M.Sent, M.Read;
    var request := T.ReadEnd(w.t.kind == ReadScreen, w.t.id);
    M.SentHolds(request, []);
    AnswerIsStep(config, m, w, request, []);
    EndReadKeeps(m.picture, w.t, w.disk, M.Sent(request, []).payload);
    assert Content(m, w)[..w.t.offset] == Content(m, w);
    NothingOpen(EndRead(w.t, w.disk, M.Sent(request, []).payload).disk);
    EndIsHeard(if w.t.kind == ReadScreen then GRAPHICS_END else FILE_READ_END, w.t.size, w.t.crc);
  }

  /**
   A block in sequence that DOS takes whole: it stands in the temporary behind what that held, it is
   accepted, and the reply shows the check of everything accepted.
   */
  lemma BlockIsTaken(config: Config, m: Machine, w: World, data: bytes)
    requires Ready(m, w) && w.t.kind == WriteFile && w.t.id != 0
    requires 1 <= |data| <= T.MAX_BLOCK && |w.t.accepted| + |data| <= w.t.size
    requires NextFate(w.disk).Moves? && |data| <= NextFate(w.disk).limit
    ensures var (after, answer) := Answer(config, m, w, T.WriteBlock(w.t.id, |w.t.accepted|, data), []);
      var crc := Crc32(0, w.t.accepted + data);
      && after.t == w.t.(accepted := w.t.accepted + data, offset := |w.t.accepted| + |data|, crc := crc)
      && after.disk.files == w.disk.files[w.t.temp := w.disk.files[w.t.temp] + data]
      && Heard(FILE_WRITE_BLOCK, answer) == T.Block(w.t.id, |w.t.accepted|, [], crc)
  {
    hide Crc32, BlockReply, GetU16, GetU32, Answer, M.Sent, M.Read;
    var request := T.WriteBlock(w.t.id, |w.t.accepted|, data);
    M.SentHolds(request, []);
    AnswerIsStep(config, m, w, request, []);
    Crc32Append(0, w.t.accepted, data);
    var before := w.disk.files[w.t.temp];
    assert before[..|before|] + data[..|data|] + [] == before + data;
    BlockIsHeard(FILE_WRITE_BLOCK, w.t.id, |w.t.accepted|, [], Crc32(0, w.t.accepted + data));
  }

  /**
   A commit of everything announced, onto a name that is free or may be replaced: the temporary's
   bytes stand under it, which are the accepted ones unless some write was cut short.
   */
  lemma CommitReplies(config: Config, m: Machine, w: World)
    requires Ready(m, w) && w.t.kind == WriteFile && w.t.id != 0 && Smooth(w.disk)
    requires |w.t.accepted| == w.t.size && Crc32(0, w.t.accepted) == w.t.expected
    requires w.t.overwrite || w.t.path !in w.disk.files
    ensures var (after, answer) := Answer(config, m, w, T.WriteCommit(w.t.id), []);
      && Ready(m, after) && after.t.kind == NoTransfer
      && after.disk.files == w.t.base[w.t.path := w.disk.files[w.t.temp]]
      && (!Torn(w.t, w.disk) ==> after.disk.files == w.t.base[w.t.path := w.t.accepted])
      && Heard(FILE_WRITE_COMMIT, answer) == T.Ended(w.t.size, w.t.expected)
  {
    hide Crc32, EndReply, GetU16, Answer, M.Sent, M.Read, ReplaceFile;
    var request := T.WriteCommit(w.t.id);
    var p := M.Sent(request, []).payload;
    M.SentHolds(request, []);
    AnswerIsStep(config, m, w, request, []);
    CommitKeeps(m.picture, w.t, w.disk, p);
    ReplaceSucceeds(w.t.(handle := None), Close(w.disk, w.t.handle.value));
    CommitReplaces(m.picture, w.t, w.disk, p);
    EndIsHeard(FILE_WRITE_COMMIT, w.t.size, w.t.expected);
  }

  lemma ReplaceSucceeds(t: Transfer, d: Disk)
    requires Sized(t) && Smooth(d) && t.temp in d.files && t.temp != t.path && (t.overwrite || t.path !in d.files)
    ensures ReplaceFile(t, d).reply.Some?
  {
    hide EndReply, GiveUp;
    SmoothGoesOn(d, 0);
    var (d1, existing) := Open(d, t.path);
    SmoothGoesOn(d1, 0);
    if existing.Some? {
      var d2 := Close(d1, existing.value);
      SmoothGoesOn(d2, 0);
      SmoothGoesOn(Remove(d2, t.path).0, 0);
    }
  }

  /** An abort of the transfer under way gives it up: no upload's temporary stays unless DOS fails its removal. */
  lemma AbortEnds(config: Config, m: Machine, w: World)
    requires Ready(m, w) && w.t.kind != NoTransfer && w.t.id != 0
    ensures var (after, answer) := Answer(config, m, w, T.Abort(w.t.id), []);
      && Ready(m, after) && after.t.kind == NoTransfer
      && after.disk.files == (if w.t.kind == WriteFile && !FateAt(w.disk, 1).Fails? then w.t.base else w.disk.files)
      && answer == Reply([]) && Heard(FILE_ABORT, answer) == T.Done
  {
    hide Crc32, GetU16, Answer, M.Sent, GiveUp, Inv;
    var request := T.Abort(w.t.id);
    var p := M.Sent(request, []).payload;
    M.SentHolds(request, []);
    AnswerIsStep(config, m, w, request, []);
    AbortKeeps(m.picture, w.t, w.disk, p);
    GiveUpKeeps(m.picture, w.t, w.disk);
  }

  // --- Serving all there is to serve ---

  // What a request needs of the agent beside being in its place: permission, an accepted name, and
  // files as the request wants them. None of it is the agent's to grant.
  ghost predicate Willing(config: Config, m: Machine, w: World, request: T.Request, name: bytes) {
    hide BuildPath, HasTempName, Described;
    match request
    case ReadBegin(Graphics) => m.picture.Some? && Described(m.picture.value)
    case ReadBegin(File(path)) =>
      && config.allowRead && BuildPath(config, name) == Some(path)
      && path in w.disk.files && |w.disk.files[path]| <= TSR_FILE_MAX
    case WriteBegin(path, _, _, overwrite) =>
      && config.allowWrite && BuildPath(config, name) == Some(path) && (overwrite || path !in w.disk.files)
      && HasTempName(config, w.disk, path, NextTransferId(m.drawn))
    case WriteCommit(_) => w.t.overwrite || w.t.path !in w.disk.files
    case _ => true
  }

  lemma InPlaceIsServed(config: Config, m: Machine, w: World, server: T.Server, request: T.Request, name: bytes)
    requires Ready(m, w) && Smooth(w.disk) && server.transfer == Abstract(m.picture, w.t, w.disk)
    requires M.Sendable(request, name) && T.InPlace(server, request) && Willing(config, m, w, request, name)
    ensures var heard := Heard(M.Sent(request, name).opcode, Answer(config, m, w, request, name).1);
      heard != T.Refused && (request.ReadBlock? && heard.Block? ==> heard.data != [])
  {
    hide Crc32, Answer, Heard, BuildPath, HasTempName, Described, M.Sent, Smooth;
    SmoothGoesOn(w.disk, 0);
    SmoothGoesOn(w.disk, 1);
    SmoothGoesOn(w.disk, 2);
    SentAs(request, name);
    if !M.NamesFile(request) {
      NameUnused(config, m, w, request, name);
    }
    match request
    case ReadBegin(Graphics) => GraphicsBegins(config, m, w);
    case ReadBegin(File(path)) => ReadBegins(config, m, w, name, path);
    case ReadBlock(graphics, id, offset, length) =>
      assert graphics == (w.t.kind == ReadScreen) && id == w.t.id && offset == w.t.offset;
      BlockIsGiven(config, m, w, length);
    case ReadEnd(_, _) => ReadEnds(config, m, w);
    case WriteBegin(path, size, crc, overwrite) => WriteBegins(config, m, w, name, path, size, crc, overwrite);
    case WriteBlock(_, _, data) => BlockIsTaken(config, m, w, data);
    case WriteCommit(_) => CommitReplies(config, m, w);
    case Abort(_) => AbortEnds(config, m, w);
  }

  lemma SentAs(request: T.Request, name: bytes)
    requires M.Sendable(request, name)
    ensures var opcode := M.Sent(request, name).opcode;
      match request
      case ReadBegin(source) => opcode == if source.Graphics? then GRAPHICS_BEGIN else FILE_READ_BEGIN
      case ReadBlock(graphics, _, _, _) => opcode == if graphics then GRAPHICS_BLOCK else FILE_READ_BLOCK
      case ReadEnd(graphics, _) => opcode == if graphics then GRAPHICS_END else FILE_READ_END
      case WriteBegin(_, _, _, _) => opcode == FILE_WRITE_BEGIN
      case WriteBlock(_, _, _) => opcode == FILE_WRITE_BLOCK
      case WriteCommit(_) => opcode == FILE_WRITE_COMMIT
      case Abort(_) => opcode == FILE_ABORT
  {
    hide PutU16, PutU32, WordBytes, Low;
  }

  // Only a request that names a file has the name in it.
  lemma NameUnused(config: Config, m: Machine, w: World, request: T.Request, name: bytes)
    requires Ready(m, w) && M.Sendable(request, name) && !M.NamesFile(request)
    ensures Answer(config, m, w, request, name) == Answer(config, m, w, request, [])
  {
    hide PutU16, PutU32, WordBytes, Low, Respond;
    assert M.Sent(request, name) == M.Sent(request, []);
  }

  /**
   With a healthy disk the agent serves every request that is in its place: what it answers, read by
   the bridge, is what the specification obliges a server to, and so is where it stands afterwards.
   */
  lemma AgentObliges(config: Config, m: Machine, w: World, server: T.Server, number: nat, request: T.Request, name: bytes)
      returns (next: T.Server)
    requires Ready(m, w) && (m.picture.Some? ==> Described(m.picture.value)) && Smooth(w.disk)
    requires T.Valid(server) && server.transfer == Abstract(m.picture, w.t, w.disk)
    requires M.Sendable(request, name) && (M.NamesFile(request) ==> M.Named(request) == Named(config, name))
    requires T.InPlace(server, request) ==> Willing(config, m, w, request, name)
    ensures var (after, answer) := Answer(config, m, w, request, name);
      && next.transfer == Abstract(m.picture, after.t, after.disk) && Ready(m, after) && Smooth(after.disk)
      && T.Obliges(server, number, request, next, Heard(M.Sent(request, name).opcode, answer))
  {
    hide Answer, Heard, Described, Willing, T.InPlace, Abstract, Perform, T.Allowed, Asked, M.Asked, M.Sent, Says;
    hide T.Valid;
    hide Sized, Still, OperationOf, M.Read, Named, Inv;
    var op, sent := Operation(request, m.drawn), M.Sent(request, name);
    AnswerIsStep(config, m, w, request, name);
    OpcodeOf(request, name, m.drawn);
    M.SentIsAsked(request, name, Naming(config));
    PerformKeeps(config, m.picture, w.t, w.disk, op, sent.payload);
    PerformSmooth(config, m.picture, w.t, w.disk, op, sent.payload);
    AskedAlike(config, sent.opcode, m.drawn, sent.payload, m.picture, w.t, w.disk);
    var answer := Answer(config, m, w, request, name).1;
    var after, says := AgentIsServer(server, number, config, m.picture, w.t, w.disk, op, sent.payload);
    BegunIsNamed(server, number, Asked(config, op, sent.payload), after, says);
    AnswerIsHeard(config, m, op, sent.opcode, sent.payload, answer, says);
    next := after;
    if request != Asked(config, op, sent.payload) {
      next := server;
      RefusedSays(op, says);
      RefusedAllowed(server, number, request);
    }
    if T.InPlace(server, request) {
      InPlaceIsServed(config, m, w, server, request, name);
    }
  }

  lemma RefusedAllowed(server: T.Server, number: nat, request: T.Request)
    requires T.Valid(server)
    ensures T.Allowed(server, number, request, server, T.Refused)
  {
    hide T.Begins, T.Moves, T.Ends;
  }

  lemma RefusedSays(op: TransferSafety.Operation, says: T.Reply)
    requires Says(op, None, says)
    ensures says == T.Refused
  {
  }

  lemma BegunIsNamed(server: T.Server, number: nat, request: T.Request, next: T.Server, says: T.Reply)
    requires T.Valid(server) && T.Allowed(server, number, request, next, says)
    ensures says.Begun? ==> says.id != 0
  {
    hide Crc32, T.Valid;
  }

  lemma AnswerIsHeard(config: Config, m: Machine, op: TransferSafety.Operation, opcode: Opcode, p: bytes,
                      answer: ResidentReplies.Answer, says: T.Reply)
    requires OperationOf(opcode, m.drawn).Some? && OperationOf(opcode, m.drawn).value.0 == op
    requires !answer.TextScreen? && (says.Begun? ==> says.id != 0)
    requires Says(op, if answer.Reply? then Some(answer.payload) else None, says)
    requires op.GraphicsBeginOp? && says.Begun? ==>
      && m.picture.Some? && Described(m.picture.value) && says.size == |m.picture.value.data|
      && answer == Reply(PutU16(says.id) + m.picture.value.description)
    ensures Heard(opcode, answer) == says
  {
    hide Says, OperationOf, Described, PutU16, M.Read;
    ReadAlike(opcode, m.drawn, m.picture, if answer.Error? then ERROR else RESPONSE, AnswerBytes(answer), says);
  }

  lemma LaterFates()
    ensures forall fates: seq<Fate> {:trigger fates[1..], SmoothFates(fates)} ::
      SmoothFates(fates) && fates != [] ==> SmoothFates(fates[1..])
    ensures SmoothFates([])
  {
  }

  lemma {:induction false} CreateTempSmooth(d: Disk, prefix: bytes, path: Path, id: Word, attempt: nat)
    requires attempt <= 16 && Smooth(d)
    ensures Smooth(CreateTemp(d, prefix, path, id, attempt).0)
    decreases 16 - attempt
  {
    hide TempName, SmoothFates;
    LaterFates();
    if attempt < 16 {
      var name := TempName(prefix, id, attempt);
      CreateTempSmooth(if name == path then d else CreateNew(d, name).0, prefix, path, id, attempt + 1);
    }
  }

  lemma MakeTempSmooth(config: Config, d: Disk, path: Path, id: Word)
    requires Smooth(d)
    ensures Smooth(MakeTemp(config, d, path, id).0)
  {
    hide TempPrefix, CreateTemp, Smooth;
    if TempPrefix(config, path).Some? {
      CreateTempSmooth(d, TempPrefix(config, path).value, path, id, 0);
    }
  }

  lemma BeginWriteSmooth(config: Config, t: Transfer, d: Disk, p: bytes, drawn: Word)
    requires Smooth(d)
    ensures Smooth(BeginWrite(config, t, d, p, drawn).disk)
  {
    hide SmoothFates, GetU32, Value, Word32, BuildPath, MakeTemp, BeginReply;
    LaterFates();
    if |p| >= 10 && BuildPath(config, p[10..]).Some? {
      var path := BuildPath(config, p[10..]).value;
      MakeTempSmooth(config, d, path, NextTransferId(drawn));
      MakeTempSmooth(config, Open(d, path).0, path, NextTransferId(drawn));
    }
  }

  lemma GiveUpSmooth(t: Transfer, d: Disk)
    requires Smooth(d)
    ensures Smooth(GiveUp(t, d).disk) && Smooth(CloseTransfer(t, d, false).1) && Smooth(CloseTransfer(t, d, true).1)
  {
    hide SmoothFates;
    LaterFates();
  }

  lemma RenameSmooth(t: Transfer, d: Disk)
    requires Sized(t) && Smooth(d)
    ensures Smooth(RenameTemp(t, d).disk)
  {
    hide SmoothFates, EndReply, GiveUp;
    LaterFates();
    GiveUpSmooth(t, Rename(d, t.temp, t.path).0);
  }

  lemma ReplaceSmooth(t: Transfer, d: Disk)
    requires Sized(t) && Smooth(d)
    ensures Smooth(ReplaceFile(t, d).disk)
  {
    hide SmoothFates, GiveUp, RenameTemp;
    LaterFates();
    var (d1, existing) := Open(d, t.path);
    if existing.Some? {
      var d2 := Close(d1, existing.value);
      GiveUpSmooth(t, d2);
      GiveUpSmooth(t, Remove(d2, t.path).0);
      RenameSmooth(t, Remove(d2, t.path).0);
    } else {
      RenameSmooth(t, d1);
    }
  }

  lemma BeginReadSmooth(config: Config, t: Transfer, d: Disk, p: bytes, drawn: Word)
    requires Smooth(d)
    ensures Smooth(BeginRead(config, t, d, p, drawn).disk)
  {
    hide SmoothFates, BeginReply, BuildPath, Value, CloseTransfer, Size;
    LaterFates();
    if |p| > 0 && BuildPath(config, p[1..]).Some? {
      var path := BuildPath(config, p[1..]).value;
      var (d1, handle) := Open(d, path);
      if handle.Some? {
        SizeSmooth(d1, handle.value);
        GiveUpSmooth(t.(path := path, handle := handle), Size(d1, handle.value).0);
      }
    }
  }

  lemma SizeSmooth(d: Disk, handle: nat)
    requires Smooth(d)
    ensures Smooth(Size(d, handle).0)
  {
    hide SmoothFates;
    LaterFates();
  }

  lemma BlockSmooth(t: Transfer, d: Disk, p: bytes)
    requires Sized(t) && Smooth(d)
    ensures Smooth(ReadBlock(t, d, p).disk) && Smooth(WriteBlock(t, d, p).disk)
  {
    hide SmoothFates, BlockReply, Wanted, InSequence, Crc32;
    LaterFates();
  }

  lemma PerformSmooth(config: Config, picture: Option<Picture>, t: Transfer, d: Disk, op: TransferSafety.Operation,
                      p: bytes)
    requires Sized(t) && Still(t, picture) && Smooth(d)
    ensures Smooth(Perform(config, picture, t, d, op, p).disk)
  {
    hide SmoothFates, GetU16, EndReply, BlockReply, Wanted, PutU16, Crc32;
    hide BeginWrite, ReplaceFile, BeginRead, ReadBlock, WriteBlock, CloseTransfer, GiveUp;
    LaterFates();
    GiveUpSmooth(t, d);
    match op
    case ReadBeginOp(drawn) => BeginReadSmooth(config, t, d, p, drawn);
    case WriteBeginOp(drawn) => BeginWriteSmooth(config, t, d, p, drawn);
    case CommitOp => if t.handle.Some? { ReplaceSmooth(t.(handle := None), Close(d, t.handle.value)); }
    case _ => BlockSmooth(t, d, p);
  }
}
