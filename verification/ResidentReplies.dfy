/**
 The resident agent answers a request in the very buffer the request was received in. Here are
 the reply every request calls for, as a function of the bytes received, and how long it can be.
 */
module ResidentReplies {
  import opened AgentTransfers
  import opened BiosKeys
  import opened Buffers
  import opened Bytes
  import opened Checksums
  import opened DosFiles
  import opened DosPaths
  import opened PacketCodec
  import opened PacketMac
  import opened Packets
  import opened TransferSafety
  import opened Wrappers

  const SCREEN_BUFFER_SIZE := 4013
  const RESPONSE_FRAGMENT_PAYLOAD := 256
  const MAX_RESPONSE_FRAGMENTS := 16

  // What the hardware and the interrupt counters contribute to replies.
  datatype Machine = Machine(
    drawn: Word,
    picture: Option<Picture>,
    status: bytes,
    capabilities: bytes,
    diagnostics: bytes,
    cells: nat)
  {
    predicate Valid() {
      && |status| == 12 && |capabilities| == 11 && |diagnostics| == 50 && cells <= 80 * 25 * 2
      && (picture.Some? ==> |picture.value.description| == 16)
    }
  }

  // The keyboard ring, when the BIOS data area is sane, and the counter of injections.
  datatype Keyboard = Keyboard(queue: Option<seq<Word>>, generation: Word)
  {
    predicate Valid() {
      queue.Some? ==> |queue.value| <= CAPACITY
    }
  }

  datatype World = World(t: Transfer, disk: Disk, keyboard: Keyboard)

  datatype Answer =
    | Reply(payload: bytes)
    | TextScreen(length: nat)
    | Error(code: Word, message: string)

  // --- The reply a request calls for ---

  function KeyReply(text: Word, keys: nat, generation: Word): (r: bytes)
    ensures |r| == 5
  {
    hide PutU16, Low;
    PutU16(text) + [Low(keys)] + PutU16(generation)
  }

  // A request with no text and no keys, answered without looking at the ring.
  predicate EmptyKeys(p: bytes) {
    hide GetU16, Value;
    |p| == 5 && GetU16(p[..2]) == 0 && Value(p[2]) == 0
  }

  function SendKeys(k: Keyboard, p: bytes): (Keyboard, Answer)
    requires k.Valid()
  {
    hide KeyReply, KeysWellFormed;
    if EmptyKeys(p) then (k, Reply(KeyReply(0, 0, 0)))
    else if !KeysWellFormed(p) then (k, Error(6, "invalid key request"))
    else
      var generation := (k.generation + 1) % 0x1_0000;
      match k.queue
      case None => (k.(generation := generation), Reply(KeyReply(0, 0, generation)))
      case Some(q) =>
        var request := KeysOf(p);
        (Keyboard(Some(AfterKeys(q, request)), generation),
         Reply(KeyReply(AcceptedText(q, request), AcceptedKeys(q, request), generation)))
  }

  // The transfer step an opcode stands for, and how it is refused.
  function OperationOf(opcode: Opcode, drawn: Word): Option<(Operation, Word, string)> {
    if opcode == FILE_READ_BEGIN then Some((ReadBeginOp(drawn), 6, "file read denied or invalid"))
    else if opcode == FILE_READ_BLOCK then Some((ReadBlockOp, 6, "invalid read block"))
    else if opcode == FILE_READ_END then Some((EndOp(false), 6, "incomplete read transfer"))
    else if opcode == FILE_WRITE_BEGIN then Some((WriteBeginOp(drawn), 7, "file write denied or invalid"))
    else if opcode == FILE_WRITE_BLOCK then Some((WriteBlockOp, 6, "invalid write block"))
    else if opcode == FILE_WRITE_COMMIT then Some((CommitOp, 11, "upload integrity or commit failed"))
    else if opcode == FILE_ABORT then Some((AbortOp, 6, "invalid transfer"))
    else if opcode == GRAPHICS_BEGIN then Some((GraphicsBeginOp(drawn), 5, "unsupported graphics mode"))
    else if opcode == GRAPHICS_BLOCK then Some((GraphicsBlockOp, 6, "invalid graphics block"))
    else if opcode == GRAPHICS_END then Some((EndOp(true), 6, "incomplete graphics transfer"))
    else None
  }

  function WhenEmpty(p: bytes, answer: Answer, message: string): Answer {
    if p != [] then Error(6, message) else answer
  }

  function RespondTransfer(config: Config, m: Machine, w: World, opcode: Opcode, p: bytes): (World, Answer)
    requires Sized(w.t) && Still(w.t, m.picture)
  {
    hide Perform;
    match OperationOf(opcode, m.drawn)
    case None => (w, Error(5, "unsupported operation"))
    case Some((op, code, message)) =>
      var s := Perform(config, m.picture, w.t, w.disk, op, p);
      (w.(t := s.t, disk := s.disk), match s.reply case Some(r) => Reply(r) case None => Error(code, message))
  }

  /** The reply of `process_request`, and what the request changes. */
  function Respond(config: Config, m: Machine, w: World, opcode: Opcode, p: bytes): (World, Answer)
    requires Sized(w.t) && Still(w.t, m.picture) && w.keyboard.Valid()
  {
    hide Perform, SendKeys;
    if opcode == GET_STATUS then (w, WhenEmpty(p, Reply(m.status), "status payload must be empty"))
    else if opcode == GET_CAPABILITIES then (w, WhenEmpty(p, Reply(m.capabilities), "capability payload must be empty"))
    else if opcode == CAPTURE_TEXT_SCREEN then (w, WhenEmpty(p, TextScreen(13 + m.cells), "screen payload must be empty"))
    else if opcode == SEND_KEYS then
      var (keyboard, answer) := SendKeys(w.keyboard, p);
      (w.(keyboard := keyboard), answer)
    else if opcode == PING then
      (w, if |p| > SCREEN_BUFFER_SIZE then Error(6, "ping payload too large") else Reply(p))
    else if opcode == GET_DIAGNOSTICS then (w, WhenEmpty(p, Reply(m.diagnostics), "diagnostic payload must be empty"))
    else RespondTransfer(config, m, w, opcode, p)
  }

  // The bytes of an answer; those of the text screen are read as they go out.
  function AnswerBytes(answer: Answer): bytes {
    hide PutU16, Ascii;
    match answer
    case Reply(payload) => payload
    case TextScreen(_) => []
    case Error(code, message) => PutU16(code) + Ascii(message)
  }

  // A buffer with a reply over its front.
  function WithReply(buffer: bytes, reply: Option<bytes>): (r: bytes)
    ensures |r| == |buffer|
  {
    hide Written;
    match reply
    case None => buffer
    case Some(bytes) => if |bytes| <= |buffer| then Written(buffer, 0, bytes) else buffer
  }

  // --- Every reply fits ---

  function PayloadSize(answer: Answer): nat {
    match answer
    case Reply(payload) => |payload|
    case TextScreen(length) => length
    case Error(_, message) => 2 + |message|
  }

  lemma PerformFits(config: Config, picture: Option<Picture>, t: Transfer, d: Disk, op: Operation, p: bytes)
    requires Sized(t) && Still(t, picture)
    requires picture.Some? ==> |picture.value.description| == 16
    ensures var s := Perform(config, picture, t, d, op, p); s.reply.Some? ==> |s.reply.value| <= 912
  {
    hide Crc32, Value, GetU16, GetU32, BuildPath, InSequence, MakeTemp, PutU16, BeginReply, BlockReply, EndReply, Word32;
    hide Size, Open, Close, Remove, Write, Rename;
  }

  /** Every reply fits the screen buffer, and so in sixteen fragments. */
  lemma RepliesFit(config: Config, m: Machine, w: World, opcode: Opcode, p: bytes)
    requires Sized(w.t) && Still(w.t, m.picture) && w.keyboard.Valid() && m.Valid()
    ensures var size := PayloadSize(Respond(config, m, w, opcode, p).1);
      size <= SCREEN_BUFFER_SIZE && FragmentCount(RESPONSE_FRAGMENT_PAYLOAD, size) <= MAX_RESPONSE_FRAGMENTS
  {
    hide Perform, KeyReply, KeysWellFormed;
    match OperationOf(opcode, m.drawn)
    case Some((op, _, _)) => PerformFits(config, m.picture, w.t, w.disk, op, p);
    case None =>
  }
}
