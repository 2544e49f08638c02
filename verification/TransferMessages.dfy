/**
 Transfer requests and replies on the wire: what the bridge sends for each request, and what it reads
 out of each reply.
 */
module TransferMessages {
  import opened Bytes
  import opened PacketCodec
  import opened PacketMac
  import opened Packets
  import opened TransferSpec
  import SessionKeys

  datatype Message = Message(opcode: Opcode, payload: bytes)

  const MAX_DOS_PATH_BYTES := 80

  // What the encoders of the bridge insist on; `name` is the file's name as the user gives it.
  predicate Sendable(request: Request, name: bytes) {
    match request
    case ReadBegin(source) => source.File? ==> 1 <= |name| <= MAX_DOS_PATH_BYTES
    case ReadBlock(_, id, _, length) => id != 0 && 1 <= length <= MAX_BLOCK
    case ReadEnd(_, id) => id != 0
    case WriteBegin(_, _, _, _) => 1 <= |name| <= MAX_DOS_PATH_BYTES
    case WriteBlock(id, _, data) => id != 0 && 1 <= |data| <= MAX_BLOCK
    case WriteCommit(id) => id != 0
    case Abort(id) => id != 0
  }

  // `FileReadBeginRequest`, `TransferBlockRequest`, `TransferEndRequest` and `FileWriteBeginRequest`,
  // each under the operation it is sent as.
  function Sent(request: Request, name: bytes): Message
    requires Sendable(request, name)
  {
    hide PutU16, PutU32, WordBytes, Low;
    match request
    case ReadBegin(source) =>
      if source.Graphics? then Message(GRAPHICS_BEGIN, []) else Message(FILE_READ_BEGIN, [Low(|name|)] + name)
    case ReadBlock(graphics, id, offset, length) =>
      Message(if graphics then GRAPHICS_BLOCK else FILE_READ_BLOCK, PutU16(id) + PutU32(offset) + PutU16(length))
    case ReadEnd(graphics, id) => Message(if graphics then GRAPHICS_END else FILE_READ_END, PutU16(id))
    case WriteBegin(_, size, crc, overwrite) =>
      Message(FILE_WRITE_BEGIN,
              [Low(if overwrite then 1 else 0)] + PutU32(size) + WordBytes(crc) + [Low(|name|)] + name)
    case WriteBlock(id, offset, data) =>
      Message(FILE_WRITE_BLOCK, PutU16(id) + PutU32(offset) + PutU16(|data|) + data)
    case WriteCommit(id) => Message(FILE_WRITE_COMMIT, PutU16(id))
    case Abort(id) => Message(FILE_ABORT, PutU16(id))
  }

  // A message that is no transfer request, or is malformed, asks for nothing.
  const NOTHING := Abort(0)

  // What a message asks of a target that gives names the meaning `resolve`.
  function Asked(message: Message, resolve: bytes -> bytes): Request {
    hide GetU16, GetU32, Value, Word32;
    var (opcode, p) := (message.opcode, message.payload);
    if opcode == FILE_READ_BEGIN then
      if |p| > 0 && |p| == Value(p[0]) + 1 then ReadBegin(File(resolve(p[1..]))) else NOTHING
    else if opcode == GRAPHICS_BEGIN then
      if p == [] then ReadBegin(Graphics) else NOTHING
    else if opcode == FILE_READ_BLOCK || opcode == GRAPHICS_BLOCK then
      if |p| == 8 then ReadBlock(opcode == GRAPHICS_BLOCK, GetU16(p[..2]), GetU32(p[2..6]), GetU16(p[6..8])) else NOTHING
    else if opcode == FILE_READ_END || opcode == GRAPHICS_END then
      if |p| == 2 then ReadEnd(opcode == GRAPHICS_END, GetU16(p[..2])) else NOTHING
    else if opcode == FILE_WRITE_BEGIN then
      if |p| >= 10 && |p| == 10 + Value(p[9]) && Value(p[0]) <= 1 then
        WriteBegin(resolve(p[10..]), GetU32(p[1..5]), Word32(p[5..9]), Value(p[0]) == 1)
      else NOTHING
    else if opcode == FILE_WRITE_BLOCK then
      if |p| >= 8 && |p| == 8 + GetU16(p[6..8]) then WriteBlock(GetU16(p[..2]), GetU32(p[2..6]), p[8..]) else NOTHING
    else if opcode == FILE_WRITE_COMMIT then
      if |p| == 2 then WriteCommit(GetU16(p[..2])) else NOTHING
    else if opcode == FILE_ABORT then
      if |p| == 2 then Abort(GetU16(p[..2])) else NOTHING
    else NOTHING
  }

  // The file a request names, if any.
  function Named(request: Request): (path: bytes) {
    match request
    case ReadBegin(source) => if source.File? then source.path else []
    case WriteBegin(path, _, _, _) => path
    case _ => []
  }

  predicate NamesFile(request: Request) {
    (request.ReadBegin? && request.source.File?) || request.WriteBegin?
  }

  // What the payload of a request holds, field by field.
  predicate Holds(request: Request, name: bytes, p: bytes) {
    hide GetU16, GetU32, Value, Word32;
    match request
    case ReadBegin(source) =>
      if source.Graphics? then p == [] else |p| > 0 && |p| == Value(p[0]) + 1 && p[1..] == name
    case ReadBlock(_, id, offset, length) =>
      |p| == 8 && GetU16(p[..2]) == id && GetU32(p[2..6]) == offset && GetU16(p[6..8]) == length
    case WriteBegin(_, size, crc, overwrite) =>
      && |p| >= 10 && |p| == Value(p[9]) + 10 && Value(p[0]) == (if overwrite then 1 else 0) && p[10..] == name
      && GetU32(p[1..5]) == size && Word32(p[5..9]) == crc
    case WriteBlock(id, offset, data) =>
      |p| >= 8 && GetU16(p[..2]) == id && GetU32(p[2..6]) == offset && GetU16(p[6..8]) == |data| && p[8..] == data
    case ReadEnd(_, id) => |p| == 2 && GetU16(p[..2]) == id
    case WriteCommit(id) => |p| == 2 && GetU16(p[..2]) == id
    case Abort(id) => |p| == 2 && GetU16(p[..2]) == id
  }

  lemma SentHolds(request: Request, name: bytes)
    requires Sendable(request, name)
    ensures Holds(request, name, Sent(request, name).payload)
  {
    hide PutU16, PutU32, WordBytes, Low, GetU16, GetU32, Value, Word32;
    var p := Sent(request, name).payload;
    match request
    case ReadBegin(source) =>
      if source.File? {
        ValueLow(|name|);
        assert p[1..] == name;
      }
    case ReadBlock(_, id, offset, length) =>
      assert p[..2] == PutU16(id) && p[2..6] == PutU32(offset) && p[6..8] == PutU16(length);
      U16RoundTrip(id);
      U32RoundTrip(offset);
      U16RoundTrip(length);
    case ReadEnd(_, id) => IdRoundTrip(id);
    case WriteBegin(_, size, crc, overwrite) =>
      assert p[1..5] == PutU32(size) && p[5..9] == WordBytes(crc) && p[10..] == name;
      ValueLow(if overwrite then 1 else 0);
      ValueLow(|name|);
      U32RoundTrip(size);
      SessionKeys.WordOfBytes(crc);
    case WriteBlock(id, offset, data) =>
      assert p[..2] == PutU16(id) && p[2..6] == PutU32(offset) && p[6..8] == PutU16(|data|) && p[8..] == data;
      U16RoundTrip(id);
      U32RoundTrip(offset);
      U16RoundTrip(|data|);
    case WriteCommit(id) => IdRoundTrip(id);
    case Abort(id) => IdRoundTrip(id);
  }

  lemma IdRoundTrip(id: Word)
    ensures GetU16(PutU16(id)[..2]) == id
  {
    hide PutU16, GetU16;
    assert PutU16(id)[..2] == PutU16(id);
    U16RoundTrip(id);
  }

  /** Every request the bridge sends is the one the target reads. */
  lemma SentIsAsked(request: Request, name: bytes, resolve: bytes -> bytes)
    requires Sendable(request, name) && (NamesFile(request) ==> Named(request) == resolve(name))
    ensures Asked(Sent(request, name), resolve) == request
  {
    hide PutU16, PutU32, WordBytes, Low, GetU16, GetU32, Value, Word32;
    SentHolds(request, name);
  }

  // --- Replies ---

  // `TransferBeginResponse`, `GraphicsBeginResponse`, `TransferBlockResponse`, `TransferEndResponse`;
  // an error, or what does not decode, is a refusal.
  function Read(opcode: Opcode, kind: Kind, p: bytes): Reply {
    hide GetU16, GetU32, Word32;
    if kind != RESPONSE then Refused
    else if opcode == FILE_READ_BEGIN || opcode == FILE_WRITE_BEGIN then
      if |p| == 6 && GetU16(p[..2]) != 0 then Begun(GetU16(p[..2]), GetU32(p[2..6])) else Refused
    else if opcode == GRAPHICS_BEGIN then
      if |p| == 18 && GetU16(p[..2]) != 0 then Begun(GetU16(p[..2]), GetU32(p[10..14])) else Refused
    else if opcode == FILE_READ_BLOCK || opcode == GRAPHICS_BLOCK || opcode == FILE_WRITE_BLOCK then
      if |p| >= 12 && |p| == 12 + GetU16(p[6..8]) && GetU16(p[6..8]) <= MAX_BLOCK then
        Block(GetU16(p[..2]), GetU32(p[2..6]), p[12..], Word32(p[8..12]))
      else Refused
    else if opcode == FILE_READ_END || opcode == GRAPHICS_END || opcode == FILE_WRITE_COMMIT then
      if |p| == 8 then Ended(GetU32(p[..4]), Word32(p[4..8])) else Refused
    else if opcode == FILE_ABORT then Done
    else Refused
  }
}
