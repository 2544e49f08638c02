/**
 The resident agent's transfers as a state machine: the static variables they keep, and what each
 request makes of them, of the disk and of the reply. A refused request has no reply.
 */
module AgentTransfers {
  import opened Bytes
  import opened Checksums
  import opened DosFiles
  import opened DosPaths
  import opened PacketCodec
  import opened PacketMac
  import opened Wrappers

  const TRANSFER_BLOCK_MAX := 900
  const TSR_FILE_MAX := 1048576

  datatype TransferKind = NoTransfer | ReadFile | WriteFile | ReadScreen

  // `accepted` and `base` are history: the bytes acknowledged so far, and the files as they were
  // when an upload began.
  datatype Transfer = Transfer(
    kind: TransferKind,
    id: Word,
    handle: Option<nat>,
    size: nat,
    offset: nat,
    crc: bv32,
    expected: bv32,
    overwrite: bool,
    path: Path,
    temp: Path,
    accepted: bytes,
    base: map<Path, bytes>)

  // The picture on the screen, as the hardware shows it: its description and its bytes.
  datatype Picture = Picture(description: bytes, data: bytes)

  datatype Step = Step(t: Transfer, disk: Disk, reply: Option<bytes>)

  // --- Replies ---

  function BeginReply(id: Word, size: Long): (r: bytes)
    ensures |r| == 6
  {
    hide PutU16, PutU32;
    PutU16(id) + PutU32(size)
  }

  function BlockReply(id: Word, offset: Long, data: bytes, crc: bv32): (r: bytes)
    requires |data| < 0x1_0000
    ensures |r| == 12 + |data|
  {
    hide PutU16, PutU32, WordBytes;
    PutU16(id) + PutU32(offset) + PutU16(|data|) + WordBytes(crc) + data
  }

  function EndReply(size: Long, crc: bv32): (r: bytes)
    ensures |r| == 8
  {
    hide PutU32, WordBytes;
    PutU32(size) + WordBytes(crc)
  }

  // --- Requests ---

  // `close_transfer`
  function CloseTransfer(t: Transfer, d: Disk, removeTemporary: bool): (Transfer, Disk) {
    var closed := if t.handle.Some? then Close(d, t.handle.value) else d;
    var removed := if removeTemporary && t.kind == WriteFile then Remove(closed, t.temp).0 else closed;
    (t.(handle := None, kind := NoTransfer), removed)
  }

  // The identifier drawn for a new transfer: never zero.
  function NextTransferId(drawn: Word): Word {
    if drawn == 0 then 1 else drawn
  }

  function BeginRead(config: Config, t: Transfer, d: Disk, p: bytes, drawn: Word): Step {
    hide Value, BuildPath;
    var refused := Step(t, d, None);
    if !config.allowRead || t.kind != NoTransfer || |p| < 2 || |p| != Value(p[0]) + 1 then refused
    else
      match BuildPath(config, p[1..])
      case None => refused
      case Some(path) =>
        var named := t.(path := path);
        match Open(d, path)
        case (d1, None) => Step(named, d1, None)
        case (d1, Some(handle)) => StartRead(named.(handle := Some(handle)), Size(d1, handle), drawn)
  }

  // With the file open and measured.
  function StartRead(t: Transfer, measured: (Disk, Option<nat>), drawn: Word): Step {
    var (d, size) := measured;
    if size.None? || size.value > TSR_FILE_MAX then
      var (closed, d1) := CloseTransfer(t, d, false);
      Step(closed, d1, None)
    else
      var id := NextTransferId(drawn);
      Step(t.(kind := ReadFile, size := size.value, offset := 0, crc := 0, id := id), d,
           Some(BeginReply(id, size.value)))
  }

  // What a block request asks of the transfer it names: how many bytes, if it is in sequence.
  function Wanted(t: Transfer, p: bytes): (r: Option<nat>)
    ensures r.Some? ==> 1 <= r.value <= TRANSFER_BLOCK_MAX && t.offset + r.value <= t.size
  {
    hide GetU16, GetU32;
    if |p| != 8 || GetU16(p[..2]) != t.id then None
    else
      var offset, requested := GetU32(p[2..6]), GetU16(p[6..8]);
      if offset != t.offset || requested == 0 || requested > TRANSFER_BLOCK_MAX || offset >= t.size then None
      else Some(Min(requested, t.size - offset))
  }

  // The transfer after a block of it was sent.
  function SentBlock(t: Transfer, d: Disk, data: bytes): Step
    requires |data| < 0x1_0000 && t.offset < 0x1_0000_0000
  {
    hide Crc32;
    var crc := Crc32(t.crc, data);
    Step(t.(crc := crc, offset := t.offset + |data|), d, Some(BlockReply(t.id, t.offset, data, crc)))
  }

  predicate Sized(t: Transfer) {
    t.size <= TSR_FILE_MAX
  }

  // `read_transfer_block`
  function ReadBlock(t: Transfer, d: Disk, p: bytes): Step
    requires Sized(t)
  {
    hide Wanted;
    var wanted := Wanted(t, p);
    if t.kind != ReadFile || wanted.None? || t.handle.None? then Step(t, d, None)
    else
      match Read(d, t.handle.value, wanted.value)
      case (d1, None) => Step(t, d1, None)
      case (d1, Some(data)) => if data == [] then Step(t, d1, None) else SentBlock(t, d1, data)
  }

  // `end_read_transfer`, which serves both kinds of download.
  function EndRead(t: Transfer, d: Disk, p: bytes): Step
    requires Sized(t)
  {
    hide GetU16;
    if (t.kind != ReadFile && t.kind != ReadScreen) || |p| != 2 || GetU16(p[..2]) != t.id || t.offset != t.size then
      Step(t, d, None)
    else
      var (closed, d1) := CloseTransfer(t, d, false);
      Step(closed, d1, Some(EndReply(t.size, t.crc)))
  }

  // The attempts of `create_transfer_temp`, from this one on.
  function CreateTemp(d: Disk, prefix: bytes, path: Path, id: Word, attempt: nat): (Disk, Option<(Path, nat)>)
    requires attempt <= 16
    decreases 16 - attempt
  {
    hide TempName;
    if attempt == 16 then (d, None)
    else
      var name := TempName(prefix, id, attempt);
      if name == path then CreateTemp(d, prefix, path, id, attempt + 1)
      else
        match CreateNew(d, name)
        case (d1, Some(handle)) => (d1, Some((name, handle)))
        case (d1, None) => CreateTemp(d1, prefix, path, id, attempt + 1)
  }

  // `create_transfer_temp`
  function MakeTemp(config: Config, d: Disk, path: Path, id: Word): (Disk, Option<(Path, nat)>) {
    match TempPrefix(config, path)
    case None => (d, None)
    case Some(prefix) => CreateTemp(d, prefix, path, id, 0)
  }

  // `begin_file_write`
  function BeginWrite(config: Config, t: Transfer, d: Disk, p: bytes, drawn: Word): Step {
    hide Value, GetU32, BuildPath;
    var refused := Step(t, d, None);
    if !config.allowWrite || t.kind != NoTransfer || |p| < 10 then refused
    else if Value(p[0]) > 1 || |p| != Value(p[9]) + 10 || GetU32(p[1..5]) > TSR_FILE_MAX then refused
    else
      match BuildPath(config, p[10..])
      case None => refused
      case Some(path) => StartWrite(config, t.(path := path), d, p, drawn)
  }

  // With the destination named in the transfer.
  function StartWrite(config: Config, t: Transfer, d: Disk, p: bytes, drawn: Word): Step
    requires |p| >= 10 && GetU32(p[1..5]) <= TSR_FILE_MAX
  {
    hide Value, GetU32;
    if Value(p[0]) == 1 then CreateUpload(config, t, d, p, drawn)
    else
      match Open(d, t.path)
      case (d1, Some(existing)) => Step(t, Close(d1, existing), None)
      case (d1, None) => CreateUpload(config, t, d1, p, drawn)
  }

  // With the destination free, or allowed to be replaced.
  function CreateUpload(config: Config, t: Transfer, d: Disk, p: bytes, drawn: Word): Step
    requires |p| >= 10 && GetU32(p[1..5]) <= TSR_FILE_MAX
  {
    hide Value, GetU32, Word32;
    var id := NextTransferId(drawn);
    match MakeTemp(config, d, t.path, id)
    case (d1, None) => Step(t.(id := id, temp := []), d1, None)
    case (d1, Some((temp, handle))) =>
      Step(t.(kind := WriteFile, id := id, handle := Some(handle), size := GetU32(p[1..5]), offset := 0,
              crc := 0, expected := Word32(p[5..9]), overwrite := Value(p[0]) == 1, temp := temp,
              accepted := [], base := d.files),
           d1, Some(BeginReply(id, GetU32(p[1..5]))))
  }

  // A block that continues the upload it names.
  predicate InSequence(t: Transfer, p: bytes) {
    hide GetU16, GetU32;
    && |p| >= 8 && GetU16(p[..2]) == t.id
    && var length := GetU16(p[6..8]);
    && 1 <= length <= TRANSFER_BLOCK_MAX && |p| == length + 8
    && GetU32(p[2..6]) == t.offset && t.offset + length <= t.size
  }

  // `write_transfer_block`
  function WriteBlock(t: Transfer, d: Disk, p: bytes): Step
    requires Sized(t)
  {
    hide Crc32;
    if t.kind != WriteFile || !InSequence(t, p) || t.handle.None? then Step(t, d, None)
    else
      var data := p[8..];
      match Write(d, t.handle.value, data)
      case (d1, None) => Step(t, d1, None)
      case (d1, Some(written)) =>
        if written != |data| then Step(t, d1, None)
        else
          var crc := Crc32(t.crc, data);
          Step(t.(crc := crc, offset := t.offset + |data|, accepted := t.accepted + data), d1,
               Some(BlockReply(t.id, t.offset, [], crc)))
  }

  // `commit_file_write`
  function Commit(t: Transfer, d: Disk, p: bytes): Step
    requires Sized(t)
  {
    hide GetU16;
    if t.kind != WriteFile || |p| != 2 || GetU16(p[..2]) != t.id || t.offset != t.size || t.crc != t.expected
      || t.handle.None? then
      Step(t, d, None)
    else
      ReplaceFile(t.(handle := None), Close(d, t.handle.value))
  }

  // With the temporary file closed: the destination is removed, and the temporary takes its name.
  function ReplaceFile(t: Transfer, d: Disk): Step
    requires Sized(t)
  {
    match Open(d, t.path)
    case (d1, Some(existing)) =>
      var d2 := Close(d1, existing);
      if !t.overwrite then GiveUp(t, d2)
      else
        var (d3, removed) := Remove(d2, t.path);
        if !removed then GiveUp(t, d3) else RenameTemp(t, d3)
    case (d1, None) => RenameTemp(t, d1)
  }

  function RenameTemp(t: Transfer, d: Disk): Step
    requires Sized(t)
  {
    var (d1, renamed) := Rename(d, t.temp, t.path);
    if !renamed then GiveUp(t, d1) else Step(t.(kind := NoTransfer), d1, Some(EndReply(t.size, t.crc)))
  }

  function GiveUp(t: Transfer, d: Disk): Step {
    var (closed, d1) := CloseTransfer(t, d, true);
    Step(closed, d1, None)
  }

  // `abort_transfer`: the reply of a success is empty.
  function Abort(t: Transfer, d: Disk, p: bytes): Step {
    hide GetU16;
    if |p| != 2 || t.kind == NoTransfer || GetU16(p[..2]) != t.id then Step(t, d, None)
    else
      var (closed, d1) := CloseTransfer(t, d, true);
      Step(closed, d1, Some([]))
  }

  // `begin_graphics`
  function BeginGraphics(t: Transfer, d: Disk, p: bytes, picture: Option<Picture>, drawn: Word): Step {
    hide PutU16;
    if p != [] || t.kind != NoTransfer || picture.None? then Step(t, d, None)
    else
      var id := NextTransferId(drawn);
      Step(t.(kind := ReadScreen, id := id, size := |picture.value.data|, offset := 0, crc := 0), d,
           Some(PutU16(id) + picture.value.description))
  }

  // While a picture is being sent it stays as it was described.
  predicate Still(t: Transfer, picture: Option<Picture>) {
    t.kind == ReadScreen ==> picture.Some? && t.size == |picture.value.data|
  }

  // `read_graphics_block`, from video memory.
  function ReadGraphics(t: Transfer, d: Disk, p: bytes, picture: Option<Picture>): Step
    requires Sized(t) && Still(t, picture)
  {
    hide Wanted;
    var wanted := Wanted(t, p);
    if t.kind != ReadScreen || wanted.None? then Step(t, d, None)
    else SentBlock(t, d, picture.value.data[t.offset..t.offset + wanted.value])
  }
}
