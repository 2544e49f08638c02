/**
 What a server may do with transfer requests, whichever server it is: one transfer at a time,
 sequential blocks, a rolling CRC-32, and a commit only of exactly the announced bytes; and what it
 is obliged to. The simulator and the agent are proved to stay within it, the bridge correct against it.
 */
module TransferSpec {
  import opened Bytes
  import opened Checksums

  // What a block-wise download reads: a file or a graphics capture.
  datatype Source = File(path: bytes) | Graphics

  datatype Request =
    | ReadBegin(source: Source)
    | ReadBlock(graphics: bool, id: Word, offset: Long, length: Word)
    | ReadEnd(graphics: bool, id: Word)
    | WriteBegin(path: bytes, size: Long, crc: bv32, overwrite: bool)
    | WriteBlock(id: Word, offset: Long, data: bytes)
    | WriteCommit(id: Word)
    | Abort(id: Word)

  datatype Reply =
    | Begun(id: Word, size: nat)
    | Block(id: Word, offset: nat, data: bytes, crc: bv32)
    | Ended(size: nat, crc: bv32)
    | Done
    | Refused

  datatype Transfer =
    | Idle
    | Reading(id: Word, source: Source, snapshot: bytes, offset: nat)
    | Writing(id: Word, path: bytes, accepted: bytes, size: nat, crc: bv32, overwrite: bool)

  // A committed upload, and the number of the request that committed it.
  datatype Commit = Commit(number: nat, path: bytes, data: bytes, overwrite: bool)

  // A snapshot opened for reading, and the number of the request that opened it.
  datatype Opening = Opening(number: nat, source: Source, snapshot: bytes)

  datatype Server = Server(transfer: Transfer, openings: seq<Opening>, commits: seq<Commit>)

  predicate Prefixed(t: Transfer) {
    t.Reading? ==> t.offset <= |t.snapshot|
  }

  predicate Valid(s: Server) {
    Prefixed(s.transfer) && (s.transfer.Writing? ==> |s.transfer.accepted| <= s.transfer.size)
  }

  // A request that begins a transfer: only when none is active.
  predicate Begins(s: Server, number: nat, request: Request, next: Server, reply: Reply) {
    && s.transfer == Idle && next.commits == s.commits && reply.Begun? && reply.id != 0
    && match request {
         case ReadBegin(source) =>
           && next.transfer.Reading? && next.transfer == Reading(reply.id, source, next.transfer.snapshot, 0)
           && reply.size == |next.transfer.snapshot|
           && next.openings == s.openings + [Opening(number, source, next.transfer.snapshot)]
         case WriteBegin(path, size, crc, overwrite) =>
           && next.transfer == Writing(reply.id, path, [], size, crc, overwrite) && reply.size == size
           && next.openings == s.openings
         case _ => false
       }
  }

  // A block in sequence: of the snapshot, as many bytes as the server likes up to the length
  // asked for; or onto the accepted bytes. The reply shows the CRC-32 of everything so far.
  predicate Moves(s: Server, request: Request, next: Server, reply: Reply)
    requires Valid(s)
  {
    var t := s.transfer;
    && next.commits == s.commits && next.openings == s.openings && reply.Block?
    && match request {
         case ReadBlock(graphics, id, offset, length) =>
           && t.Reading? && t.id == id && t.source.Graphics? == graphics && t.offset == offset
           && |reply.data| <= length && t.offset + |reply.data| <= |t.snapshot|
           && reply.data == t.snapshot[t.offset..t.offset + |reply.data|]
           && next.transfer == t.(offset := t.offset + |reply.data|)
           && reply == Block(id, offset, reply.data, Crc32(0, t.snapshot[..t.offset + |reply.data|]))
         case WriteBlock(id, offset, data) =>
           && t.Writing? && t.id == id && |t.accepted| == offset && offset + |data| <= t.size
           && next.transfer == t.(accepted := t.accepted + data)
           && reply == Block(id, offset, [], Crc32(0, t.accepted + data))
         case _ => false
       }
  }

  // The end of a transfer: complete, and for an upload with the announced checksum.
  predicate Ends(s: Server, number: nat, request: Request, next: Server, reply: Reply)
    requires Valid(s)
  {
    var t := s.transfer;
    && next.transfer == Idle && next.openings == s.openings
    && match request {
         case ReadEnd(_, id) =>
           && t.Reading? && t.id == id && t.offset == |t.snapshot|
           && next.commits == s.commits && reply == Ended(|t.snapshot|, Crc32(0, t.snapshot))
         case WriteCommit(id) =>
           && t.Writing? && t.id == id && |t.accepted| == t.size && Crc32(0, t.accepted) == t.crc
           && next.commits == s.commits + [Commit(number, t.path, t.accepted, t.overwrite)]
           && reply == Ended(t.size, t.crc)
         case _ => false
       }
  }

  // The transfer under way, by the identifier it was begun under.
  predicate Active(s: Server, id: Word) {
    !s.transfer.Idle? && s.transfer.id == id
  }

  // An abort: of the transfer it names, or of none.
  predicate Aborts(s: Server, request: Request, next: Server, reply: Reply) {
    request.Abort? && reply == Done && next == if Active(s, request.id) then s.(transfer := Idle) else s
  }

  // Any request may be refused, without effect but for a commit that gives its upload up.
  predicate Refuses(s: Server, request: Request, next: Server, reply: Reply) {
    reply == Refused && (next == s || (request.WriteCommit? && next == s.(transfer := Idle)))
  }

  /** One dispatched request. */
  predicate Allowed(s: Server, number: nat, request: Request, next: Server, reply: Reply)
    requires Valid(s)
  {
    || Refuses(s, request, next, reply)
    || Aborts(s, request, next, reply)
    || Begins(s, number, request, next, reply)
    || Moves(s, request, next, reply)
    || Ends(s, number, request, next, reply)
  }

  // --- Serving all there is to serve ---

  const MAX_TRANSFER := 1_048_576
  const MAX_BLOCK := 900

  // A request in its place: a begin when nothing is under way, a block of the transfer at the place
  // it has reached, and its end when it is complete.
  predicate InPlace(s: Server, request: Request) {
    var t := s.transfer;
    match request
    case ReadBegin(_) => t == Idle
    case WriteBegin(_, size, _, _) => t == Idle && size <= MAX_TRANSFER
    case ReadBlock(graphics, id, offset, length) =>
      && t.Reading? && t.id == id && t.source.Graphics? == graphics
      && t.offset == offset < |t.snapshot| && 1 <= length <= MAX_BLOCK
    case ReadEnd(graphics, id) =>
      t.Reading? && t.id == id && t.source.Graphics? == graphics && t.offset == |t.snapshot|
    case WriteBlock(id, offset, data) =>
      t.Writing? && t.id == id && |t.accepted| == offset && 1 <= |data| <= MAX_BLOCK && offset + |data| <= t.size
    case WriteCommit(id) =>
      t.Writing? && t.id == id && |t.accepted| == t.size && Crc32(0, t.accepted) == t.crc
    case Abort(id) => Active(s, id)
  }

  // A server that serves every request in its place, and a block by at least one byte.
  predicate Obliges(s: Server, number: nat, request: Request, next: Server, reply: Reply)
    requires Valid(s)
  {
    && Allowed(s, number, request, next, reply)
    && (InPlace(s, request) ==> reply != Refused && (request.ReadBlock? && reply.Block? ==> reply.data != []))
  }

  // One that always does: it opens this content under this identifier, and fills its blocks.
  function Served(s: Server, number: nat, request: Request, id: Word, content: bytes): (r: (Server, Reply))
    requires Valid(s) && id != 0
    ensures Obliges(s, number, request, r.0, r.1)
  {
    hide Crc32;
    var t := s.transfer;
    if !InPlace(s, request) then (s, Refused)
    else
      match request
      case ReadBegin(source) =>
        (Server(Reading(id, source, content, 0), s.openings + [Opening(number, source, content)], s.commits),
         Begun(id, |content|))
      case WriteBegin(path, size, crc, overwrite) =>
        (s.(transfer := Writing(id, path, [], size, crc, overwrite)), Begun(id, size))
      case ReadBlock(_, _, offset, length) =>
        var end := Min(offset + length, |t.snapshot|);
        (s.(transfer := t.(offset := end)),
         Block(t.id, offset, t.snapshot[offset..end], Crc32(0, t.snapshot[..end])))
      case ReadEnd(_, _) => (s.(transfer := Idle), Ended(|t.snapshot|, Crc32(0, t.snapshot)))
      case WriteBlock(_, offset, data) =>
        (s.(transfer := t.(accepted := t.accepted + data)), Block(t.id, offset, [], Crc32(0, t.accepted + data)))
      case WriteCommit(_) =>
        (Server(Idle, s.openings, s.commits + [Commit(number, t.path, t.accepted, t.overwrite)]), Ended(t.size, t.crc))
      case Abort(_) => (if Active(s, request.id) then s.(transfer := Idle) else s, Done)
  }

  lemma AllowedKeepsValid(s: Server, number: nat, request: Request, next: Server, reply: Reply)
    requires Valid(s) && Allowed(s, number, request, next, reply)
    ensures Valid(next)
  {
    hide Crc32;
  }
}
