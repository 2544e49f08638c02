/**
 The agent as a transfer server: every request it serves, seen without its handles and its disk,
 is a step TransferSpec allows, so that what is proved of the bridge against that specification
 holds against this agent. Runs that show where the code falls short of its intent close the file.
 */
module AgentServer {
  import opened AgentTransfers
  import opened Bytes
  import opened Checksums
  import opened DosFiles
  import opened DosPaths
  import opened PacketCodec
  import opened PacketMac
  import opened TransferSafety
  import opened Wrappers
  import T = TransferSpec

  function Abstract(picture: Option<Picture>, t: Transfer, d: Disk): T.Transfer {
    match t.kind
    case NoTransfer => T.Idle
    case ReadFile => T.Reading(t.id, T.File(t.path), if t.path in d.files then d.files[t.path] else [], t.offset)
    case WriteFile => T.Writing(t.id, t.path, t.accepted, t.size, t.expected, t.overwrite)
    case ReadScreen =>
      T.Reading(t.id, T.Graphics, if picture.Some? then picture.value.data else [], t.offset)
  }

  // The destination a request names, when it is one the agent accepts.
  function Named(config: Config, value: bytes): Path {
    match BuildPath(config, value)
    case Some(path) => path
    case None => []
  }

  // What the bytes of a request ask for. Where they ask for nothing, the answer can only be a refusal.
  function Asked(config: Config, op: Operation, p: bytes): T.Request {
    hide GetU16, GetU32, Value, Named, Word32;
    match op
    case ReadBeginOp(_) => T.ReadBegin(T.File(if |p| > 0 then Named(config, p[1..]) else []))
    case ReadBlockOp => if |p| != 8 then T.Abort(0) else T.ReadBlock(false, GetU16(p[..2]), GetU32(p[2..6]), GetU16(p[6..8]))
    case EndOp(graphics) => if |p| != 2 then T.Abort(0) else T.ReadEnd(graphics, GetU16(p[..2]))
    case WriteBeginOp(_) =>
      if |p| < 10 then T.Abort(0)
      else T.WriteBegin(Named(config, p[10..]), GetU32(p[1..5]), Word32(p[5..9]), Value(p[0]) == 1)
    case WriteBlockOp => if |p| < 8 then T.Abort(0) else T.WriteBlock(GetU16(p[..2]), GetU32(p[2..6]), p[8..])
    case CommitOp => if |p| != 2 then T.Abort(0) else T.WriteCommit(GetU16(p[..2]))
    case AbortOp => if |p| != 2 then T.Abort(0) else T.Abort(GetU16(p[..2]))
    case GraphicsBeginOp(_) => T.ReadBegin(T.Graphics)
    case GraphicsBlockOp =>
      if |p| != 8 then T.Abort(0) else T.ReadBlock(true, GetU16(p[..2]), GetU32(p[2..6]), GetU16(p[6..8]))
    case ExpireOp => T.Abort(0)
  }

  // The bytes of a reply are those of what it says.
  ghost predicate Says(op: Operation, sent: Option<bytes>, reply: T.Reply) {
    match sent
    case None => reply == T.Refused
    case Some(r) =>
      match op
      case ReadBeginOp(_) => reply.Begun? && reply.size < 0x1_0000_0000 && r == BeginReply(reply.id, reply.size)
      case WriteBeginOp(_) => reply.Begun? && reply.size < 0x1_0000_0000 && r == BeginReply(reply.id, reply.size)
      case GraphicsBeginOp(_) => reply.Begun? && |r| >= 2 && r[..2] == PutU16(reply.id)
      case AbortOp => reply == T.Done && r == []
      case EndOp(_) => reply.Ended? && reply.size < 0x1_0000_0000 && r == EndReply(reply.size, reply.crc)
      case CommitOp => reply.Ended? && reply.size < 0x1_0000_0000 && r == EndReply(reply.size, reply.crc)
      case ExpireOp => false
      case _ =>
        reply.Block? && reply.offset < 0x1_0000_0000 && |reply.data| <= TRANSFER_BLOCK_MAX
        && r == BlockReply(reply.id, reply.offset, reply.data, reply.crc)
  }

  ghost predicate Serves(server: T.Server, number: nat, config: Config, picture: Option<Picture>,
                         op: Operation, p: bytes, s: Step, next: T.Server, reply: T.Reply)
    requires T.Valid(server)
  {
    && T.Allowed(server, number, Asked(config, op, p), next, reply)
    && next.transfer == Abstract(picture, s.t, s.disk)
    && Says(op, s.reply, reply)
    && (op.GraphicsBeginOp? && reply.Begun? ==>
          && picture.Some? && reply.size == |picture.value.data|
          && s.reply == Some(PutU16(reply.id) + picture.value.description))
  }

  lemma ServesReadBegin(server: T.Server, number: nat, config: Config, picture: Option<Picture>,
                        t: Transfer, d: Disk, drawn: Word, p: bytes) returns (next: T.Server, reply: T.Reply)
    requires Inv(picture, t, d) && T.Valid(server) && server.transfer == Abstract(picture, t, d)
    ensures Serves(server, number, config, picture, ReadBeginOp(drawn), p, BeginRead(config, t, d, p, drawn), next, reply)
  {
    hide Value, BuildPath, Crc32, BeginReply;
    BeginReadKeeps(config, picture, t, d, p, drawn);
    var s := BeginRead(config, t, d, p, drawn);
    if s.reply == None {
      next, reply := server, T.Refused;
    } else {
      var source, content := T.File(s.t.path), d.files[s.t.path];
      next := T.Server(Abstract(picture, s.t, s.disk), server.openings + [T.Opening(number, source, content)], server.commits);
      reply := T.Begun(s.t.id, s.t.size);
    }
  }

  lemma WantedAsks(t: Transfer, p: bytes)
    requires Wanted(t, p).Some?
    ensures |p| == 8 && GetU16(p[..2]) == t.id && GetU32(p[2..6]) == t.offset && Wanted(t, p).value <= GetU16(p[6..8])
  {
    hide GetU16, GetU32;
  }

  lemma ServesBlock(server: T.Server, number: nat, config: Config, picture: Option<Picture>,
                    t: Transfer, d: Disk, p: bytes) returns (next: T.Server, reply: T.Reply)
    requires Inv(picture, t, d) && T.Valid(server) && server.transfer == Abstract(picture, t, d)
    ensures Serves(server, number, config, picture, ReadBlockOp, p, ReadBlock(t, d, p), next, reply)
  {
    hide GetU16, GetU32, Crc32, BlockReply, Wanted;
    if Wanted(t, p).Some? {
      WantedAsks(t, p);
    }
    ReadBlockKeeps(picture, t, d, p);
    var s := ReadBlock(t, d, p);
    if s.reply == None {
      next, reply := server, T.Refused;
    } else {
      next := server.(transfer := Abstract(picture, s.t, s.disk));
      reply := T.Block(t.id, t.offset, d.files[t.path][t.offset..s.t.offset], s.t.crc);
    }
  }

  lemma ServesGraphicsBlock(server: T.Server, number: nat, config: Config, picture: Option<Picture>,
                            t: Transfer, d: Disk, p: bytes) returns (next: T.Server, reply: T.Reply)
    requires Inv(picture, t, d) && T.Valid(server) && server.transfer == Abstract(picture, t, d)
    ensures Serves(server, number, config, picture, GraphicsBlockOp, p, ReadGraphics(t, d, p, picture), next, reply)
  {
    hide GetU16, GetU32, Crc32, BlockReply, Wanted;
    if Wanted(t, p).Some? {
      WantedAsks(t, p);
    }
    GraphicsKeeps(picture, t, d, p, 0);
    var s := ReadGraphics(t, d, p, picture);
    if s.reply == None {
      next, reply := server, T.Refused;
    } else {
      next := server.(transfer := Abstract(picture, s.t, s.disk));
      reply := T.Block(t.id, t.offset, picture.value.data[t.offset..s.t.offset], s.t.crc);
    }
  }

  lemma ServesGraphicsBegin(server: T.Server, number: nat, config: Config, picture: Option<Picture>,
                            t: Transfer, d: Disk, drawn: Word, p: bytes) returns (next: T.Server, reply: T.Reply)
    requires Inv(picture, t, d) && T.Valid(server) && server.transfer == Abstract(picture, t, d)
    ensures Serves(server, number, config, picture, GraphicsBeginOp(drawn), p, BeginGraphics(t, d, p, picture, drawn), next, reply)
  {
    hide Crc32, PutU16;
    var s := BeginGraphics(t, d, p, picture, drawn);
    if s.reply == None {
      next, reply := server, T.Refused;
    } else {
      next := T.Server(Abstract(picture, s.t, s.disk),
                       server.openings + [T.Opening(number, T.Graphics, picture.value.data)], server.commits);
      reply := T.Begun(s.t.id, s.t.size);
    }
  }

  lemma ServesEnd(server: T.Server, number: nat, config: Config, picture: Option<Picture>,
                  t: Transfer, d: Disk, graphics: bool, p: bytes) returns (next: T.Server, reply: T.Reply)
    requires Inv(picture, t, d) && T.Valid(server) && server.transfer == Abstract(picture, t, d)
    ensures Serves(server, number, config, picture, EndOp(graphics), p, EndRead(t, d, p), next, reply)
  {
    hide GetU16, Crc32, EndReply;
    var s := EndRead(t, d, p);
    if s.reply == None {
      next, reply := server, T.Refused;
    } else {
      next, reply := server.(transfer := T.Idle), T.Ended(t.size, t.crc);
      var content := if t.kind == ReadFile then d.files[t.path] else picture.value.data;
      assert content[..t.offset] == content;
    }
  }

  // What an upload that begins takes from its request.
  lemma BegunUpload(config: Config, t: Transfer, d: Disk, p: bytes, drawn: Word)
    ensures var s := BeginWrite(config, t, d, p, drawn);
      if s.reply == None then s.t.kind == t.kind && (t.kind == NoTransfer || s == Step(t, d, None))
      else
        && t.kind == NoTransfer && s.t.kind == WriteFile && s.t.id == NextTransferId(drawn) && s.t.accepted == []
        && |p| >= 10 && BuildPath(config, p[10..]) == Some(s.t.path) && s.t.size == GetU32(p[1..5])
        && s.t.expected == Word32(p[5..9]) && s.t.overwrite == (Value(p[0]) == 1)
        && s.reply == Some(BeginReply(s.t.id, s.t.size))
  {
    hide Value, GetU32, BuildPath, BeginReply, MakeTemp, Word32, Open, Close;
  }

  lemma ServesWriteBegin(server: T.Server, number: nat, config: Config, picture: Option<Picture>,
                         t: Transfer, d: Disk, drawn: Word, p: bytes) returns (next: T.Server, reply: T.Reply)
    requires Inv(picture, t, d) && T.Valid(server) && server.transfer == Abstract(picture, t, d)
    ensures Serves(server, number, config, picture, WriteBeginOp(drawn), p, BeginWrite(config, t, d, p, drawn), next, reply)
  {
    hide Value, GetU32, BuildPath, Crc32, BeginReply, BeginWrite, Word32;
    BeginWriteKeeps(config, picture, t, d, p, drawn);
    BegunUpload(config, t, d, p, drawn);
    var s := BeginWrite(config, t, d, p, drawn);
    if s.reply == None {
      next, reply := server, T.Refused;
    } else {
      next, reply := server.(transfer := Abstract(picture, s.t, s.disk)), T.Begun(s.t.id, s.t.size);
    }
  }

  lemma ServesWriteBlock(server: T.Server, number: nat, config: Config, picture: Option<Picture>,
                         t: Transfer, d: Disk, p: bytes) returns (next: T.Server, reply: T.Reply)
    requires Inv(picture, t, d) && T.Valid(server) && server.transfer == Abstract(picture, t, d)
    ensures Serves(server, number, config, picture, WriteBlockOp, p, WriteBlock(t, d, p), next, reply)
  {
    hide GetU16, GetU32, Crc32, BlockReply;
    WriteBlockKeeps(picture, t, d, p);
    var s := WriteBlock(t, d, p);
    if s.reply == None {
      next, reply := server, T.Refused;
    } else {
      next, reply := server.(transfer := Abstract(picture, s.t, s.disk)), T.Block(t.id, t.offset, [], s.t.crc);
    }
  }

  lemma ServesCommit(server: T.Server, number: nat, config: Config, picture: Option<Picture>,
                     t: Transfer, d: Disk, p: bytes) returns (next: T.Server, reply: T.Reply)
    requires Inv(picture, t, d) && T.Valid(server) && server.transfer == Abstract(picture, t, d)
    ensures Serves(server, number, config, picture, CommitOp, p, Commit(t, d, p), next, reply)
    ensures Commit(t, d, p).reply.Some? ==>
      next.commits == server.commits + [T.Commit(number, t.path, t.accepted, t.overwrite)]
  {
    hide GetU16, Crc32, EndReply, Commit;
    CommitKeeps(picture, t, d, p);
    var s := Commit(t, d, p);
    if s.reply == None {
      next, reply := server.(transfer := Abstract(picture, s.t, s.disk)), T.Refused;
    } else {
      CommitReplaces(picture, t, d, p);
      next := T.Server(T.Idle, server.openings, server.commits + [T.Commit(number, t.path, t.accepted, t.overwrite)]);
      reply := T.Ended(t.size, t.crc);
    }
  }

  lemma ServesAbort(server: T.Server, number: nat, config: Config, picture: Option<Picture>,
                    t: Transfer, d: Disk, p: bytes) returns (next: T.Server, reply: T.Reply)
    requires Inv(picture, t, d) && T.Valid(server) && server.transfer == Abstract(picture, t, d)
    ensures Serves(server, number, config, picture, AbortOp, p, Abort(t, d, p), next, reply)
  {
    hide GetU16, Crc32;
    var s := Abort(t, d, p);
    if s.reply == None {
      next, reply := server, T.Refused;
    } else {
      next, reply := server.(transfer := T.Idle), T.Done;
    }
  }

  /**
   Every request the agent serves is a step the specification allows, answered in the bytes of
   that step's reply.
   */
  lemma AgentIsServer(server: T.Server, number: nat, config: Config, picture: Option<Picture>,
                      t: Transfer, d: Disk, op: Operation, p: bytes) returns (next: T.Server, reply: T.Reply)
    requires Inv(picture, t, d) && T.Valid(server) && server.transfer == Abstract(picture, t, d)
    requires !op.ExpireOp?
    ensures Serves(server, number, config, picture, op, p, Perform(config, picture, t, d, op, p), next, reply)
  {
    hide Inv, Serves, Abstract, BeginRead, ReadBlock, EndRead, BeginWrite, WriteBlock, Commit, Abort, BeginGraphics, ReadGraphics;
    InvParts(picture, t, d);
    match op
    case ReadBeginOp(drawn) => next, reply := ServesReadBegin(server, number, config, picture, t, d, drawn, p);
    case ReadBlockOp => next, reply := ServesBlock(server, number, config, picture, t, d, p);
    case EndOp(graphics) => next, reply := ServesEnd(server, number, config, picture, t, d, graphics, p);
    case WriteBeginOp(drawn) => next, reply := ServesWriteBegin(server, number, config, picture, t, d, drawn, p);
    case WriteBlockOp => next, reply := ServesWriteBlock(server, number, config, picture, t, d, p);
    case CommitOp => next, reply := ServesCommit(server, number, config, picture, t, d, p);
    case AbortOp => next, reply := ServesAbort(server, number, config, picture, t, d, p);
    case GraphicsBeginOp(drawn) => next, reply := ServesGraphicsBegin(server, number, config, picture, t, d, drawn, p);
    case GraphicsBlockOp => next, reply := ServesGraphicsBlock(server, number, config, picture, t, d, p);
  }

  // --- Runs that fall short ---

  lemma TwoBytes(id: Word)
    ensures var p := PutU16(id); |p| == 2 && GetU16(p[..2]) == id
  {
    hide PutU16, GetU16;
    U16RoundTrip(id);
    assert PutU16(id)[..2] == PutU16(id);
  }

  /** An allowed overwrite whose last call fails: the commit is refused and the old file is gone. */
  lemma RenameFailureLosesFile(path: Path, temp: Path, was: bytes, data: bytes, id: Word)
      returns (t: Transfer, d: Disk, p: bytes)
    requires path != temp && |data| <= TSR_FILE_MAX
    ensures Inv(None, t, d) && t.overwrite && t.base == map[path := was]
    ensures var s := Commit(t, d, p); s.reply == None && s.t.kind == NoTransfer && s.disk.files == map[]
  {
    hide PutU16, GetU16, Crc32;
    var base: map<Path, bytes> := map[path := was];
    t := Transfer(WriteFile, id, Some(0), |data|, |data|, Crc32(0, data), Crc32(0, data), true, path, temp, data, base);
    d := Disk(base[temp := data], map[0 := Cursor(temp, |data|)], 1,
              [Moves(9), Moves(9), Moves(9), Moves(9), Fails, Moves(9)], true, []);
    p := PutU16(id);
    TwoBytes(id);
    assert d.cursors.Keys == {0};
    RenameOntoFreeFails(t, d, p);
  }

  lemma RenameOntoFreeFails(t: Transfer, d: Disk, p: bytes)
    requires Committing(t, p) && t.handle == Some(0) && Sized(t) && t.overwrite && t.path != t.temp
    requires t.path in t.base && t.base == map[t.path := t.base[t.path]]
    requires t.temp in d.files && d.files == t.base[t.temp := d.files[t.temp]]
    requires d.fates == [Moves(9), Moves(9), Moves(9), Moves(9), Fails, Moves(9)]
    ensures var s := Commit(t, d, p); s.reply == None && s.t.kind == NoTransfer && s.disk.files == map[]
  {
    hide GetU16, ReplaceFile;
    var d0 := Close(d, 0);
    assert d0.fates == [Moves(9), Moves(9), Moves(9), Fails, Moves(9)];
    RemoveThenFail(t.(handle := None), d0);
  }

  lemma RemoveThenFail(t: Transfer, d0: Disk)
    requires t.kind == WriteFile && t.handle == None && Sized(t) && t.overwrite && t.path != t.temp
    requires t.path in d0.files && t.temp in d0.files && d0.files.Keys == {t.path, t.temp}
    requires d0.fates == [Moves(9), Moves(9), Moves(9), Fails, Moves(9)]
    ensures var s := ReplaceFile(t, d0); s.reply == None && s.t.kind == NoTransfer && s.disk.files == map[]
  {
    hide RenameTemp;
    var (d1, existing) := Open(d0, t.path);
    var d2 := Close(d1, existing.value);
    assert d2.fates == [Moves(9), Fails, Moves(9)];
    var (d3, removed) := Remove(d2, t.path);
    assert removed && d3.fates == [Fails, Moves(9)];
    assert d3.files.Keys == {t.temp};
    FailThenGiveUp(t, d3);
  }

  lemma FailThenGiveUp(t: Transfer, d3: Disk)
    requires t.kind == WriteFile && t.handle == None && Sized(t) && t.path != t.temp
    requires d3.files.Keys == {t.temp} && d3.fates == [Fails, Moves(9)]
    ensures var s := RenameTemp(t, d3); s.reply == None && s.t.kind == NoTransfer && s.disk.files == map[]
  {
    hide EndReply;
    var (d4, renamed) := Rename(d3, t.temp, t.path);
    assert !renamed && d4.fates == [Moves(9)] && d4.files == d3.files;
    var d5 := Remove(d4, t.temp).0;
    assert d5.files.Keys == {};
    assert d5.files == map[];
  }

  // The block request that carries these bytes at this offset.
  function BlockRequest(id: Word, offset: Long, data: bytes): bytes
    requires |data| < 0x1_0000
  {
    hide PutU16, PutU32;
    PutU16(id) + PutU32(offset) + PutU16(|data|) + data
  }

  lemma BlockRequestFields(id: Word, offset: Long, data: bytes)
    requires |data| < 0x1_0000
    ensures var p := BlockRequest(id, offset, data);
      |p| == 8 + |data| && GetU16(p[..2]) == id && GetU32(p[2..6]) == offset && GetU16(p[6..8]) == |data| && p[8..] == data
  {
    hide PutU16, PutU32, GetU16, GetU32;
    var p := BlockRequest(id, offset, data);
    U16RoundTrip(id);
    U32RoundTrip(offset);
    U16RoundTrip(|data|);
    assert p[..2] == PutU16(id) && p[2..6] == PutU32(offset) && p[6..8] == PutU16(|data|);
  }

  // The next write of a block, of which DOS takes so many bytes.
  lemma WriteTakes(t: Transfer, d: Disk, p: bytes, taken: nat)
    requires Inv(None, t, d) && t.kind == WriteFile && InSequence(t, p)
    requires NextFate(d).Moves? && taken == Min(|p[8..]|, NextFate(d).limit)
    ensures var s := WriteBlock(t, d, p);
      && t.temp in s.disk.files && s.disk.files[t.temp] == d.files[t.temp] + p[8..][..taken]
      && s.disk.fates == (if d.fates == [] then [] else d.fates[1..]) && s.disk.files.Keys == d.files.Keys
      && (taken < |p[8..]| ==> s.reply == None && s.t == t)
      && (taken == |p[8..]| ==>
            s.reply.Some? && s.t == t.(offset := s.t.offset, crc := s.t.crc, accepted := t.accepted + p[8..]))
  {
    hide InSequence, Crc32, BlockReply;
    InSequenceFits(t, p);
    var at := |d.files[t.temp]|;
    assert d.files[t.temp][..at] == d.files[t.temp];
  }

  /**
   A write cut short leaves its bytes in the temporary; when the block is sent again the commit
   passes every check, and what it leaves at the destination is not what was acknowledged.
   */
  lemma ShortWriteThenRetry(path: Path, temp: Path, id: Word, data: bytes)
      returns (t: Transfer, d: Disk, block: bytes, end: bytes)
    requires path != temp && 2 <= |data| <= TRANSFER_BLOCK_MAX
    ensures Inv(None, t, d) && t.kind == WriteFile && t.size == |data| && t.expected == Crc32(0, data)
    ensures var s1 := WriteBlock(t, d, block);
      && s1.reply == None && Sized(s1.t)
      && var s2 := WriteBlock(s1.t, s1.disk, block);
      && s2.reply.Some? && s2.t.accepted == data && Sized(s2.t)
      && var s3 := Commit(s2.t, s2.disk, end);
      s3.reply.Some? && path in s3.disk.files && s3.disk.files[path] == data[..1] + data
  {
    hide PutU16, GetU16, GetU32, Crc32, BlockReply, EndReply, BlockRequest;
    t := Transfer(WriteFile, id, Some(0), |data|, 0, 0, Crc32(0, data), false, path, temp, [], map[]);
    d := Disk(map[temp := []], map[0 := Cursor(temp, 0)], 1, [Moves(1)], true, []);
    block := BlockRequest(id, 0, data);
    end := PutU16(id);
    TwoBytes(id);
    BlockRequestFields(id, 0, data);
    Crc32Empty(0);
    assert d.cursors.Keys == {0};
    assert Inv(None, t, d);
    ShortThenWhole(t, d, block, data);
    var s1 := WriteBlock(t, d, block);
    var s2 := WriteBlock(s1.t, s1.disk, block);
    hide Inv, WriteBlock;
    Checked(s2.t, s2.disk, data, end);
    CommitOntoFree(s2.t, s2.disk, end);
  }

  // The two writes: the first cut to one byte, the second whole.
  lemma ShortThenWhole(t: Transfer, d: Disk, block: bytes, data: bytes)
    requires Inv(None, t, d) && t.kind == WriteFile && InSequence(t, block) && block[8..] == data && 2 <= |data|
    requires d.fates == [Moves(1)] && t.accepted == [] && t.temp in d.files && d.files == map[t.temp := []]
    ensures var s1 := WriteBlock(t, d, block);
      && s1.reply == None && s1.t == t && Inv(None, s1.t, s1.disk)
      && var s2 := WriteBlock(s1.t, s1.disk, block);
      && s2.reply.Some? && Inv(None, s2.t, s2.disk) && s2.disk.fates == [] && s2.disk.files.Keys == {t.temp}
      && s2.disk.files[t.temp] == data[..1] + data
      && s2.t == t.(offset := s2.t.offset, crc := s2.t.crc, accepted := data)
  {
    InvParts(None, t, d);
    WriteBlockKeeps(None, t, d, block);
    WriteTakes(t, d, block, 1);
    hide Inv, WriteBlock, InSequence;
    var s1 := WriteBlock(t, d, block);
    InvParts(None, s1.t, s1.disk);
    WriteBlockKeeps(None, s1.t, s1.disk, block);
    WriteTakes(s1.t, s1.disk, block, |data|);
    assert [] + data[..1] == data[..1] && data[..|data|] == data && [] + data == data;
  }

  // A complete upload passes the checks of its commit.
  lemma Checked(t: Transfer, d: Disk, data: bytes, p: bytes)
    requires Inv(None, t, d) && t.kind == WriteFile && t.accepted == data && t.size == |data| && t.expected == Crc32(0, data)
    requires |p| == 2 && GetU16(p[..2]) == t.id
    ensures Committing(t, p)
  {
    hide GetU16, Crc32;
  }

  lemma CommitOntoFree(t: Transfer, d: Disk, p: bytes)
    requires Inv(None, t, d) && Committing(t, p) && d.fates == [] && t.path !in d.files
    ensures var s := Commit(t, d, p); s.reply.Some? && t.path in s.disk.files && s.disk.files[t.path] == d.files[t.temp]
  {
    hide GetU16, Crc32, EndReply;
  }
}
