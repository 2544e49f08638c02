/**
 The handlers of the resident agent on the buffer that holds the request and then the reply.
 Whatever order they read and write it in, the reply they leave is the one the request, as it
 was received, calls for.
 */
module ResidentBuffer {
  import opened AgentTransfers
  import opened BiosKeys
  import opened Buffers
  import opened Bytes
  import opened Checksums
  import opened DosFiles
  import opened DosPaths
  import opened PacketCodec
  import opened PacketMac
  import opened Packets
  import opened ResidentReplies
  import opened TransferSafety
  import opened Wrappers

  // Twelve bytes in front of data already in place make a block reply.
  lemma BlockInPlace(s: bytes, id: Word, offset: Long, data: bytes, crc: bv32)
    requires |data| < 0x1_0000 && |s| >= 12 + |data|
    ensures var header := PutU16(id) + PutU32(offset) + PutU16(|data|) + WordBytes(crc);
      Written(Written(s, 12, data), 0, header) == Written(s, 0, BlockReply(id, offset, data, crc))
  {
    hide PutU16, PutU32, WordBytes;
    var header := PutU16(id) + PutU32(offset) + PutU16(|data|) + WordBytes(crc);
    assert BlockReply(id, offset, data, crc) == header + data;
    assert Written(Written(s, 12, data), 0, header) == header + data + s[12 + |data|..];
  }

  class Agent {
    const config: Config
    const workspace: array<byte>
    var kind: TransferKind
    var id: Word
    var handle: Option<nat>
    var size: nat
    var offset: nat
    var crc: bv32
    var expected: bv32
    var overwrite: bool
    var path: Path
    var temp: Path
    ghost var accepted: bytes
    ghost var base: map<Path, bytes>
    // Not memory of the agent: the disk DOS keeps, and the keyboard ring of the BIOS.
    var disk: Disk
    const keyboard: BiosDataArea
    // The reply as it goes out, fragment by fragment.
    var responseCount: nat
    var responseNext: nat
    var responsePending: bool
    var responseKind: Packets.Kind
    var responseOpcode: Opcode
    var responseId: Word
    var responseLength: nat
    var lastRequest: Option<Word>

    ghost function T(): Transfer
      reads this
    {
      Transfer(kind, id, handle, size, offset, crc, expected, overwrite, path, temp, accepted, base)
    }

    ghost predicate Ready()
      reads this
    {
      workspace.Length == REQUEST_BUFFER_SIZE && Sized(T())
    }

    predicate NoReplyYet()
      reads this
    {
      && responseKind == RESPONSE && responseOpcode == HELLO && responseId == 0 && responseLength == 0
      && responseCount == 0 && responseNext == 0 && !responsePending && lastRequest == None
    }

    constructor (config: Config, disk: Disk, keyboard: BiosDataArea)
      ensures Ready() && this.config == config && this.disk == disk && kind == NoTransfer && handle == None
      ensures this.keyboard == keyboard && fresh(workspace) && NoReplyYet()
    {
      this.keyboard := keyboard;
      responseCount, responseNext, responsePending := 0, 0, false;
      responseKind, responseOpcode, responseId, responseLength, lastRequest := RESPONSE, HELLO, 0, 0, None;
      this.config := config;
      this.disk := disk;
      workspace := new byte[REQUEST_BUFFER_SIZE](i => 0);
      kind, id, handle, size, offset := NoTransfer, 0, None, 0, 0;
      crc, expected, overwrite, path, temp := 0, 0, false, [], [];
      accepted, base := [], map[];
    }

    // The reply's first bytes, one field after the other.
    method PutHeader(blockOffset: Long, count: Word)
      requires workspace.Length == REQUEST_BUFFER_SIZE
      modifies workspace
      ensures workspace[..] == Written(old(workspace[..]), 0, PutU16(id) + PutU32(blockOffset) + PutU16(count) + WordBytes(crc))
    {
      hide PutU16, PutU32, WordBytes, Written;
      ghost var s := workspace[..];
      CopyTo(workspace, 0, PutU16(id));
      CopyTo(workspace, 2, PutU32(blockOffset));
      WrittenOn(s, PutU16(id), PutU32(blockOffset));
      CopyTo(workspace, 6, PutU16(count));
      WrittenOn(s, PutU16(id) + PutU32(blockOffset), PutU16(count));
      CopyTo(workspace, 8, WordBytes(crc));
      WrittenOn(s, PutU16(id) + PutU32(blockOffset) + PutU16(count), WordBytes(crc));
    }

    // `close_transfer`
    method CloseTransfer(removeTemporary: bool)
      modifies this`kind, this`handle, this`disk
      ensures (T(), disk) == AgentTransfers.CloseTransfer(old(T()), old(disk), removeTemporary)
    {
      hide DosFiles.Close, DosFiles.Remove;
      if handle.Some? {
        disk := DosFiles.Close(disk, handle.value);
      }
      handle := None;
      if removeTemporary && kind == WriteFile {
        disk := DosFiles.Remove(disk, temp).0;
      }
      kind := NoTransfer;
    }

    // How many bytes the block request in the buffer asks for; zero when it is out of sequence.
    method Requested(length: nat) returns (requested: nat)
      requires Ready() && length <= workspace.Length
      ensures requested == match Wanted(T(), workspace[..length]) case None => 0 case Some(n) => n
    {
      hide GetU16, GetU32;
      ghost var p := workspace[..length];
      if length != 8 {
        return 0;
      }
      Front(workspace, length, 2, 6);
      Front(workspace, length, 6, 8);
      assert p[..2] == workspace[..2];
      if GetU16(workspace[..2]) != id {
        return 0;
      }
      var from := GetU32(workspace[2..6]);
      requested := GetU16(workspace[6..8]);
      if from != offset || requested == 0 || requested > TRANSFER_BLOCK_MAX || from >= size {
        return 0;
      }
      if requested > size - from {
        requested := size - from;
      }
    }

    // Data in place from the thirteenth byte on becomes a block reply, and the transfer moves on.
    method FinishBlock(ghost before: bytes, ghost data: bytes, count: nat)
      requires Ready() && |before| == REQUEST_BUFFER_SIZE && count == |data| <= TRANSFER_BLOCK_MAX
      requires workspace[..] == Written(before, 12, data)
      requires offset + count <= size
      modifies workspace, this`crc, this`offset
      ensures var s := SentBlock(old(T()), old(disk), data);
        T() == s.t && disk == s.disk && s.reply.Some? && |s.reply.value| == 12 + count
        && workspace[..] == Written(before, 0, s.reply.value)
    {
      hide Crc32, BlockReply, PutU16, PutU32, WordBytes;
      assert workspace[12..12 + count] == data;
      hide Written;
      crc := Crc32Update(crc, workspace[12..12 + count]);
      PutHeader(offset, count);
      BlockInPlace(before, id, offset, data, crc);
      offset := offset + count;
    }

    // `read_transfer_block`: DOS reads straight into the buffer behind the place of the header.
    method ReadTransferBlock(length: nat) returns (n: nat)
      requires Ready() && length <= workspace.Length && (kind == ReadFile ==> handle.Some?)
      modifies workspace, this`crc, this`offset, this`disk
      ensures Leaves(ReadBlock(old(T()), old(disk), old(workspace[..length])),
                     T(), disk, old(workspace[..]), workspace[..], n)
    {
      hide Wanted, DosFiles.Read, Crc32, BlockReply, Written, SentBlock;
      ghost var p := workspace[..length];
      if kind != ReadFile {
        return 0;
      }
      var requested := Requested(length);
      if requested == 0 {
        return 0;
      }
      ghost var before := workspace[..];
      var (d, received) := DosFiles.Read(disk, handle.value, requested);
      disk := d;
      if received.None? || received.value == [] {
        return 0;
      }
      CopyTo(workspace, 12, received.value);
      FinishBlock(before, received.value, |received.value|);
      n := 12 + |received.value|;
    }

    // `read_graphics_block`: byte by byte out of video memory.
    method ReadGraphicsBlock(length: nat, picture: Option<Picture>) returns (n: nat)
      requires Ready() && length <= workspace.Length && Still(T(), picture)
      modifies workspace, this`crc, this`offset
      ensures Leaves(ReadGraphics(old(T()), old(disk), old(workspace[..length]), picture),
                     T(), disk, old(workspace[..]), workspace[..], n)
    {
      hide Wanted, Crc32, BlockReply, SentBlock, Written;
      if kind != ReadScreen {
        return 0;
      }
      var requested := Requested(length);
      if requested == 0 {
        return 0;
      }
      ghost var before := workspace[..];
      CopyPicture(picture.value.data, requested);
      FinishBlock(before, picture.value.data[offset..offset + requested], requested);
      n := 12 + requested;
    }

    // Video memory from the offset on, behind the place of the header.
    method CopyPicture(memory: bytes, requested: nat)
      requires Ready() && requested <= TRANSFER_BLOCK_MAX && offset + requested <= |memory|
      modifies workspace
      ensures workspace[..] == Written(old(workspace[..]), 12, memory[offset..offset + requested])
    {
      ghost var before, data := workspace[..], memory[offset..offset + requested];
      for index := 0 to requested
        invariant workspace[12..12 + index] == data[..index]
        invariant workspace[..12] == before[..12] && workspace[12 + index..] == before[12 + index..]
      {
        workspace[12 + index] := memory[offset + index];
        assert workspace[12..12 + index + 1] == workspace[12..12 + index] + [data[index]];
        assert data[..index + 1] == data[..index] + [data[index]];
        assert workspace[12 + index + 1..] == before[12 + index + 1..];
      }
      assert data[..requested] == data;
      assert workspace[..] == workspace[..12] + workspace[12..12 + requested] + workspace[12 + requested..];
    }

    // `end_read_transfer`
    method EndReadTransfer(length: nat) returns (n: nat)
      requires Ready() && length <= workspace.Length
      modifies workspace, this`kind, this`handle, this`disk
      ensures Leaves(EndRead(old(T()), old(disk), old(workspace[..length])),
                     T(), disk, old(workspace[..]), workspace[..], n)
    {
      hide GetU16, PutU32, WordBytes, DosFiles.Close, Written;
      ghost var p := workspace[..length];
      if (kind != ReadFile && kind != ReadScreen) || length != 2 {
        return 0;
      }
      assert p[..2] == workspace[..2];
      if GetU16(workspace[..2]) != id || offset != size {
        return 0;
      }
      ghost var s := workspace[..];
      CopyTo(workspace, 0, PutU32(size));
      CopyTo(workspace, 4, WordBytes(crc));
      WrittenOn(s, PutU32(size), WordBytes(crc));
      CloseTransfer(false);
      n := 8;
    }

    // A begin reply over the request.
    method PutBegin(total: Long)
      requires workspace.Length == REQUEST_BUFFER_SIZE
      modifies workspace
      ensures workspace[..] == Written(old(workspace[..]), 0, BeginReply(id, total))
    {
      hide PutU16, PutU32, Written;
      ghost var s := workspace[..];
      CopyTo(workspace, 0, PutU16(id));
      CopyTo(workspace, 2, PutU32(total));
      WrittenOn(s, PutU16(id), PutU32(total));
    }

    // `begin_file_read`
    method BeginFileRead(length: nat, drawn: Word) returns (n: nat)
      requires Ready() && length <= workspace.Length && (kind == NoTransfer ==> handle == None)
      modifies workspace, this`kind, this`id, this`handle, this`size, this`offset, this`crc, this`expected,
        this`overwrite, this`path, this`temp, this`accepted, this`base, this`disk
      ensures Leaves(BeginRead(config, old(T()), old(disk), old(workspace[..length]), drawn),
                     T(), disk, old(workspace[..]), workspace[..], n)
      ensures Ready()
    {
      hide Value, BuildPath, DosFiles.Open, DosFiles.Size, StartRead;
      ghost var p := workspace[..length];
      if !config.allowRead || kind != NoTransfer || length < 2 || length != Value(workspace[0]) + 1 {
        return 0;
      }
      assert workspace[1..length] == p[1..];
      var named := BuildPath(config, workspace[1..length]);
      if named.None? {
        return 0;
      }
      path := named.value;
      var (d1, opened') := DosFiles.Open(disk, path);
      disk := d1;
      if opened'.None? {
        return 0;
      }
      handle := opened';
      n := MeasureFile(drawn);
    }

    // The second half of `begin_file_read`, with the file open.
    method MeasureFile(drawn: Word) returns (n: nat)
      requires Ready() && handle.Some?
      modifies workspace, this`kind, this`id, this`handle, this`size, this`offset, this`crc, this`expected,
        this`overwrite, this`path, this`temp, this`accepted, this`base, this`disk
      ensures Leaves(StartRead(old(T()), DosFiles.Size(old(disk), old(handle.value)), drawn),
                     T(), disk, old(workspace[..]), workspace[..], n)
      ensures Ready()
    {
      hide DosFiles.Size, DosFiles.Close, BeginReply;
      var (d2, measured) := DosFiles.Size(disk, handle.value);
      disk := d2;
      if measured.None? || measured.value > TSR_FILE_MAX {
        CloseTransfer(false);
        return 0;
      }
      kind := ReadFile;
      size := measured.value;
      offset := 0;
      crc := 0;
      id := NextTransferId(drawn);
      PutBegin(size);
      n := 6;
    }

    // `create_transfer_temp`: sixteen attempts.
    method CreateTransferTemp(fresh': Word) returns (created: bool)
      modifies this`disk, this`handle, this`temp
      ensures var (d, made) := MakeTemp(config, old(disk), path, fresh');
        && disk == d && created == made.Some?
        && (made.Some? ==> temp == made.value.0 && handle == Some(made.value.1))
        && (!created ==> handle == old(handle))
      ensures !created ==> temp == []
    {
      hide TempName, DosFiles.CreateNew, TempPrefix;
      var prefix := TempPrefix(config, path);
      if prefix.None? {
        temp := [];
        return false;
      }
      var attempt := 0;
      while attempt < 16
        invariant attempt <= 16 && handle == old(handle)
        invariant CreateTemp(old(disk), prefix.value, path, fresh', 0) == CreateTemp(disk, prefix.value, path, fresh', attempt)
      {
        temp := TempName(prefix.value, fresh', attempt);
        if temp != path {
          var (d, made) := DosFiles.CreateNew(disk, temp);
          disk := d;
          if made.Some? {
            handle := made;
            return true;
          }
        }
        attempt := attempt + 1;
      }
      temp := [];
      return false;
    }

    // `begin_file_write`: the fields of the request are read before the reply is put over them.
    method BeginFileWrite(length: nat, drawn: Word) returns (n: nat)
      requires Ready() && length <= workspace.Length && (kind == NoTransfer ==> handle == None)
      modifies workspace, this`kind, this`id, this`handle, this`size, this`offset, this`crc, this`expected,
        this`overwrite, this`path, this`temp, this`accepted, this`base, this`disk
      ensures Leaves(BeginWrite(config, old(T()), old(disk), old(workspace[..length]), drawn),
                     T(), disk, old(workspace[..]), workspace[..], n)
      ensures Ready()
    {
      hide Value, GetU32, BuildPath, StartWrite;
      ghost var p := workspace[..length];
      if !config.allowWrite || kind != NoTransfer || length < 10 {
        return 0;
      }
      Front(workspace, length, 1, 5);
      assert p[10..] == workspace[10..length];
      var replace := Value(workspace[0]);
      var pathLength := Value(workspace[9]);
      if replace > 1 || length != pathLength + 10 || GetU32(workspace[1..5]) > TSR_FILE_MAX {
        return 0;
      }
      var named := BuildPath(config, workspace[10..length]);
      if named.None? {
        return 0;
      }
      path := named.value;
      n := StartFileWrite(length, drawn);
    }

    // The second half of `begin_file_write`, with the destination named.
    method StartFileWrite(length: nat, drawn: Word) returns (n: nat)
      requires Ready() && 10 <= length <= workspace.Length && Value(workspace[0]) <= 1
      requires GetU32(workspace[1..5]) <= TSR_FILE_MAX
      modifies workspace, this`kind, this`id, this`handle, this`size, this`offset, this`crc, this`expected,
        this`overwrite, this`path, this`temp, this`accepted, this`base, this`disk
      ensures var p := old(workspace[..length]);
        p[1..5] == old(workspace[1..5])
        && Leaves(StartWrite(config, old(T()), old(disk), p, drawn), T(), disk, old(workspace[..]), workspace[..], n)
      ensures Ready()
    {
      hide Value, GetU32, DosFiles.Open, DosFiles.Close, BeginReply, MakeTemp, Word32, CreateUpload;
      ghost var p := workspace[..length];
      Front(workspace, length, 1, 5);
      if Value(workspace[0]) == 0 {
        var (d, existing) := DosFiles.Open(disk, path);
        disk := d;
        if existing.Some? {
          disk := DosFiles.Close(disk, existing.value);
          return 0;
        }
      }
      n := CreateFileUpload(length, drawn);
    }

    // The last part of `begin_file_write`: the fields of the request are read before the reply is put over them.
    method CreateFileUpload(length: nat, drawn: Word) returns (n: nat)
      requires Ready() && 10 <= length <= workspace.Length && Value(workspace[0]) <= 1
      requires GetU32(workspace[1..5]) <= TSR_FILE_MAX
      modifies workspace, this`kind, this`id, this`handle, this`size, this`offset, this`crc, this`expected,
        this`overwrite, this`path, this`temp, this`accepted, this`base, this`disk
      ensures var p := old(workspace[..length]);
        p[1..5] == old(workspace[1..5])
        && Leaves(CreateUpload(config, old(T()), old(disk), p, drawn), T(), disk, old(workspace[..]), workspace[..], n)
      ensures Ready()
    {
      hide Value, GetU32, BeginReply, MakeTemp, Word32;
      ghost var p := workspace[..length];
      Front(workspace, length, 1, 5);
      Front(workspace, length, 5, 9);
      ghost var files := disk.files;
      id := NextTransferId(drawn);
      ghost var made := MakeTemp(config, disk, path, id).1;
      assert made.None? || made.Some?;
      var created := CreateTransferTemp(id);
      if !created {
        return 0;
      }
      TakeUpload(files);
      n := 6;
    }

    // The fields of the new upload, out of the request the reply then covers.
    method TakeUpload(ghost files: map<Path, bytes>)
      requires workspace.Length == REQUEST_BUFFER_SIZE && GetU32(workspace[1..5]) <= TSR_FILE_MAX
      modifies workspace, this`kind, this`size, this`expected, this`offset, this`crc, this`overwrite, this`accepted,
        this`base
      ensures T() == old(T()).(kind := WriteFile, size := GetU32(old(workspace[1..5])), offset := 0, crc := 0,
                               expected := Word32(old(workspace[5..9])), overwrite := Value(old(workspace[0])) == 1,
                               accepted := [], base := files)
      ensures workspace[..] == Written(old(workspace[..]), 0, BeginReply(id, GetU32(old(workspace[1..5]))))
    {
      hide Value, GetU32, BeginReply, Word32;
      var total, check, replace := GetU32(workspace[1..5]), Word32(workspace[5..9]), Value(workspace[0]) == 1;
      PutBegin(total);
      kind, size, expected, overwrite := WriteFile, total, check, replace;
      offset, crc := 0, 0;
      accepted, base := [], files;
    }

    // `write_transfer_block`: DOS writes straight out of the request.
    method WriteTransferBlock(length: nat) returns (n: nat)
      requires Ready() && length <= workspace.Length && (kind == WriteFile ==> handle.Some?)
      modifies workspace, this`crc, this`offset, this`accepted, this`disk
      ensures Leaves(WriteBlock(old(T()), old(disk), old(workspace[..length])),
                     T(), disk, old(workspace[..]), workspace[..], n)
    {
      hide GetU16, GetU32, DosFiles.Write, Crc32, PutU16, PutU32, WordBytes, Written;
      ghost var p := workspace[..length];
      if kind != WriteFile || length < 8 {
        return 0;
      }
      Front(workspace, length, 2, 6);
      Front(workspace, length, 6, 8);
      assert p[..2] == workspace[..2];
      if GetU16(workspace[..2]) != id {
        return 0;
      }
      var from := GetU32(workspace[2..6]);
      var blockLength := GetU16(workspace[6..8]);
      if blockLength == 0 || blockLength > TRANSFER_BLOCK_MAX || length != blockLength + 8 || from != offset
        || from + blockLength > size {
        return 0;
      }
      ghost var data := p[8..];
      assert workspace[8..8 + blockLength] == data;
      var (d, written) := DosFiles.Write(disk, handle.value, workspace[8..8 + blockLength]);
      disk := d;
      if written.None? || written.value != blockLength {
        return 0;
      }
      crc := Crc32Update(crc, workspace[8..8 + blockLength]);
      offset := offset + blockLength;
      accepted := accepted + data;
      PutHeader(from, 0);
      HeaderIsReply(id, from, crc);
      n := 12;
    }

    // `commit_file_write`
    method CommitFileWrite(length: nat) returns (n: nat)
      requires Ready() && length <= workspace.Length && (kind == WriteFile ==> handle.Some?)
      modifies workspace, this`kind, this`handle, this`disk
      ensures Leaves(Commit(old(T()), old(disk), old(workspace[..length])),
                     T(), disk, old(workspace[..]), workspace[..], n)
    {
      hide GetU16, DosFiles.Close, ReplaceFile;
      ghost var p := workspace[..length];
      if kind != WriteFile || length != 2 {
        return 0;
      }
      assert p[..2] == workspace[..2];
      if GetU16(workspace[..2]) != id || offset != size || crc != expected {
        return 0;
      }
      disk := DosFiles.Close(disk, handle.value);
      handle := None;
      n := ReplaceDestination();
    }

    // The part of `commit_file_write` that makes room for the new file.
    method ReplaceDestination() returns (n: nat)
      requires Ready()
      modifies workspace, this`kind, this`handle, this`disk
      ensures Leaves(ReplaceFile(old(T()), old(disk)), T(), disk, old(workspace[..]), workspace[..], n)
    {
      hide DosFiles.Open, DosFiles.Close, DosFiles.Remove, RenameTemp, AgentTransfers.CloseTransfer;
      var (d1, existing) := DosFiles.Open(disk, path);
      disk := d1;
      if existing.Some? {
        disk := DosFiles.Close(disk, existing.value);
        if !overwrite {
          CloseTransfer(true);
          return 0;
        }
        var (d2, removed) := DosFiles.Remove(disk, path);
        disk := d2;
        if !removed {
          CloseTransfer(true);
          return 0;
        }
      }
      n := RenameTemporary();
    }

    method RenameTemporary() returns (n: nat)
      requires Ready()
      modifies workspace, this`kind, this`handle, this`disk
      ensures Leaves(RenameTemp(old(T()), old(disk)), T(), disk, old(workspace[..]), workspace[..], n)
    {
      hide DosFiles.Rename, PutU32, WordBytes, Written, AgentTransfers.CloseTransfer;
      var (d, renamed) := DosFiles.Rename(disk, temp, path);
      disk := d;
      if !renamed {
        CloseTransfer(true);
        return 0;
      }
      ghost var s := workspace[..];
      CopyTo(workspace, 0, PutU32(size));
      CopyTo(workspace, 4, WordBytes(crc));
      WrittenOn(s, PutU32(size), WordBytes(crc));
      kind := NoTransfer;
      n := 8;
    }

    // `abort_transfer`: 0xFFFF refuses, zero is an empty reply.
    method AbortTransfer(length: nat) returns (n: nat)
      requires Ready() && length <= workspace.Length
      modifies this`kind, this`handle, this`disk
      ensures var s := Abort(old(T()), old(disk), old(workspace[..length]));
        && T() == s.t && disk == s.disk && n == (if s.reply == None then 0xFFFF else 0)
    {
      hide GetU16, DosFiles.Close, DosFiles.Remove;
      ghost var p := workspace[..length];
      if length != 2 || kind == NoTransfer {
        return 0xFFFF;
      }
      assert p[..2] == workspace[..2];
      if GetU16(workspace[..2]) != id {
        return 0xFFFF;
      }
      CloseTransfer(true);
      n := 0;
    }

    // `begin_graphics`
    method BeginGraphicsTransfer(length: nat, picture: Option<Picture>, drawn: Word) returns (n: nat)
      requires Ready() && length <= workspace.Length
      requires picture.Some? ==> |picture.value.description| == 16 && |picture.value.data| <= TSR_FILE_MAX
      modifies workspace, this`kind, this`id, this`handle, this`size, this`offset, this`crc, this`expected,
        this`overwrite, this`path, this`temp, this`accepted, this`base, this`disk
      ensures Leaves(BeginGraphics(old(T()), old(disk), old(workspace[..length]), picture, drawn),
                     T(), disk, old(workspace[..]), workspace[..], n)
      ensures Ready()
    {
      hide PutU16, Written;
      if length != 0 || kind != NoTransfer || picture.None? {
        return 0;
      }
      kind := ReadScreen;
      offset := 0;
      crc := 0;
      size := |picture.value.data|;
      id := NextTransferId(drawn);
      ghost var s := workspace[..];
      CopyTo(workspace, 0, PutU16(id));
      CopyTo(workspace, 2, picture.value.description);
      WrittenOn(s, PutU16(id), picture.value.description);
      n := 18;
    }

    // --- Requests of every kind ---

    ghost function Keys(): Keyboard
      requires keyboard.Valid()
      reads this, keyboard, keyboard.ring
    {
      Keyboard(if keyboard.Sane() then Some(keyboard.Words()) else None, keyboard.generation)
    }

    ghost predicate Prepared()
      reads this, keyboard, keyboard.ring
    {
      && Ready() && keyboard.Valid()
      && keyboard as object != this && keyboard.ring as object != workspace
      && (handle.Some? <==> kind == ReadFile || kind == WriteFile)
    }

    // `resend_cached`
    method ResendCached()
      modifies this`responseNext, this`responsePending
      ensures responseNext == 0 && responsePending == (responseCount != 0)
    {
      responseNext := 0;
      responsePending := responseCount != 0;
    }

    // What goes out next: these bytes, or the text screen, as the reply to this request.
    ghost predicate Sends(kind': Packets.Kind, opcode: Opcode, requestId: Word, size: nat)
      reads this
    {
      && responseCount == FragmentCount(RESPONSE_FRAGMENT_PAYLOAD, size) <= MAX_RESPONSE_FRAGMENTS
      && responseNext == 0 && responsePending
      && responseKind == kind' && responseOpcode == opcode && responseId == requestId
      && responseLength == size && lastRequest == Some(requestId)
    }

    // `send_response` of a reply already in place.
    method SendResponse(replyKind: Packets.Kind, opcode: Opcode, requestId: Word, length: nat)
      requires length <= SCREEN_BUFFER_SIZE
      modifies this`responseCount, this`responseNext, this`responsePending, this`responseKind, this`responseOpcode,
        this`responseId, this`responseLength, this`lastRequest
      ensures Sends(replyKind, opcode, requestId, length)
    {
      var count := (length + RESPONSE_FRAGMENT_PAYLOAD - 1) / RESPONSE_FRAGMENT_PAYLOAD;
      if count == 0 {
        count := 1;
      }
      if count > MAX_RESPONSE_FRAGMENTS {
        return;
      }
      responseCount := count;
      responseKind := replyKind;
      responseOpcode := opcode;
      responseId := requestId;
      responseLength := length;
      lastRequest := Some(requestId);
      ResendCached();
    }

    // `send_error`: the message is put over the request.
    method SendError(opcode: Opcode, requestId: Word, code: Word, message: string)
      requires Ready() && |message| <= 120
      modifies workspace, this`responseCount, this`responseNext, this`responsePending, this`responseKind,
        this`responseOpcode, this`responseId, this`responseLength, this`lastRequest
      ensures Sends(ERROR, opcode, requestId, 2 + |message|)
      ensures workspace[..] == Written(old(workspace[..]), 0, PutU16(code) + Ascii(message))
    {
      hide PutU16, Ascii, Written;
      ghost var s := workspace[..];
      CopyTo(workspace, 0, PutU16(code) + Ascii(message));
      SendResponse(ERROR, opcode, requestId, 2 + |message|);
    }

    // The answer stands over the front of the buffer, which was `before`, and is about to go out.
    ghost predicate Answered(before: bytes, answer: Answer, opcode: Opcode, requestId: Word)
      reads this, workspace
    {
      && workspace.Length == REQUEST_BUFFER_SIZE && PayloadSize(answer) <= SCREEN_BUFFER_SIZE
      && Sends(if answer.Error? then ERROR else RESPONSE, opcode, requestId, PayloadSize(answer))
      && workspace[..] == WithReply(before, Some(AnswerBytes(answer)))
    }

    // The handler of a transfer request: its length of reply, or nothing.
    method Handle(op: Operation, length: nat, m: Machine) returns (reply: Option<nat>)
      requires Prepared() && length <= workspace.Length && m.Valid() && Still(T(), m.picture)
      requires m.picture.Some? ==> |m.picture.value.data| <= TSR_FILE_MAX
      requires !op.ExpireOp?
      modifies workspace, this`kind, this`id, this`handle, this`size, this`offset, this`crc, this`expected,
        this`overwrite, this`path, this`temp, this`accepted, this`base, this`disk
      ensures var s := Perform(config, m.picture, old(T()), old(disk), op, old(workspace[..length]));
        && T() == s.t && disk == s.disk && (reply.Some? <==> s.reply.Some?)
        && (reply.Some? ==> reply.value == |s.reply.value| <= workspace.Length)
        && workspace[..] == WithReply(old(workspace[..]), s.reply)
      ensures Ready()
    {
      hide BeginRead, ReadBlock, EndRead, BeginWrite, WriteBlock, Commit, Abort, BeginGraphics, ReadGraphics, GiveUp;
      var n: nat;
      match op {
      case ReadBeginOp(drawn) => n := BeginFileRead(length, drawn);
      case ReadBlockOp => n := ReadTransferBlock(length);
      case EndOp(_) => n := EndReadTransfer(length);
      case WriteBeginOp(drawn) => n := BeginFileWrite(length, drawn);
      case WriteBlockOp => n := WriteTransferBlock(length);
      case CommitOp => n := CommitFileWrite(length);
      case AbortOp =>
        AbortIsEmpty(T(), disk, workspace[..length]);
        n := AbortTransfer(length);
        if n == 0xFFFF {
          return None;
        }
        NothingWritten(workspace[..]);
        return Some(0);
      case GraphicsBeginOp(drawn) => n := BeginGraphicsTransfer(length, m.picture, drawn);
      case GraphicsBlockOp => n := ReadGraphicsBlock(length, m.picture);
      }
      reply := if n == 0 then None else Some(n);
    }

    ghost function State(): World
      requires keyboard.Valid()
      reads this, keyboard, keyboard.ring
    {
      World(T(), disk, Keys())
    }

    lemma StateParts()
      requires keyboard.Valid()
      ensures State().t == T() && State().disk == disk && State().keyboard == Keys()
    {
    }

    // `++response_next`, and nothing due after the last fragment.
    method FragmentSent()
      requires Prepared() && responsePending
      modifies this`responseNext, this`responsePending
      ensures Prepared() && State() == old(State())
      ensures responseNext == old(responseNext) + 1 && responsePending == (responseNext < responseCount)
    {
      responseNext := responseNext + 1;
      if responseNext >= responseCount {
        responsePending := false;
      }
    }

    // A reply of fixed size built over an empty request.
    method Report(opcode: Opcode, requestId: Word, length: nat, report: bytes, message: string)
      requires Prepared() && length <= workspace.Length && 0 < |report| <= 50 && |message| <= 120
      modifies workspace, this`responseCount, this`responseNext, this`responsePending, this`responseKind,
        this`responseOpcode, this`responseId, this`responseLength, this`lastRequest
      ensures keyboard.Valid() && State() == old(State())
      ensures Answered(old(workspace[..]), WhenEmpty(old(workspace[..length]), Reply(report), message), opcode, requestId)
    {
      hide PutU16, Ascii, Written;
      if length != 0 {
        SendError(opcode, requestId, 6, message);
        return;
      }
      ghost var s := workspace[..];
      CopyTo(workspace, 0, report);
      SendResponse(RESPONSE, opcode, requestId, |report|);
    }

    // The text screen is filled in as it goes out.
    method ReportScreen(requestId: Word, length: nat, cells: nat)
      requires Prepared() && length <= workspace.Length && cells <= 80 * 25 * 2
      modifies workspace, this`responseCount, this`responseNext, this`responsePending, this`responseKind,
        this`responseOpcode, this`responseId, this`responseLength, this`lastRequest
      ensures keyboard.Valid() && State() == old(State())
      ensures Answered(old(workspace[..]), WhenEmpty(old(workspace[..length]), TextScreen(13 + cells), "screen payload must be empty"),
                       CAPTURE_TEXT_SCREEN, requestId)
    {
      hide PutU16, Ascii;
      if length != 0 {
        SendError(CAPTURE_TEXT_SCREEN, requestId, 6, "screen payload must be empty");
      } else {
        NothingWritten(workspace[..]);
        SendResponse(RESPONSE, CAPTURE_TEXT_SCREEN, requestId, 13 + cells);
      }
    }

    // The bytes of a ping are their own reply.
    method Echo(requestId: Word, length: nat)
      requires Prepared() && length <= workspace.Length
      modifies workspace, this`responseCount, this`responseNext, this`responsePending, this`responseKind,
        this`responseOpcode, this`responseId, this`responseLength, this`lastRequest
      ensures keyboard.Valid() && State() == old(State())
      ensures var p := old(workspace[..length]);
        Answered(old(workspace[..]), if |p| > SCREEN_BUFFER_SIZE then Error(6, "ping payload too large") else Reply(p), PING, requestId)
    {
      hide PutU16, Ascii;
      if length > SCREEN_BUFFER_SIZE {
        SendError(PING, requestId, 6, "ping payload too large");
      } else {
        SameWritten(workspace[..], length);
        SendResponse(RESPONSE, PING, requestId, length);
      }
    }

    // The shortcut of a key request with nothing to type.
    method NothingToType(length: nat) returns (nothing: bool)
      requires length <= workspace.Length
      ensures nothing <==> EmptyKeys(workspace[..length])
    {
      hide GetU16, Value;
      ghost var p := workspace[..length];
      if length != 5 {
        return false;
      }
      assert p[..2] == workspace[..2];
      nothing := GetU16(workspace[..2]) == 0 && Value(workspace[2]) == 0;
    }

    // The keyboard request: five bytes of reply in place, or a refusal.
    method TypeKeys(length: nat) returns (n: nat)
      requires Prepared() && length <= workspace.Length
      modifies workspace, keyboard`tail, keyboard`generation, keyboard.ring
      ensures Prepared()
      ensures var (k, answer) := SendKeys(old(Keys()), old(workspace[..length]));
        && Keys() == k
        && (n == 0 ==> answer == Error(6, "invalid key request") && workspace[..] == old(workspace[..]))
        && (n != 0 ==> n == 5 && answer.Reply? && |answer.payload| == 5
                       && workspace[..] == Written(old(workspace[..]), 0, answer.payload))
    {
      hide GetU16, Value, PutU16, Low, KeysWellFormed, EmptyKeys, AfterKeys, AcceptedText, AcceptedKeys, Written;
      ghost var s := workspace[..];
      var nothing := NothingToType(length);
      if nothing {
        CopyTo(workspace, 0, KeyReply(0, 0, 0));
          return 5;
      }
      ghost var text, keys;
      n, text, keys := keyboard.InjectKeys(workspace, length);
      if n != 0 {
        FrontReplaced(s, KeyReply(text, keys, keyboard.generation));
      }
    }

    method SendKeysReply(requestId: Word, length: nat)
      requires Prepared() && length <= workspace.Length
      modifies workspace, keyboard`tail, keyboard`generation, keyboard.ring, this`responseCount, this`responseNext,
        this`responsePending, this`responseKind,
        this`responseOpcode, this`responseId, this`responseLength, this`lastRequest
      ensures keyboard.Valid()
      ensures var (k, answer) := SendKeys(old(Keys()), old(workspace[..length]));
        State() == old(State()).(keyboard := k) && Answered(old(workspace[..]), answer, SEND_KEYS, requestId)
    {
      hide SendKeys, PutU16, Ascii;
      var n := TypeKeys(length);
      if n == 0 {
        SendError(SEND_KEYS, requestId, 6, "invalid key request");
      } else {
        SendResponse(RESPONSE, SEND_KEYS, requestId, 5);
      }
    }

    // A transfer request and its refusal.
    method ServeTransfer(opcode: Opcode, requestId: Word, length: nat, m: Machine, op: Operation, code: Word, message: string)
      requires Prepared() && length <= workspace.Length && m.Valid() && Still(T(), m.picture)
      requires m.picture.Some? ==> |m.picture.value.data| <= TSR_FILE_MAX
      requires !op.ExpireOp? && |message| <= 120
      modifies workspace, this`kind, this`id, this`handle, this`size, this`offset, this`crc,
        this`expected, this`overwrite, this`path, this`temp, this`accepted, this`base, this`disk, this`responseCount,
        this`responseNext, this`responsePending, this`responseKind,
        this`responseOpcode, this`responseId, this`responseLength, this`lastRequest
      ensures var s := Perform(config, m.picture, old(T()), old(disk), op, old(workspace[..length]));
        && T() == s.t && disk == s.disk
        && Answered(old(workspace[..]), match s.reply case Some(r) => Reply(r) case None => Error(code, message), opcode, requestId)
    {
      hide Perform, Agent.Answered, WithReply, Written, Ascii, Still;
      PerformFits(config, m.picture, T(), disk, op, workspace[..length]);
      ghost var before := workspace[..];
      ghost var answer := Perform(config, m.picture, T(), disk, op, workspace[..length]).reply;
      assert answer.None? || answer.Some?;
      var n := Handle(op, length, m);
      Finish(before, answer, n, opcode, requestId, code, message);
    }

    // A handler's reply goes out, or its refusal is put over the request.
    method Finish(ghost before: bytes, ghost reply: Option<bytes>, n: Option<nat>, opcode: Opcode, requestId: Word,
                  code: Word, message: string)
      requires Ready() && |message| <= 120 && |before| == REQUEST_BUFFER_SIZE
      requires workspace[..] == WithReply(before, reply) && (n.Some? <==> reply.Some?)
      requires n.Some? ==> n.value == |reply.value| <= SCREEN_BUFFER_SIZE
      modifies workspace, this`responseCount, this`responseNext, this`responsePending, this`responseKind,
        this`responseOpcode, this`responseId, this`responseLength, this`lastRequest
      ensures Answered(before, match reply case Some(r) => Reply(r) case None => Error(code, message), opcode, requestId)
    {
      hide PutU16, Ascii, Written;
      if n.None? {
        SendError(opcode, requestId, code, message);
      } else {
        SendResponse(RESPONSE, opcode, requestId, n.value);
      }
    }

    method Unsupported(opcode: Opcode, requestId: Word)
      requires Prepared()
      modifies workspace, this`responseCount, this`responseNext, this`responsePending, this`responseKind,
        this`responseOpcode, this`responseId, this`responseLength, this`lastRequest
      ensures keyboard.Valid() && State() == old(State())
      ensures Answered(old(workspace[..]), Error(5, "unsupported operation"), opcode, requestId)
    {
      hide PutU16, Ascii;
      SendError(opcode, requestId, 5, "unsupported operation");
    }

    // The requests of the second half of `process_request`.
    method ProcessTransfer(opcode: Opcode, requestId: Word, length: nat, m: Machine)
      requires Prepared() && length <= workspace.Length && m.Valid() && Still(T(), m.picture)
      requires m.picture.Some? ==> |m.picture.value.data| <= TSR_FILE_MAX
      modifies workspace, this`kind, this`id, this`handle, this`size, this`offset, this`crc,
        this`expected, this`overwrite, this`path, this`temp, this`accepted, this`base, this`disk, this`responseCount,
        this`responseNext, this`responsePending, this`responseKind,
        this`responseOpcode, this`responseId, this`responseLength, this`lastRequest
      ensures var (w, answer) := RespondTransfer(config, m, old(State()), opcode, old(workspace[..length]));
        State() == w && Answered(old(workspace[..]), answer, opcode, requestId)
    {
      hide Perform, Agent.Answered;
      var operation := OperationOf(opcode, m.drawn);
      if operation.None? {
        Unsupported(opcode, requestId);
      } else {
        var (op, code, message) := operation.value;
        ServeTransfer(opcode, requestId, length, m, op, code, message);
      }
    }

    /**
     `process_request`: what is left in the buffer and about to go out is the reply `Respond` gives
     for the bytes received, although the reply is built over them.
     */
    method ProcessRequest(opcode: Opcode, requestId: Word, length: nat, m: Machine)
      requires Prepared() && length <= workspace.Length && m.Valid() && Still(T(), m.picture)
      requires m.picture.Some? ==> |m.picture.value.data| <= TSR_FILE_MAX
      modifies workspace, keyboard`tail, keyboard`generation, keyboard.ring, this`kind, this`id, this`handle,
        this`size, this`offset, this`crc,
        this`expected, this`overwrite, this`path, this`temp, this`accepted, this`base, this`disk, this`responseCount,
        this`responseNext, this`responsePending, this`responseKind,
        this`responseOpcode, this`responseId, this`responseLength, this`lastRequest
      ensures keyboard.Valid()
      ensures var (w, answer) := Respond(config, m, old(State()), opcode, old(workspace[..length]));
        State() == w && Answered(old(workspace[..]), answer, opcode, requestId)
    {
      hide RespondTransfer, SendKeys, WhenEmpty, Agent.Answered, Agent.State;
      StateParts();
      if opcode == GET_STATUS {
        Report(opcode, requestId, length, m.status, "status payload must be empty");
      } else if opcode == GET_CAPABILITIES {
        Report(opcode, requestId, length, m.capabilities, "capability payload must be empty");
      } else if opcode == CAPTURE_TEXT_SCREEN {
        ReportScreen(requestId, length, m.cells);
      } else if opcode == SEND_KEYS {
        SendKeysReply(requestId, length);
      } else if opcode == PING {
        Echo(requestId, length);
      } else if opcode == GET_DIAGNOSTICS {
        Report(opcode, requestId, length, m.diagnostics, "diagnostic payload must be empty");
      } else {
        ProcessTransfer(opcode, requestId, length, m);
      }
    }

    // The last reply, from its first fragment again.
    method RepeatReply()
      requires Prepared()
      modifies this`responseNext, this`responsePending
      ensures keyboard.Valid() && State() == old(State())
      ensures responseNext == 0 && responsePending == (responseCount != 0)
    {
      ResendCached();
    }

    // A new session has no last request and no reply to repeat.
    method ForgetReply()
      requires Prepared()
      modifies this`lastRequest, this`responseCount
      ensures keyboard.Valid() && State() == old(State()) && lastRequest == None && responseCount == 0
    {
      lastRequest := None;
      responseCount := 0;
    }

    // The reply to a request that is not newer than the last.
    method RefuseReplay(opcode: Opcode, requestId: Word)
      requires Prepared()
      modifies workspace, this`responseCount, this`responseNext, this`responsePending, this`responseKind,
        this`responseOpcode, this`responseId, this`responseLength, this`lastRequest
      ensures keyboard.Valid() && State() == old(State()) && Prepared()
      ensures Answered(old(workspace[..]), Error(4, "replayed request"), opcode, requestId)
    {
      hide PutU16, Ascii;
      SendError(opcode, requestId, 4, "replayed request");
    }
  }

  lemma FrontReplaced(s: bytes, reply: bytes)
    requires |reply| <= |s|
    ensures Written(s, 0, reply) == reply + s[|reply|..]
  {
  }

  lemma NothingWritten(s: bytes)
    ensures Written(s, 0, []) == s
  {
  }

  lemma SameWritten(s: bytes, n: nat)
    requires n <= |s|
    ensures Written(s, 0, s[..n]) == s
  {
  }

  lemma AbortIsEmpty(t: Transfer, d: Disk, p: bytes)
    ensures Abort(t, d, p).reply in {None, Some([])}
  {
    hide GetU16, DosFiles.Close, DosFiles.Remove;
  }

  lemma HeaderIsReply(id: Word, offset: Long, crc: bv32)
    ensures PutU16(id) + PutU32(offset) + PutU16(0) + WordBytes(crc) == BlockReply(id, offset, [], crc)
  {
    hide PutU16, PutU32, WordBytes;
    var header := PutU16(id) + PutU32(offset) + PutU16(0) + WordBytes(crc);
    assert header + [] == header;
  }

  // A handler ended as this step: its reply stands over the front of the buffer, its length returned.
  ghost predicate Leaves(s: Step, t: Transfer, d: Disk, before: bytes, buffer: bytes, n: nat) {
    && t == s.t && d == s.disk
    && (n == 0 <==> s.reply == None)
    && (s.reply.Some? ==> n == |s.reply.value| <= |before|)
    && buffer == WithReply(before, s.reply)
  }
}
