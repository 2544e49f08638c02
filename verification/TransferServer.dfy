/**
 The simulator's transfers: the fields `_dispatch` and the transfer methods keep, and the proof
 that whatever they answer is within what TransferSpec allows a server.
 */
module TransferServer {
  import opened Bytes
  import opened Checksums
  import opened TransferSpec
  import opened Wrappers

  const MAX_TRANSFER_BLOCK := 900
  const MAX_UPLOAD := 1_048_576

  datatype TransferKind = FileRead | FileWrite | GraphicsRead

  datatype Record = Record(
    transferId: Word,
    kind: TransferKind,
    data: bytes,
    offset: nat,
    crc32: bv32,
    path: bytes,
    expectedSize: nat,
    expectedCrc32: bv32,
    overwrite: bool)

  // Exactly the requests the simulator serves: what the target gives of a file or its screen, and
  // whether it takes an upload, being `contents` and `stored`.
  predicate Accepts(s: Server, request: Request, contents: Option<bytes>, stored: bool) {
    var t := s.transfer;
    match request
    case ReadBegin(_) => t == Idle && contents.Some?
    case WriteBegin(_, size, _, _) => t == Idle && size <= MAX_UPLOAD
    case ReadBlock(graphics, id, offset, length) =>
      && t.Reading? && t.id == id && t.source.Graphics? == graphics && t.offset == offset
      && 1 <= length <= MAX_TRANSFER_BLOCK
    case ReadEnd(graphics, id) =>
      t.Reading? && t.id == id && t.source.Graphics? == graphics && t.offset == |t.snapshot|
    case WriteBlock(id, offset, data) =>
      && t.Writing? && t.id == id && |t.accepted| == offset
      && 1 <= |data| <= MAX_TRANSFER_BLOCK && offset + |data| <= t.size
    case WriteCommit(id) =>
      t.Writing? && t.id == id && |t.accepted| == t.size && Crc32(0, t.accepted) == t.crc && stored
    case Abort(_) => true
  }

  class Simulator {
    var transfer: Option<Record>
    // What the fields do not keep: the source of a read, and the history.
    ghost var source: Source
    ghost var openings: seq<Opening>
    ghost var commits: seq<Commit>

    // The offset is the number of bytes moved, and the rolling check is the check of just those.
    ghost predicate Valid()
      reads this
    {
      transfer.Some? ==>
        var t := transfer.value;
        && t.offset <= |t.data| && t.crc32 == Crc32(0, t.data[..t.offset])
        && (t.kind == FileWrite ==> t.offset == |t.data| <= t.expectedSize)
        && (t.kind != FileWrite ==> source.Graphics? == (t.kind == GraphicsRead))
    }

    ghost function Abstract(): Server
      reads this
    {
      Server(
        match transfer
          case None => Idle
          case Some(t) =>
            if t.kind == FileWrite then
              Writing(t.transferId, t.path, t.data, t.expectedSize, t.expectedCrc32, t.overwrite)
            else
              Reading(t.transferId, source, t.data, t.offset),
        openings, commits)
    }

    constructor ()
      ensures Valid() && Abstract() == Server(Idle, [], [])
    {
      transfer := None;
      source := Graphics;
      openings := [];
      commits := [];
    }

    // `_start_transfer`
    method StartTransfer(id: Word, kind: TransferKind, data: bytes) returns (ok: bool)
      requires Valid()
      modifies this`transfer
      ensures ok == old(transfer.None?)
      ensures ok ==> transfer == Some(Record(id, kind, data, 0, 0, [], 0, 0, false))
      ensures !ok ==> transfer == old(transfer)
    {
      if transfer.Some? {
        return false;
      }
      transfer := Some(Record(id, kind, data, 0, 0, [], 0, 0, false));
      return true;
    }

    // `_require_transfer`
    predicate Known(id: Word, kind: TransferKind)
      reads this
    {
      transfer.Some? && transfer.value.transferId == id && transfer.value.kind == kind
    }

    // `_read_transfer_block`
    method ReadTransferBlock(id: Word, offset: Long, length: Word, kind: TransferKind, ghost number: nat) returns (reply: Reply)
      requires Valid() && kind != FileWrite
      modifies this`transfer
      ensures Valid() && TransferSpec.Valid(old(Abstract()))
      ensures Allowed(old(Abstract()), number, ReadBlock(kind == GraphicsRead, id, offset, length), Abstract(), reply)
      ensures 1 <= length <= MAX_TRANSFER_BLOCK ==>
        (reply != Refused
         <==> Accepts(old(Abstract()), ReadBlock(kind == GraphicsRead, id, offset, length), None, false))
      ensures reply != Refused ==> |reply.data| == Min(length, |old(Abstract()).transfer.snapshot| - offset)
      ensures reply == Refused ==> Abstract() == old(Abstract())
    {
      hide Crc32;
      if !Known(id, kind) || offset != transfer.value.offset {
        return Refused;
      }
      var t := transfer.value;
      var end := Min(t.offset + length, |t.data|);
      var block := t.data[t.offset..end];
      assert t.data[..end] == t.data[..t.offset] + block;
      Crc32Append(0, t.data[..t.offset], block);
      transfer := Some(t.(offset := end, crc32 := Crc32(t.crc32, block)));
      return Block(id, offset, block, transfer.value.crc32);
    }

    // `_end_read_transfer`
    method EndReadTransfer(id: Word, kind: TransferKind, ghost number: nat) returns (reply: Reply)
      requires Valid() && kind != FileWrite
      modifies this`transfer
      ensures Valid() && TransferSpec.Valid(old(Abstract()))
      ensures Allowed(old(Abstract()), number, ReadEnd(kind == GraphicsRead, id), Abstract(), reply)
      ensures reply != Refused <==> Accepts(old(Abstract()), ReadEnd(kind == GraphicsRead, id), None, false)
      ensures reply == Refused ==> Abstract() == old(Abstract())
    {
      hide Crc32;
      if !Known(id, kind) || transfer.value.offset != |transfer.value.data| {
        return Refused;
      }
      var t := transfer.value;
      assert t.data[..t.offset] == t.data;
      reply := Ended(t.offset, t.crc32);
      transfer := None;
    }

    // `_write_transfer_block`
    method WriteTransferBlock(id: Word, offset: Long, data: bytes, ghost number: nat) returns (reply: Reply)
      requires Valid()
      modifies this`transfer
      ensures Valid() && TransferSpec.Valid(old(Abstract()))
      ensures Allowed(old(Abstract()), number, WriteBlock(id, offset, data), Abstract(), reply)
      ensures 1 <= |data| <= MAX_TRANSFER_BLOCK ==>
        (reply != Refused <==> Accepts(old(Abstract()), WriteBlock(id, offset, data), None, false))
      ensures reply == Refused ==> Abstract() == old(Abstract())
    {
      hide Crc32;
      if !Known(id, FileWrite) || offset != transfer.value.offset
        || transfer.value.offset + |data| > transfer.value.expectedSize {
        return Refused;
      }
      var t := transfer.value;
      assert t.data[..t.offset] == t.data;
      Crc32Append(0, t.data, data);
      var all := t.data + data;
      assert all[..|all|] == all;
      transfer := Some(t.(data := all, offset := t.offset + |data|, crc32 := Crc32(t.crc32, data)));
      return Block(id, offset, [], transfer.value.crc32);
    }

    // `_commit_write_transfer`; `stored` is whether the target takes the file.
    method CommitWriteTransfer(id: Word, stored: bool, ghost number: nat) returns (reply: Reply)
      requires Valid()
      modifies this`transfer, this`commits
      ensures Valid() && TransferSpec.Valid(old(Abstract()))
      ensures Allowed(old(Abstract()), number, WriteCommit(id), Abstract(), reply)
      ensures reply != Refused <==> Accepts(old(Abstract()), WriteCommit(id), None, stored)
      ensures reply == Refused ==> Abstract() == old(Abstract())
    {
      hide Crc32;
      assert transfer.Some? ==> transfer.value.data[..|transfer.value.data|] == transfer.value.data;
      if !Known(id, FileWrite) || transfer.value.offset != transfer.value.expectedSize
        || transfer.value.crc32 != transfer.value.expectedCrc32 {
        return Refused;
      }
      var t := transfer.value;
      assert t.data[..t.offset] == t.data;
      if !stored {
        return Refused;
      }
      commits := commits + [Commit(number, t.path, t.data, t.overwrite)];
      reply := Ended(|t.data|, Crc32(0, t.data));
      transfer := None;
    }

    /**
     The transfer requests of `_dispatch`. `id` is the number drawn for a new transfer, `contents`
     what the target gives of a file or of its screen, `stored` whether it takes an upload.
     */
    method Serve(request: Request, id: Word, contents: Option<bytes>, stored: bool, ghost number: nat)
        returns (reply: Reply)
      requires Valid() && id != 0
      modifies this
      ensures Valid() && TransferSpec.Valid(old(Abstract()))
      ensures Allowed(old(Abstract()), number, request, Abstract(), reply)
      ensures reply != Refused <==> Accepts(old(Abstract()), request, contents, stored)
      ensures reply == Refused ==> Abstract() == old(Abstract())
      ensures (request.ReadBegin? ==> contents.Some?) && (request.WriteCommit? ==> stored) ==>
        Obliges(old(Abstract()), number, request, Abstract(), reply)
    {
      hide Crc32;
      Crc32Empty(0);
      match request
      case ReadBegin(from) =>
        if contents.None? {
          return Refused;
        }
        assert contents.value[..0] == [];
        var ok := StartTransfer(id, if from.Graphics? then GraphicsRead else FileRead, contents.value);
        if !ok {
          return Refused;
        }
        source := from;
        openings := openings + [Opening(number, from, contents.value)];
        return Begun(id, |contents.value|);
      case ReadBlock(graphics, transferId, offset, length) =>
        if !(1 <= length <= MAX_TRANSFER_BLOCK) {
          return Refused;
        }
        reply := ReadTransferBlock(transferId, offset, length, if graphics then GraphicsRead else FileRead, number);
      case ReadEnd(graphics, transferId) =>
        reply := EndReadTransfer(transferId, if graphics then GraphicsRead else FileRead, number);
      case WriteBegin(path, size, crc, overwrite) =>
        if size > MAX_UPLOAD {
          return Refused;
        }
        var ok := StartTransfer(id, FileWrite, []);
        if !ok {
          return Refused;
        }
        transfer := Some(transfer.value.(path := path, expectedSize := size, expectedCrc32 := crc, overwrite := overwrite));
        return Begun(id, size);
      case WriteBlock(transferId, offset, data) =>
        if !(1 <= |data| <= MAX_TRANSFER_BLOCK) {
          return Refused;
        }
        reply := WriteTransferBlock(transferId, offset, data, number);
      case WriteCommit(transferId) =>
        reply := CommitWriteTransfer(transferId, stored, number);
      case Abort(transferId) =>
        if transfer.Some? && transfer.value.transferId == transferId {
          transfer := None;
        }
        return Done;
    }
  }
}
