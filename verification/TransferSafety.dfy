/**
 What every request keeps of the agent's transfers and of the disk: a handle is open exactly
 while a file transfer is active, an upload touches only its temporary file until it is
 committed, and every reply is within what TransferSpec allows a server.
 */
module TransferSafety {
  import opened AgentTransfers
  import opened Bytes
  import opened Checksums
  import opened DosFiles
  import opened DosPaths
  import opened Wrappers
  import T = TransferSpec

  // The requests that reach the transfers, and the expiry of a session.
  datatype Operation =
    | ReadBeginOp(drawn: Word)
    | ReadBlockOp
    | EndOp(graphics: bool)
    | WriteBeginOp(drawn: Word)
    | WriteBlockOp
    | CommitOp
    | AbortOp
    | GraphicsBeginOp(drawn: Word)
    | GraphicsBlockOp
    | ExpireOp

  function Perform(config: Config, picture: Option<Picture>, t: Transfer, d: Disk, op: Operation, p: bytes): Step
    requires Sized(t) && Still(t, picture)
  {
    match op
    case ReadBeginOp(drawn) => BeginRead(config, t, d, p, drawn)
    case ReadBlockOp => ReadBlock(t, d, p)
    case EndOp(_) => EndRead(t, d, p)
    case WriteBeginOp(drawn) => BeginWrite(config, t, d, p, drawn)
    case WriteBlockOp => WriteBlock(t, d, p)
    case CommitOp => Commit(t, d, p)
    case AbortOp => Abort(t, d, p)
    case GraphicsBeginOp(drawn) => BeginGraphics(t, d, p, picture, drawn)
    case GraphicsBlockOp => ReadGraphics(t, d, p, picture)
    case ExpireOp => if t.kind == NoTransfer then Step(t, d, None) else GiveUp(t, d)
  }

  // --- The invariant ---

  // One handle is open exactly while a file transfer is active, and it is the transfer's.
  ghost predicate HandleOpen(t: Transfer, d: Disk) {
    && (t.handle.Some? <==> t.kind == ReadFile || t.kind == WriteFile)
    && d.cursors.Keys == (if t.handle.Some? then {t.handle.value} else {})
    && (t.handle.Some? ==> t.handle.value < d.next)
  }

  ghost predicate ReadingFile(t: Transfer, d: Disk)
    requires t.handle.Some? && t.handle.value in d.cursors
  {
    && d.cursors[t.handle.value] == Cursor(t.path, t.offset)
    && t.path in d.files && t.size == |d.files[t.path]| && t.offset <= t.size
    && t.crc == Crc32(0, d.files[t.path][..t.offset])
  }

  // The disk is as it was but for the temporary file, which holds at least the accepted bytes,
  // and exactly those unless some write was cut short.
  ghost predicate WritingTemp(t: Transfer, d: Disk)
    requires t.handle.Some? && t.handle.value in d.cursors
  {
    && t.temp != t.path && t.temp !in t.base
    && t.temp in d.files && d.files == t.base[t.temp := d.files[t.temp]]
    && d.cursors[t.handle.value] == Cursor(t.temp, |d.files[t.temp]|)
    && t.offset == |t.accepted| <= t.size && t.crc == Crc32(0, t.accepted)
    && t.offset <= |d.files[t.temp]|
    && (t.offset == |d.files[t.temp]| ==> d.files[t.temp] == t.accepted)
  }

  ghost predicate SendingPicture(t: Transfer, picture: Option<Picture>)
    requires Still(t, picture) && t.kind == ReadScreen
  {
    t.offset <= t.size && t.crc == Crc32(0, picture.value.data[..t.offset])
  }

  ghost predicate Inv(picture: Option<Picture>, t: Transfer, d: Disk) {
    && Sized(t) && Still(t, picture) && HandleOpen(t, d)
    && (picture.Some? ==> |picture.value.data| <= TSR_FILE_MAX)
    && match t.kind
       case NoTransfer => true
       case ReadFile => ReadingFile(t, d)
       case WriteFile => WritingTemp(t, d)
       case ReadScreen => SendingPicture(t, picture)
  }

  // The temporary holds more bytes than were acknowledged.
  ghost predicate Torn(t: Transfer, d: Disk) {
    t.kind == WriteFile && t.temp in d.files && |d.files[t.temp]| != t.offset
  }

  // --- Every request keeps it ---

  lemma NothingOpen(d: Disk)
    requires d.cursors.Keys == {}
    ensures d.cursors == map[]
  {
    assert forall h :: h in d.cursors ==> h in d.cursors.Keys;
  }

  lemma SizeMeasures(d: Disk, handle: nat)
    requires handle in d.cursors && d.cursors[handle].path in d.files
    ensures var (d1, size) := Size(d, handle);
      && d1.files == d.files && d1.next == d.next && d1.cursors.Keys == d.cursors.Keys
      && (size.Some? ==> size.value == |d.files[d.cursors[handle].path]|
                         && d1.cursors[handle] == Cursor(d.cursors[handle].path, 0))
  {
  }

  lemma StartReadKeeps(picture: Option<Picture>, t: Transfer, d: Disk, drawn: Word)
    requires Sized(t) && (picture.Some? ==> |picture.value.data| <= TSR_FILE_MAX)
    requires t.kind == NoTransfer && t.handle.Some? && t.handle.value < d.next
    requires t.path in d.files && d.cursors == map[t.handle.value := Cursor(t.path, 0)]
    ensures var s := StartRead(t, Size(d, t.handle.value), drawn);
      && Inv(picture, s.t, s.disk) && s.disk.files == d.files && (s.reply.Some? ==> s.t.kind == ReadFile)
  {
    hide Crc32, BeginReply, Size;
    SizeMeasures(d, t.handle.value);
    var content := d.files[t.path];
    assert content[..0] == [];
    Crc32Empty(0);
    var (d1, size) := Size(d, t.handle.value);
    NothingOpen(Close(d1, t.handle.value));
  }

  lemma BeginReadKeeps(config: Config, picture: Option<Picture>, t: Transfer, d: Disk, p: bytes, drawn: Word)
    requires Inv(picture, t, d)
    ensures var s := BeginRead(config, t, d, p, drawn); Inv(picture, s.t, s.disk) && s.disk.files == d.files
    ensures var s := BeginRead(config, t, d, p, drawn); s.reply.Some? ==> t.kind == NoTransfer && s.t.kind == ReadFile
  {
    hide Value, BuildPath, Crc32, StartRead;
    var s := BeginRead(config, t, d, p, drawn);
    if t.kind == NoTransfer {
      NothingOpen(d);
      if |p| > 0 && BuildPath(config, p[1..]).Some? {
        var path := BuildPath(config, p[1..]).value;
        var (d1, handle) := Open(d, path);
        if handle.Some? {
          StartReadKeeps(picture, t.(path := path, handle := handle), d1, drawn);
        }
      }
    }
  }

  lemma ReadBlockKeeps(picture: Option<Picture>, t: Transfer, d: Disk, p: bytes)
    requires Inv(picture, t, d)
    ensures var s := ReadBlock(t, d, p); Inv(picture, s.t, s.disk) && s.disk.files == d.files
  {
    hide Wanted, Crc32, BlockReply;
    var s := ReadBlock(t, d, p);
    if t.kind == ReadFile && s.reply.Some? {
      var content := d.files[t.path];
      var data := content[t.offset..s.t.offset];
      assert content[..s.t.offset] == content[..t.offset] + data;
      Crc32Append(0, content[..t.offset], data);
    }
  }

  lemma EndReadKeeps(picture: Option<Picture>, t: Transfer, d: Disk, p: bytes)
    requires Inv(picture, t, d)
    ensures var s := EndRead(t, d, p); Inv(picture, s.t, s.disk) && s.disk.files == d.files
  {
    hide GetU16, Crc32, EndReply;
  }

  lemma {:induction false} CreateTempIsNew(d: Disk, prefix: bytes, path: Path, id: Word, attempt: nat)
    requires attempt <= 16
    ensures var (d1, created) := CreateTemp(d, prefix, path, id, attempt);
      match created
      case None => d1.files == d.files && d1.cursors == d.cursors && d1.next == d.next
      case Some((name, handle)) =>
        && name != path && name !in d.files && d1.files == d.files[name := []]
        && handle == d.next && d1.next == d.next + 1 && d1.cursors == d.cursors[handle := Cursor(name, 0)]
    decreases 16 - attempt
  {
    hide TempName;
    if attempt < 16 {
      var name := TempName(prefix, id, attempt);
      if name == path {
        CreateTempIsNew(d, prefix, path, id, attempt + 1);
      } else {
        CreateTempIsNew(CreateNew(d, name).0, prefix, path, id, attempt + 1);
      }
    }
  }

  lemma MakeTempIsNew(config: Config, d: Disk, path: Path, id: Word)
    ensures var (d1, created) := MakeTemp(config, d, path, id);
      match created
      case None => d1.files == d.files && d1.cursors == d.cursors && d1.next == d.next
      case Some((name, handle)) =>
        && name != path && name !in d.files && d1.files == d.files[name := []]
        && handle == d.next && d1.next == d.next + 1 && d1.cursors == d.cursors[handle := Cursor(name, 0)]
  {
    hide TempPrefix, CreateTemp;
    if TempPrefix(config, path).Some? {
      CreateTempIsNew(d, TempPrefix(config, path).value, path, id, 0);
    }
  }

  // An upload that has just begun: an empty temporary file beside the files there were.
  ghost predicate Began(t: Transfer, d: Disk, files: map<Path, bytes>) {
    t.kind == WriteFile && t.base == files && t.accepted == [] && d.files == files[t.temp := []]
  }

  lemma StartWriteKeeps(config: Config, picture: Option<Picture>, t: Transfer, d: Disk, p: bytes, drawn: Word)
    requires Inv(picture, t, d) && t.kind == NoTransfer
    requires |p| >= 10 && GetU32(p[1..5]) <= TSR_FILE_MAX
    ensures var s := StartWrite(config, t, d, p, drawn);
      && Inv(picture, s.t, s.disk)
      && ((s.t.kind == NoTransfer && s.disk.files == d.files) || Began(s.t, s.disk, d.files))
  {
    hide Value, GetU32, PacketMac.Word32, Crc32, BeginReply, MakeTemp;
    NothingOpen(d);
    Crc32Empty(0);
    var (d1, existing) := if Value(p[0]) == 1 then (d, None) else Open(d, t.path);
    if existing.None? {
      assert d1.cursors == map[] && d1.files == d.files;
      MakeTempIsNew(config, d1, t.path, NextTransferId(drawn));
    } else {
      assert Close(d1, existing.value).cursors == map[];
    }
  }

  lemma BeginWriteKeeps(config: Config, picture: Option<Picture>, t: Transfer, d: Disk, p: bytes, drawn: Word)
    requires Inv(picture, t, d)
    ensures var s := BeginWrite(config, t, d, p, drawn);
      && Inv(picture, s.t, s.disk)
      && ((s.t.kind == t.kind && s.disk.files == d.files) || (t.kind == NoTransfer && Began(s.t, s.disk, d.files)))
  {
    hide Value, GetU32, BuildPath, StartWrite, Crc32;
    if t.kind == NoTransfer && |p| >= 10 && GetU32(p[1..5]) <= TSR_FILE_MAX && BuildPath(config, p[10..]).Some? {
      StartWriteKeeps(config, picture, t.(path := BuildPath(config, p[10..]).value), d, p, drawn);
    }
  }

  lemma WriteBlockKeeps(picture: Option<Picture>, t: Transfer, d: Disk, p: bytes)
    requires Inv(picture, t, d)
    ensures var s := WriteBlock(t, d, p);
      && Inv(picture, s.t, s.disk) && s.t.kind == t.kind && s.t.base == t.base
      && (t.kind != WriteFile ==> s.disk.files == d.files)
      && (t.kind == WriteFile && Torn(t, d) ==> Torn(s.t, s.disk))
  {
    hide InSequence, Crc32, BlockReply;
    var s := WriteBlock(t, d, p);
    if t.kind == WriteFile && InSequence(t, p) {
      InSequenceFits(t, p);
      var data := p[8..];
      Crc32Append(0, t.accepted, data);
      var before, after := d.files[t.temp], s.disk.files[t.temp];
      if !NextFate(d).Fails? {
        var taken := Min(|data|, NextFate(d).limit);
        assert after == before + data[..taken];
        if taken == |data| {
          assert data[..taken] == data;
        }
      }
    }
  }

  lemma InSequenceFits(t: Transfer, p: bytes)
    requires InSequence(t, p)
    ensures |p| > 8 && t.offset + |p[8..]| <= t.size
  {
    hide GetU16, GetU32;
  }

  lemma GraphicsKeeps(picture: Option<Picture>, t: Transfer, d: Disk, p: bytes, drawn: Word)
    requires Inv(picture, t, d)
    ensures var s := BeginGraphics(t, d, p, picture, drawn);
      Inv(picture, s.t, s.disk) && s.disk.files == d.files && (t.kind == NoTransfer || s.t == t)
    ensures var s := ReadGraphics(t, d, p, picture); Inv(picture, s.t, s.disk) && s.disk == d && s.t.kind == t.kind
    ensures t.kind != ReadScreen ==> ReadGraphics(t, d, p, picture).t == t
  {
    hide Wanted, Crc32, BlockReply, PutU16;
    Crc32Empty(0);
    var s := ReadGraphics(t, d, p, picture);
    if picture.Some? {
      assert picture.value.data[..0] == [];
      if s.reply.Some? {
        var content := picture.value.data;
        var data := content[t.offset..s.t.offset];
        assert content[..s.t.offset] == content[..t.offset] + data;
        Crc32Append(0, content[..t.offset], data);
      }
    }
  }

  // --- How an upload ends ---

  // Given up: the files are as before the upload, unless DOS refused to remove the temporary.
  ghost predicate GivenUp(t: Transfer, d: Disk) {
    d.files == t.base || (t.temp in d.files && d.files == t.base[t.temp := d.files[t.temp]])
  }

  lemma GiveUpKeeps(picture: Option<Picture>, t: Transfer, d: Disk)
    requires Inv(picture, t, d) && t.kind != NoTransfer
    ensures var s := GiveUp(t, d);
      && Inv(picture, s.t, s.disk) && s.t.kind == NoTransfer && s.reply == None
      && (t.kind == WriteFile ==> GivenUp(t, s.disk))
      && (t.kind == WriteFile ==> s.disk.files == if FateAt(d, 1).Fails? then d.files else t.base)
      && (t.kind != WriteFile ==> s.disk.files == d.files)
  {
    hide Crc32;
  }

  lemma AbortKeeps(picture: Option<Picture>, t: Transfer, d: Disk, p: bytes)
    requires Inv(picture, t, d)
    ensures var s := Abort(t, d, p);
      && Inv(picture, s.t, s.disk) && (s.reply.Some? <==> s.t.kind != t.kind)
      && (s.reply == None ==> s.t == t && s.disk == d)
      && (s.reply.Some? ==> s == GiveUp(t, d).(reply := Some([])))
  {
    hide GetU16, Crc32;
    if t.kind != NoTransfer {
      GiveUpKeeps(picture, t, d);
    }
  }

  // The fate of the k-th call from here.
  function FateAt(d: Disk, k: nat): Fate {
    if k < |d.fates| then d.fates[k] else Moves(0x1_0000)
  }

  // The destination exists, may be replaced, and is removed; then the rename fails.
  predicate LosesDestination(t: Transfer, d: Disk) {
    && t.path in d.files && t.overwrite
    && FateAt(d, 1) != Fails && FateAt(d, 3) != Fails && FateAt(d, 4) == Fails
  }

  // A commit that passes every check of the request.
  predicate Committing(t: Transfer, p: bytes) {
    hide GetU16;
    t.kind == WriteFile && |p| == 2 && GetU16(p[..2]) == t.id && t.offset == t.size && t.crc == t.expected
  }

  // The destination is what it was when the upload began.
  ghost predicate DestinationKept(t: Transfer, d: Disk) {
    (t.path in d.files <==> t.path in t.base) && (t.path in t.base ==> d.files[t.path] == t.base[t.path])
  }

  ghost predicate OthersKept(t: Transfer, d: Disk) {
    forall name :: name != t.path && name != t.temp ==>
      (name in d.files <==> name in t.base) && (name in t.base ==> d.files[name] == t.base[name])
  }

  lemma UploadKeepsOthers(t: Transfer, d: Disk)
    requires t.handle.Some? && t.handle.value in d.cursors && WritingTemp(t, d)
    ensures OthersKept(t, d) && DestinationKept(t, d)
  {
  }

  // With the temporary closed: a success leaves exactly its bytes at the destination.
  lemma ReplacePuts(t: Transfer, d: Disk)
    requires t.kind == WriteFile && t.handle == None && Sized(t) && t.temp != t.path && t.temp !in t.base
    requires t.temp in d.files && d.files == t.base[t.temp := d.files[t.temp]] && ReplaceFile(t, d).reply.Some?
    ensures var s := ReplaceFile(t, d);
      && s.t.kind == NoTransfer && s.reply == Some(EndReply(t.size, t.crc))
      && s.disk.files == t.base[t.path := d.files[t.temp]]
      && (t.path in t.base ==> t.overwrite)
  {
    hide EndReply;
    var s := ReplaceFile(t, d);
    assert s.disk.files.Keys == t.base.Keys + {t.path};
  }

  /** A commit that succeeds puts the temporary's bytes in place of the destination, and nothing else changes. */
  lemma CommitReplaces(picture: Option<Picture>, t: Transfer, d: Disk, p: bytes)
    requires Inv(picture, t, d) && Commit(t, d, p).reply.Some?
    ensures var s := Commit(t, d, p);
      && Committing(t, p) && s.t.kind == NoTransfer
      && s.disk.files == t.base[t.path := d.files[t.temp]]
      && s.reply == Some(EndReply(t.size, t.crc))
      && (t.path in t.base ==> t.overwrite)
    ensures |t.accepted| == t.size && Crc32(0, t.accepted) == t.expected
  {
    hide GetU16, Crc32, EndReply, ReplaceFile;
    ReplacePuts(t.(handle := None), Close(d, t.handle.value));
  }

  lemma ReplaceEnds(t: Transfer, d: Disk)
    requires t.kind == WriteFile && t.handle == None && Sized(t) && d.cursors == map[]
    ensures var s := ReplaceFile(t, d); s.t == t.(kind := NoTransfer) && s.disk.cursors == map[]
  {
    hide EndReply;
    var (d1, existing) := Open(d, t.path);
    if existing.Some? {
      assert Close(d1, existing.value).cursors == map[];
    }
  }

  lemma CommitKeeps(picture: Option<Picture>, t: Transfer, d: Disk, p: bytes)
    requires Inv(picture, t, d)
    ensures var s := Commit(t, d, p);
      && Inv(picture, s.t, s.disk)
      && (s.t.kind != t.kind <==> Committing(t, p))
      && (Committing(t, p) ==> s.t.kind == NoTransfer)
      && (!Committing(t, p) ==> s.t == t && s.disk == d && s.reply == None)
  {
    hide GetU16, Crc32, ReplaceFile;
    if Committing(t, p) {
      var closed := Close(d, t.handle.value);
      NothingOpen(closed);
      ReplaceEnds(t.(handle := None), closed);
    }
  }

  // Giving up with the file closed: one remove, which takes the temporary unless DOS fails it.
  lemma GiveUpLeaves(t: Transfer, d: Disk, rest: map<Path, bytes>)
    requires t.kind == WriteFile && t.handle == None && t.temp in d.files && t.temp !in rest
    requires d.files == rest[t.temp := d.files[t.temp]]
    ensures GiveUp(t, d).disk.files == if NextFate(d).Fails? then d.files else rest
  {
    assert d.files - {t.temp} == rest;
  }

  lemma RenameLeaves(t: Transfer, d: Disk, rest: map<Path, bytes>)
    requires t.kind == WriteFile && t.handle == None && t.temp in d.files && t.temp !in rest && Sized(t)
    requires d.files == rest[t.temp := d.files[t.temp]]
    ensures RenameTemp(t, d).reply == None ==>
      RenameTemp(t, d).disk.files == if FateAt(d, 1).Fails? then d.files else rest
  {
    hide GiveUp, EndReply;
    var (d1, renamed) := Rename(d, t.temp, t.path);
    if !renamed {
      assert NextFate(d1) == FateAt(d, 1);
      GiveUpLeaves(t, d1, rest);
    }
  }

  // What is left beside the temporary when a commit is refused.
  function Remains(t: Transfer, d: Disk): map<Path, bytes> {
    if LosesDestination(t, d) then t.base - {t.path} else t.base
  }

  // Which of the calls of a refused commit removes the temporary: the last one, on each branch.
  function LastRemove(t: Transfer, d: Disk): nat {
    if t.path !in d.files || FateAt(d, 1).Fails? || !t.overwrite then 3
    else if FateAt(d, 3).Fails? then 4
    else 5
  }

  // The files a refused commit leaves: no temporary, unless DOS failed to remove it.
  function RefusedFiles(t: Transfer, d: Disk): map<Path, bytes>
    requires t.temp in d.files
  {
    if FateAt(d, LastRemove(t, d)).Fails? then Remains(t, d)[t.temp := d.files[t.temp]] else Remains(t, d)
  }

  lemma ReplaceRefused(t: Transfer, d: Disk, closed: Disk)
    requires t.kind == WriteFile && t.handle == None && Sized(t) && t.temp != t.path && t.temp !in t.base
    requires t.temp in d.files && d.files == t.base[t.temp := d.files[t.temp]]
    requires closed.files == d.files && closed.fates == (if d.fates == [] then [] else d.fates[1..])
    requires ReplaceFile(t, closed).reply == None
    ensures ReplaceFile(t, closed).disk.files == RefusedFiles(t, d)
  {
    hide GiveUp, RenameTemp, EndReply;
    var (d1, existing) := Open(closed, t.path);
    assert FateAt(d, 1) == NextFate(closed);
    if existing.None? {
      assert FateAt(d1, 1) == FateAt(d, 3);
      RenameLeaves(t, d1, t.base);
      assert t.path in d.files ==> FateAt(d, 1).Fails?;
    } else {
      var d2 := Close(d1, existing.value);
      assert FateAt(d, 3) == NextFate(d2);
      if !t.overwrite {
        GiveUpLeaves(t, d2, t.base);
      } else {
        var (d3, removed) := Remove(d2, t.path);
        assert FateAt(d, 4) == NextFate(d3) && FateAt(d, 5) == FateAt(d3, 1);
        if removed {
          assert d3.files == (t.base - {t.path})[t.temp := d.files[t.temp]];
          RenameLeaves(t, d3, t.base - {t.path});
          RenameOntoFree(t, d3);
        } else {
          GiveUpLeaves(t, d3, t.base);
        }
      }
    }
  }

  lemma RenameOntoFree(t: Transfer, d: Disk)
    requires Sized(t) && t.temp in d.files && t.path !in d.files
    ensures RenameTemp(t, d).reply == None <==> NextFate(d).Fails?
  {
    hide EndReply;
  }

  /**
   A commit that is refused leaves exactly: the files from before the upload, without the
   destination if and only if it was removed before a rename that failed, and without the temporary
   unless the last call of the refusal, its removal, fails.
   */
  lemma RefusedCommit(picture: Option<Picture>, t: Transfer, d: Disk, p: bytes)
    requires Inv(picture, t, d) && Committing(t, p) && Commit(t, d, p).reply == None
    ensures var s := Commit(t, d, p);
      && t.temp in d.files && s.disk.files == RefusedFiles(t, d)
      && (t.temp in s.disk.files <==> FateAt(d, LastRemove(t, d)).Fails?)
      && OthersKept(t, s.disk)
      && (DestinationKept(t, s.disk) <==> !LosesDestination(t, d))
      && (LosesDestination(t, d) ==> t.path !in s.disk.files)
  {
    hide GetU16, Crc32, ReplaceFile;
    var s, t' := Commit(t, d, p), t.(handle := None);
    ReplaceRefused(t', d, Close(d, t.handle.value));
    LossMatters(t, d);
    RefusedKeeps(t, d);
  }

  lemma RefusedKeeps(t: Transfer, d: Disk)
    requires t.temp != t.path && t.temp !in t.base && t.temp in d.files
    requires LosesDestination(t, d) ==> t.path in t.base
    ensures var d' := d.(files := RefusedFiles(t, d));
      && OthersKept(t, d') && (DestinationKept(t, d') <==> !LosesDestination(t, d))
      && (LosesDestination(t, d) ==> t.path !in d'.files)
      && (t.temp in d'.files <==> FateAt(d, LastRemove(t, d)).Fails?)
  {
    hide LosesDestination, LastRemove;
  }

  lemma LossMatters(t: Transfer, d: Disk)
    requires t.temp != t.path && t.temp in d.files && d.files == t.base[t.temp := d.files[t.temp]]
    ensures LosesDestination(t, d) ==> t.path in t.base && t.base - {t.path} != t.base
  {
    if LosesDestination(t, d) {
      assert t.path in t.base && t.path !in t.base - {t.path};
    }
  }

  // A commit whose rename onto a free name cannot fail loses nothing.
  lemma ReliableRename(picture: Option<Picture>, t: Transfer, d: Disk, p: bytes)
    requires Inv(picture, t, d) && Committing(t, p) && Commit(t, d, p).reply == None
    requires FateAt(d, 4) != Fails
    ensures DestinationKept(t, Commit(t, d, p).disk)
  {
    hide Commit, Crc32;
    RefusedCommit(picture, t, d, p);
  }

  /** What is committed is what was acknowledged exactly when the temporary holds no more than was acknowledged. */
  lemma CommittedIsAccepted(picture: Option<Picture>, t: Transfer, d: Disk, p: bytes)
    requires Inv(picture, t, d) && Commit(t, d, p).reply.Some?
    ensures Commit(t, d, p).disk.files[t.path] == t.accepted <==> !Torn(t, d)
  {
    hide Commit, Crc32;
    CommitReplaces(picture, t, d, p);
  }

  // --- Over whole runs ---

  lemma InvParts(picture: Option<Picture>, t: Transfer, d: Disk)
    requires Inv(picture, t, d)
    ensures Sized(t) && Still(t, picture)
  {
  }

  lemma PerformKeeps(config: Config, picture: Option<Picture>, t: Transfer, d: Disk, op: Operation, p: bytes)
    requires Inv(picture, t, d)
    ensures var s := Perform(config, picture, t, d, op, p); Inv(picture, s.t, s.disk)
  {
    hide Inv, BeginRead, ReadBlock, EndRead, BeginWrite, WriteBlock, Commit, Abort, BeginGraphics, ReadGraphics, GiveUp;
    InvParts(picture, t, d);
    match op
    case ReadBeginOp(drawn) => BeginReadKeeps(config, picture, t, d, p, drawn);
    case ReadBlockOp => ReadBlockKeeps(picture, t, d, p);
    case EndOp(_) => EndReadKeeps(picture, t, d, p);
    case WriteBeginOp(drawn) => BeginWriteKeeps(config, picture, t, d, p, drawn);
    case WriteBlockOp => WriteBlockKeeps(picture, t, d, p);
    case CommitOp => CommitKeeps(picture, t, d, p);
    case AbortOp => AbortKeeps(picture, t, d, p);
    case GraphicsBeginOp(drawn) => GraphicsKeeps(picture, t, d, p, drawn);
    case GraphicsBlockOp => GraphicsKeeps(picture, t, d, p, 0);
    case ExpireOp =>
      if t.kind != NoTransfer {
        GiveUpKeeps(picture, t, d);
      }
  }

  ghost function Run(config: Config, picture: Option<Picture>, t: Transfer, d: Disk, ops: seq<(Operation, bytes)>)
    : (r: (Transfer, Disk))
    requires Inv(picture, t, d)
    ensures Inv(picture, r.0, r.1)
    decreases ops
  {
    hide Perform, Inv;
    if ops == [] then (t, d)
    else
      InvParts(picture, t, d);
      PerformKeeps(config, picture, t, d, ops[0].0, ops[0].1);
      var s := Perform(config, picture, t, d, ops[0].0, ops[0].1);
      Run(config, picture, s.t, s.disk, ops[1..])
  }

  // The same upload, still under way.
  ghost predicate SameUpload(t: Transfer, later: Transfer) {
    later.kind == WriteFile && later.base == t.base && later.temp == t.temp && later.path == t.path
    && later.size == t.size && later.expected == t.expected && later.overwrite == t.overwrite
  }

  // How a step may end an upload: the commit puts the temporary's bytes at the destination and
  // leaves no temporary; any other end leaves the files as they were, but for a temporary DOS
  // failed to remove and for a destination removed before a rename that failed.
  ghost predicate UploadEnded(t: Transfer, d: Disk, op: Operation, p: bytes, s: Step)
    requires t.temp in d.files
  {
    && s.t.kind == NoTransfer
    && if s.reply.Some? && op.CommitOp? then
         s.disk.files == t.base[t.path := d.files[t.temp]] && t.temp !in s.disk.files
         && (t.path in t.base ==> t.overwrite)
       else
         s.disk.files == (if op.CommitOp? then RefusedFiles(t, d) else if FateAt(d, 1).Fails? then d.files else t.base)
         && (t.temp in s.disk.files <==> FateAt(d, if op.CommitOp? then LastRemove(t, d) else 1).Fails?)
         && OthersKept(t, s.disk)
         && (DestinationKept(t, s.disk) <==> !(op.CommitOp? && LosesDestination(t, d)))
  }

  lemma GivenUpKeepsOthers(t: Transfer, d: Disk)
    requires t.temp != t.path && t.temp !in t.base && GivenUp(t, d)
    ensures OthersKept(t, d) && DestinationKept(t, d)
  {
  }

  /** While an upload is active, a step changes the files in its temporary only, or ends the upload. */
  lemma UploadStep(config: Config, picture: Option<Picture>, t: Transfer, d: Disk, op: Operation, p: bytes)
    requires Inv(picture, t, d) && t.kind == WriteFile && t.temp in d.files
    ensures var s := Perform(config, picture, t, d, op, p);
      || (SameUpload(t, s.t) && OthersKept(t, s.disk) && DestinationKept(t, s.disk))
      || UploadEnded(t, d, op, p, s)
  {
    hide BeginRead, ReadBlock, EndRead, BeginWrite, WriteBlock, Commit, Abort, BeginGraphics, ReadGraphics, GiveUp;
    hide Crc32, Committing, LosesDestination;
    PerformKeeps(config, picture, t, d, op, p);
    var s := Perform(config, picture, t, d, op, p);
    UploadKeepsOthers(t, d);
    match op
    case CommitOp =>
      CommitKeeps(picture, t, d, p);
      if s.reply.Some? {
        CommitReplaces(picture, t, d, p);
      } else if Committing(t, p) {
        RefusedCommit(picture, t, d, p);
      }
    case AbortOp =>
      AbortKeeps(picture, t, d, p);
      GiveUpKeeps(picture, t, d);
      if s.reply.Some? {
        GivenUpKeepsOthers(t, s.disk);
      }
    case ExpireOp =>
      GiveUpKeeps(picture, t, d);
      GivenUpKeepsOthers(t, s.disk);
    case _ => OtherwiseSame(config, picture, t, d, op, p);
  }

  lemma OtherwiseSame(config: Config, picture: Option<Picture>, t: Transfer, d: Disk, op: Operation, p: bytes)
    requires Inv(picture, t, d) && t.kind == WriteFile && !op.CommitOp? && !op.AbortOp? && !op.ExpireOp?
    ensures var s := Perform(config, picture, t, d, op, p);
      SameUpload(t, s.t) && OthersKept(t, s.disk) && DestinationKept(t, s.disk)
  {
    hide Crc32, InSequence, BlockReply, Value, BuildPath, GetU16, GetU32, Wanted;
    UploadKeepsOthers(t, d);
    if op.WriteBlockOp? {
      WriteBlockKeeps(picture, t, d, p);
      var s := WriteBlock(t, d, p);
      UploadKeepsOthers(s.t, s.disk);
    }
  }

  /** Over any run that does not end it, an upload changes nothing but its own temporary file. */
  lemma {:induction false} UploadRun(config: Config, picture: Option<Picture>, t: Transfer, d: Disk, ops: seq<(Operation, bytes)>)
    requires Inv(picture, t, d) && t.kind == WriteFile
    requires forall n :: 0 <= n <= |ops| ==> Run(config, picture, t, d, ops[..n]).0.kind == WriteFile
    ensures var (t', d') := Run(config, picture, t, d, ops);
      SameUpload(t, t') && OthersKept(t, d') && DestinationKept(t, d')
    decreases |ops|
  {
    hide Perform, Inv, SameUpload, OthersKept, DestinationKept;
    if ops == [] {
      UploadRunStart(picture, t, d);
    } else {
      var init, last := ops[..|ops| - 1], ops[|ops| - 1];
      forall n | 0 <= n <= |init|
        ensures Run(config, picture, t, d, init[..n]).0.kind == WriteFile
      {
        assert init[..n] == ops[..n];
      }
      UploadRun(config, picture, t, d, init);
      assert ops[..|ops|] == ops && ops == init + [last];
      var (t1, d1) := Run(config, picture, t, d, init);
      RunLast(config, picture, t, d, init, last);
      UploadGoesOn(config, picture, t, t1, d1, last.0, last.1);
    }
  }

  lemma UploadRunStart(picture: Option<Picture>, t: Transfer, d: Disk)
    requires Inv(picture, t, d) && t.kind == WriteFile
    ensures SameUpload(t, t) && OthersKept(t, d) && DestinationKept(t, d)
  {
    hide Crc32;
    UploadKeepsOthers(t, d);
  }

  lemma UploadGoesOn(config: Config, picture: Option<Picture>, t: Transfer, t1: Transfer, d1: Disk, op: Operation, p: bytes)
    requires Inv(picture, t1, d1) && SameUpload(t, t1)
    requires Perform(config, picture, t1, d1, op, p).t.kind == WriteFile
    ensures var s := Perform(config, picture, t1, d1, op, p);
      SameUpload(t, s.t) && OthersKept(t, s.disk) && DestinationKept(t, s.disk)
  {
    hide Perform, Crc32, LosesDestination;
    UploadStep(config, picture, t1, d1, op, p);
  }

  lemma {:induction false} RunLast(config: Config, picture: Option<Picture>, t: Transfer, d: Disk,
                                   init: seq<(Operation, bytes)>, last: (Operation, bytes))
    requires Inv(picture, t, d)
    ensures var (t1, d1) := Run(config, picture, t, d, init);
      && Sized(t1) && Still(t1, picture)
      && var s := Perform(config, picture, t1, d1, last.0, last.1);
         Run(config, picture, t, d, init + [last]) == (s.t, s.disk)
    decreases |init|
  {
    hide Perform, Inv;
    InvParts(picture, t, d);
    PerformKeeps(config, picture, t, d, if init == [] then last.0 else init[0].0, if init == [] then last.1 else init[0].1);
    if init == [] {
      assert (init + [last])[1..] == [];
    } else {
      var s := Perform(config, picture, t, d, init[0].0, init[0].1);
      assert (init + [last])[1..] == init[1..] + [last];
      RunLast(config, picture, s.t, s.disk, init[1..], last);
    }
    var (t1, d1) := Run(config, picture, t, d, init);
    InvParts(picture, t1, d1);
  }

  // --- Writes cut short ---

  // DOS takes some bytes of a block, but not all of it.
  ghost predicate CutShort(t: Transfer, d: Disk, op: Operation, p: bytes) {
    hide GetU16, InSequence;
    && op.WriteBlockOp? && t.kind == WriteFile && InSequence(t, p) && |p| >= 8
    && NextFate(d).Moves? && 0 < NextFate(d).limit < |p| - 8
  }

  // A write at the end of a file makes it longer by what it takes.
  lemma WriteGrows(d: Disk, handle: nat, data: bytes)
    requires handle in d.cursors && d.cursors[handle].path in d.files
    requires d.cursors[handle].position == |d.files[d.cursors[handle].path]|
    ensures var path, (d', written) := d.cursors[handle].path, Write(d, handle, data);
      && d'.files.Keys == d.files.Keys
      && written == (if NextFate(d).Fails? then None else Some(Min(|data|, NextFate(d).limit)))
      && |d'.files[path]| == |d.files[path]| + (if written.Some? then written.value else 0)
  {
    var path := d.cursors[handle].path;
    assert Write(d, handle, data).0.files.Keys == d.files.Keys + {path};
  }

  lemma TornBlock(t: Transfer, d: Disk, p: bytes)
    requires Sized(t) && HandleOpen(t, d) && t.kind == WriteFile && WritingTemp(t, d)
    ensures var s := WriteBlock(t, d, p); Torn(s.t, s.disk) <==> Torn(t, d) || CutShort(t, d, WriteBlockOp, p)
  {
    hide Crc32, InSequence, BlockReply, Write, GetU16;
    if InSequence(t, p) {
      InSequenceFits(t, p);
      assert |p[8..]| == |p| - 8;
      WriteGrows(d, t.handle.value, p[8..]);
    }
  }

  lemma TornStep(config: Config, picture: Option<Picture>, t: Transfer, d: Disk, op: Operation, p: bytes)
    requires Inv(picture, t, d) && t.kind == WriteFile && Perform(config, picture, t, d, op, p).t.kind == WriteFile
    ensures var s := Perform(config, picture, t, d, op, p);
      Torn(s.t, s.disk) <==> Torn(t, d) || CutShort(t, d, op, p)
  {
    hide Crc32, InSequence, BlockReply, Write, WriteBlock, Commit, Value, BuildPath, GetU16, GetU32, Wanted;
    if op.WriteBlockOp? {
      TornBlock(t, d, p);
    } else if op.CommitOp? {
      CommitKeeps(picture, t, d, p);
    }
  }

  // Some write of a run is cut short.
  ghost predicate SomeCutShort(config: Config, picture: Option<Picture>, t: Transfer, d: Disk, ops: seq<(Operation, bytes)>)
    requires Inv(picture, t, d)
    decreases ops
  {
    hide Perform, Inv, CutShort;
    ops != []
    && (InvParts(picture, t, d);
        PerformKeeps(config, picture, t, d, ops[0].0, ops[0].1);
        var s := Perform(config, picture, t, d, ops[0].0, ops[0].1);
        CutShort(t, d, ops[0].0, ops[0].1) || SomeCutShort(config, picture, s.t, s.disk, ops[1..]))
  }

  // The upload is under way all along.
  ghost predicate Uploading(config: Config, picture: Option<Picture>, t: Transfer, d: Disk, ops: seq<(Operation, bytes)>)
    requires Inv(picture, t, d)
    decreases ops
  {
    hide Perform, Inv;
    t.kind == WriteFile
    && (ops == []
        || (InvParts(picture, t, d);
            PerformKeeps(config, picture, t, d, ops[0].0, ops[0].1);
            var s := Perform(config, picture, t, d, ops[0].0, ops[0].1);
            Uploading(config, picture, s.t, s.disk, ops[1..])))
  }

  /** The temporary comes to hold more than was acknowledged exactly when some write is cut short, but not to nothing. */
  lemma {:induction false} TornExactly(config: Config, picture: Option<Picture>, t: Transfer, d: Disk, ops: seq<(Operation, bytes)>)
    requires Inv(picture, t, d) && Uploading(config, picture, t, d, ops)
    ensures var (t', d') := Run(config, picture, t, d, ops);
      Torn(t', d') <==> Torn(t, d) || SomeCutShort(config, picture, t, d, ops)
    decreases ops
  {
    hide Perform, Inv, CutShort, Torn;
    if ops != [] {
      InvParts(picture, t, d);
      PerformKeeps(config, picture, t, d, ops[0].0, ops[0].1);
      var s := Perform(config, picture, t, d, ops[0].0, ops[0].1);
      TornStep(config, picture, t, d, ops[0].0, ops[0].1);
      TornExactly(config, picture, s.t, s.disk, ops[1..]);
    }
  }
}
