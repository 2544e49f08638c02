/**
 Installed for one directory, the agent stays in it: over every run of transfers, whatever they name,
 only files below the directory are opened, and no other file changes.
 */
module Confinement {
  import opened AgentTransfers
  import opened Bytes
  import Checksums
  import opened DosFiles
  import opened DosPaths
  import PacketMac
  import opened PathSafety
  import opened TransferSafety
  import opened Wrappers

  // A file below the directory of the installation.
  ghost predicate Below(config: Config, path: Path) {
    exists prefix, name :: Prefixes(prefix, config.root) && Inner(name) && path == prefix + name
  }

  // The transfer under way, if any, is of files below the directory.
  ghost predicate Confined(config: Config, t: Transfer) {
    && (t.kind == ReadFile || t.kind == WriteFile ==> Below(config, t.path))
    && (t.kind == WriteFile ==> Below(config, t.temp))
  }

  // The same files, but for some below the directory.
  ghost predicate OthersSame(config: Config, was: map<Path, bytes>, now: map<Path, bytes>) {
    forall path :: !Below(config, path) ==> (path in was <==> path in now) && (path in was ==> now[path] == was[path])
  }

  lemma AcceptedIsBelow(config: Config, value: bytes)
    requires !config.unrestricted && BuildPath(config, value).Some?
    ensures Below(config, BuildPath(config, value).value)
  {
    hide BuildPath, Inner, Prefixes;
    CStringIsName(value);
    var prefix, name := InsideLiesBelow(config, value, |CString(value)|);
  }

  // --- Names of temporary files ---

  lemma HexIsPlain(n: nat)
    requires n < 16
    ensures !Forbidden(HexDigit(n)) && !Separator(HexDigit(n))
  {
    if n < 10 {
      DigitIsPlain(n);
    } else {
      LetterIsPlain(n);
    }
  }

  lemma DigitIsPlain(n: nat)
    requires n < 10
    ensures !Forbidden(Low(48 + n)) && !Separator(Low(48 + n))
  {
    hide Low, Value, Forbidden, Separator;
    var digits: bytes := [0x30, 0x31, 0x32, 0x33, 0x34, 0x35, 0x36, 0x37, 0x38, 0x39];
    DigitValues();
    LowIs(48 + n, digits[n]);
  }

  lemma DigitValues()
    ensures var digits: bytes := [0x30, 0x31, 0x32, 0x33, 0x34, 0x35, 0x36, 0x37, 0x38, 0x39];
      forall n :: 0 <= n < 10 ==>
        Value(digits[n]) == 48 + n && !Forbidden(digits[n]) && !Separator(digits[n])
  {
    assert Value(0x30) == 48 && Value(0x31) == 49 && Value(0x32) == 50 && Value(0x33) == 51 && Value(0x34) == 52;
    assert Value(0x35) == 53 && Value(0x36) == 54 && Value(0x37) == 55 && Value(0x38) == 56 && Value(0x39) == 57;
  }

  lemma LetterIsPlain(n: nat)
    requires 10 <= n < 16
    ensures !Forbidden(Low(55 + n)) && !Separator(Low(55 + n))
  {
    hide Low;
    var letters: bytes := [0x41, 0x42, 0x43, 0x44, 0x45, 0x46];
    assert Value(letters[n - 10]) == 55 + n;
    LowIs(55 + n, letters[n - 10]);
  }

  lemma FixedPieces()
    ensures Ascii("DM") == [0x44, 0x4D] && Ascii(".TMP") == [DOT, 0x54, 0x4D, 0x50]
  {
    hide Low;
    LowIs(0x44, 0x44);
    LowIs(0x4D, 0x4D);
    LowIs(0x2E, 0x2E);
    LowIs(0x54, 0x54);
    LowIs(0x50, 0x50);
  }

  lemma TempIsInner(id: Word, attempt: nat)
    requires attempt < 16
    ensures Inner(TempName([], id, attempt)) && |TempName([], id, attempt)| == 11
  {
    hide Low, HexDigit, Ascii, Forbidden, Separator;
    FixedPieces();
    HexIsPlain(id / 4096);
    HexIsPlain(id / 256 % 16);
    HexIsPlain(id / 16 % 16);
    HexIsPlain(id % 16);
    HexIsPlain(attempt);
    FixedArePlain();
    var name := TempName([], id, attempt);
    assert forall k :: 0 <= k < 11 ==> !Forbidden(name[k]) && !Separator(name[k]);
    WholeIsPart(name);
  }

  lemma FixedArePlain()
    ensures forall c :: c in [0x44, 0x4D, DOT, 0x54, 0x50] ==> !Forbidden(c) && !Separator(c)
  {
  }

  lemma TempIsBelow(config: Config, id: Word, attempt: nat)
    requires attempt < 16
    ensures Below(config, TempName(Fold(WithSeparator(config.root)), id, attempt))
  {
    hide Inner, Prefixes, HexDigit, Ascii;
    var prefix, name := Fold(WithSeparator(config.root)), TempName([], id, attempt);
    RootPrefixes(config.root);
    TempIsInner(id, attempt);
    assert TempName(prefix, id, attempt) == prefix + name;
  }

  lemma {:induction false} CreatedIsBelow(config: Config, d: Disk, path: Path, id: Word, attempt: nat)
    requires attempt <= 16
    ensures var created := CreateTemp(d, Fold(WithSeparator(config.root)), path, id, attempt).1;
      created.Some? ==> Below(config, created.value.0)
    decreases 16 - attempt
  {
    hide TempName, Below;
    if attempt < 16 {
      TempIsBelow(config, id, attempt);
      var prefix := Fold(WithSeparator(config.root));
      var name := TempName(prefix, id, attempt);
      CreatedIsBelow(config, d, path, id, attempt + 1);
      CreatedIsBelow(config, CreateNew(d, name).0, path, id, attempt + 1);
    }
  }

  // --- Every request ---

  lemma ReadBegins(config: Config, t: Transfer, d: Disk, p: bytes, drawn: Word)
    requires !config.unrestricted && t.kind == NoTransfer
    ensures Confined(config, BeginRead(config, t, d, p, drawn).t)
  {
    hide Value, BuildPath, Below, BeginReply;
    if |p| > 0 && BuildPath(config, p[1..]).Some? {
      AcceptedIsBelow(config, p[1..]);
    }
  }

  lemma WriteBegins(config: Config, t: Transfer, d: Disk, p: bytes, drawn: Word)
    requires !config.unrestricted && t.kind == NoTransfer
    ensures Confined(config, BeginWrite(config, t, d, p, drawn).t)
  {
    hide Value, GetU32, BuildPath, Below, BeginReply, PacketMac.Word32, CreateUpload;
    if |p| >= 10 && GetU32(p[1..5]) <= TSR_FILE_MAX && BuildPath(config, p[10..]).Some? {
      AcceptedIsBelow(config, p[10..]);
      var named := t.(path := BuildPath(config, p[10..]).value);
      UploadBegins(config, named, d, p, drawn);
      UploadBegins(config, named, Open(d, named.path).0, p, drawn);
    }
  }

  lemma UploadBegins(config: Config, t: Transfer, d: Disk, p: bytes, drawn: Word)
    requires !config.unrestricted && t.kind == NoTransfer && Below(config, t.path)
    requires |p| >= 10 && GetU32(p[1..5]) <= TSR_FILE_MAX
    ensures Confined(config, CreateUpload(config, t, d, p, drawn).t)
  {
    hide Value, GetU32, Below, BeginReply, PacketMac.Word32, CreateTemp, Fold;
    CreatedIsBelow(config, d, t.path, NextTransferId(drawn), 0);
  }

  lemma UploadStays(config: Config, picture: Option<Picture>, t: Transfer, d: Disk, op: Operation, p: bytes)
    requires Inv(picture, t, d) && t.kind == WriteFile && Confined(config, t)
    ensures var s := Perform(config, picture, t, d, op, p);
      Confined(config, s.t) && OthersSame(config, d.files, s.disk.files)
  {
    hide Perform, Below, Checksums.Crc32, RefusedFiles, LastRemove, LosesDestination;
    UploadKeepsOthers(t, d);
    UploadStep(config, picture, t, d, op, p);
    var s := Perform(config, picture, t, d, op, p);
    forall path | !Below(config, path)
      ensures path != t.path && path != t.temp
    {
    }
  }

  lemma OthersSameItself(config: Config, files: map<Path, bytes>)
    ensures OthersSame(config, files, files)
  {
  }

  lemma OneMoreBelow(config: Config, files: map<Path, bytes>, path: Path, content: bytes)
    requires Below(config, path)
    ensures OthersSame(config, files, files[path := content])
  {
    hide Below;
  }

  /** Every request keeps the agent below its directory: what it opens, and what it changes. */
  lemma PerformStays(config: Config, picture: Option<Picture>, t: Transfer, d: Disk, op: Operation, p: bytes)
    requires !config.unrestricted && Inv(picture, t, d) && Confined(config, t)
    ensures Sized(t) && Still(t, picture)
    ensures var s := Perform(config, picture, t, d, op, p);
      Confined(config, s.t) && OthersSame(config, d.files, s.disk.files)
  {
    InvParts(picture, t, d);
    hide Inv, BeginRead, ReadBlock, EndRead, BeginWrite, WriteBlock, Commit, Abort, BeginGraphics, ReadGraphics;
    hide GiveUp, Below, OthersSame;
    OthersSameItself(config, d.files);
    if t.kind == WriteFile {
      UploadStays(config, picture, t, d, op, p);
    } else {
      match op
      case ReadBeginOp(drawn) =>
        BeginReadKeeps(config, picture, t, d, p, drawn);
        ReadBeginStays(config, t, d, p, drawn);
      case WriteBeginOp(drawn) =>
        WriteBeginStays(config, picture, t, d, p, drawn);
      case ReadBlockOp =>
        ReadBlockKeeps(picture, t, d, p);
        BlockKeepsPath(t, d, p);
      case EndOp(_) =>
        EndReadKeeps(picture, t, d, p);
        EndKeepsPath(t, d, p);
      case WriteBlockOp =>
        WriteBlockKeeps(picture, t, d, p);
        NoUpload(t, d, p);
      case CommitOp => CommitKeeps(picture, t, d, p);
      case AbortOp =>
        AbortKeeps(picture, t, d, p);
        if t.kind != NoTransfer {
          GiveUpKeeps(picture, t, d);
        }
      case GraphicsBeginOp(drawn) =>
        GraphicsKeeps(picture, t, d, p, drawn);
        CaptureStays(config, t, d, p, picture, drawn);
      case GraphicsBlockOp => GraphicsKeeps(picture, t, d, p, 0);
      case ExpireOp =>
        if t.kind != NoTransfer {
          GiveUpKeeps(picture, t, d);
        }
    }
  }

  lemma ReadBeginStays(config: Config, t: Transfer, d: Disk, p: bytes, drawn: Word)
    requires !config.unrestricted && Confined(config, t)
    ensures Confined(config, BeginRead(config, t, d, p, drawn).t)
  {
    hide Value, BuildPath, Below, StartRead;
    if t.kind == NoTransfer {
      ReadBegins(config, t, d, p, drawn);
    }
  }

  lemma WriteBeginStays(config: Config, picture: Option<Picture>, t: Transfer, d: Disk, p: bytes, drawn: Word)
    requires !config.unrestricted && Inv(picture, t, d) && Confined(config, t)
    ensures var s := BeginWrite(config, t, d, p, drawn);
      Confined(config, s.t) && OthersSame(config, d.files, s.disk.files)
  {
    hide Inv, Below, OthersSame;
    BeginWriteKeeps(config, picture, t, d, p, drawn);
    OthersSameItself(config, d.files);
    if t.kind == NoTransfer {
      WriteBegins(config, t, d, p, drawn);
      hide BeginWrite;
      var s := BeginWrite(config, t, d, p, drawn);
      if s.t.kind == WriteFile {
        OneMoreBelow(config, d.files, s.t.temp, []);
      }
    }
  }

  lemma BlockKeepsPath(t: Transfer, d: Disk, p: bytes)
    requires Sized(t)
    ensures var s := ReadBlock(t, d, p); s.t.path == t.path && s.t.kind == t.kind && s.t.temp == t.temp
  {
    hide Wanted, BlockReply, Checksums.Crc32;
  }

  lemma EndKeepsPath(t: Transfer, d: Disk, p: bytes)
    requires Sized(t)
    ensures var s := EndRead(t, d, p); s.t.path == t.path && s.t.temp == t.temp && s.t.kind in {t.kind, NoTransfer}
  {
    hide GetU16, EndReply;
  }

  lemma NoUpload(t: Transfer, d: Disk, p: bytes)
    requires Sized(t) && t.kind != WriteFile
    ensures WriteBlock(t, d, p).t == t
  {
  }

  lemma CaptureStays(config: Config, t: Transfer, d: Disk, p: bytes, picture: Option<Picture>, drawn: Word)
    requires Confined(config, t)
    ensures Confined(config, BeginGraphics(t, d, p, picture, drawn).t)
  {
    hide PutU16, Below;
  }

  /**
   Over every run of transfers of an agent installed for one directory: no file changes that is not
   below it, and what is being read or written is.
   */
  lemma {:induction false} RunStays(config: Config, picture: Option<Picture>, t: Transfer, d: Disk,
                                    ops: seq<(Operation, bytes)>)
    requires !config.unrestricted && Inv(picture, t, d) && Confined(config, t)
    ensures var (t', d') := Run(config, picture, t, d, ops);
      Confined(config, t') && OthersSame(config, d.files, d'.files)
    decreases |ops|
  {
    hide Perform, Inv, Confined, Below;
    if ops == [] {
      OthersSameItself(config, d.files);
    } else {
      InvParts(picture, t, d);
      PerformKeeps(config, picture, t, d, ops[0].0, ops[0].1);
      PerformStays(config, picture, t, d, ops[0].0, ops[0].1);
      var s := Perform(config, picture, t, d, ops[0].0, ops[0].1);
      RunStays(config, picture, s.t, s.disk, ops[1..]);
    }
  }
}
