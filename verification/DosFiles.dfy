/**
 The DOS file calls the resident agent makes, on a map of file names to contents. Each call may
 fail, and a read or a write may move fewer bytes than asked for: `fates` decides, one entry a
 call. Every call is noted together with whether it was made where DOS may be entered.
 */
module DosFiles {
  import opened Bytes
  import opened Wrappers

  // A file name as DOS compares it: one name, one file.
  type Path = bytes

  datatype CallKind = OPEN | CREATE | READ | WRITE | SEEK | CLOSE | REMOVE | RENAME

  datatype Call = Call(kind: CallKind, inside: bool)

  datatype Fate = Fails | Moves(limit: nat)

  datatype Cursor = Cursor(path: Path, position: nat)

  datatype Disk = Disk(
    files: map<Path, bytes>,
    cursors: map<nat, Cursor>,
    next: nat,
    fates: seq<Fate>,
    inside: bool,
    trace: seq<Call>)

  // Out of fates, a call goes as well as it can.
  function NextFate(d: Disk): Fate {
    if d.fates == [] then Moves(0x1_0000) else d.fates[0]
  }

  function Noted(d: Disk, kind: CallKind): (r: Disk)
    ensures r.files == d.files && r.cursors == d.cursors && r.next == d.next && r.inside == d.inside
  {
    d.(trace := d.trace + [Call(kind, d.inside)], fates := if d.fates == [] then [] else d.fates[1..])
  }

  // `_dos_open`
  function Open(d: Disk, path: Path): (Disk, Option<nat>) {
    var n := Noted(d, OPEN);
    if NextFate(d).Fails? || path !in d.files then (n, None)
    else (n.(cursors := d.cursors[d.next := Cursor(path, 0)], next := d.next + 1), Some(d.next))
  }

  // `_dos_creatnew`: only a name no file has.
  function CreateNew(d: Disk, path: Path): (Disk, Option<nat>) {
    var n := Noted(d, CREATE);
    if NextFate(d).Fails? || path in d.files then (n, None)
    else (n.(files := d.files[path := []], cursors := d.cursors[d.next := Cursor(path, 0)], next := d.next + 1),
          Some(d.next))
  }

  // `_dos_close`
  function Close(d: Disk, handle: nat): Disk {
    var n := Noted(d, CLOSE);
    n.(cursors := n.cursors - {handle})
  }

  // `lseek` to the end and back: the size of the file.
  function Size(d: Disk, handle: nat): (Disk, Option<nat>) {
    var n := Noted(d, SEEK);
    if NextFate(d).Fails? || handle !in d.cursors || d.cursors[handle].path !in d.files then (n, None)
    else
      var m := Noted(n, SEEK);
      if NextFate(n).Fails? then (m, None)
      else (m.(cursors := d.cursors[handle := d.cursors[handle].(position := 0)]), Some(|d.files[d.cursors[handle].path]|))
  }

  // `_dos_read`
  function Read(d: Disk, handle: nat, count: nat): (r: (Disk, Option<bytes>))
    ensures r.1.Some? ==> |r.1.value| <= count
  {
    var n := Noted(d, READ);
    if NextFate(d).Fails? || handle !in d.cursors || d.cursors[handle].path !in d.files then (n, None)
    else
      var c := d.cursors[handle];
      var content := d.files[c.path];
      var from := Min(c.position, |content|);
      var to := Min(from + Min(count, NextFate(d).limit), |content|);
      (n.(cursors := d.cursors[handle := c.(position := to)]), Some(content[from..to]))
  }

  // `_dos_write` at the end of the file: how many bytes were taken.
  function Write(d: Disk, handle: nat, data: bytes): (r: (Disk, Option<nat>))
    ensures r.1.Some? ==> r.1.value <= |data|
  {
    var n := Noted(d, WRITE);
    if NextFate(d).Fails? || handle !in d.cursors || d.cursors[handle].path !in d.files then (n, None)
    else
      var c := d.cursors[handle];
      var content := d.files[c.path];
      var at := Min(c.position, |content|);
      var taken := Min(|data|, NextFate(d).limit);
      var after := if at + taken <= |content| then content[at + taken..] else [];
      (n.(files := d.files[c.path := content[..at] + data[..taken] + after],
          cursors := d.cursors[handle := c.(position := at + taken)]),
       Some(taken))
  }

  // `remove`
  function Remove(d: Disk, path: Path): (Disk, bool) {
    var n := Noted(d, REMOVE);
    if NextFate(d).Fails? || path !in d.files then (n, false)
    else (n.(files := d.files - {path}), true)
  }

  // `rename`: onto a free name only.
  function Rename(d: Disk, from: Path, to: Path): (Disk, bool) {
    var n := Noted(d, RENAME);
    if NextFate(d).Fails? || from !in d.files || to in d.files then (n, false)
    else (n.(files := (d.files - {from})[to := d.files[from]]), true)
  }

  // --- Where calls are made ---

  // The calls noted since `old`, all of them under its flag.
  ghost predicate Continues(d: Disk, later: Disk) {
    && later.inside == d.inside
    && |d.trace| <= |later.trace| && later.trace[..|d.trace|] == d.trace
    && forall i :: |d.trace| <= i < |later.trace| ==> later.trace[i].inside == d.inside
  }

  lemma ContinuesTwice(a: Disk, b: Disk, c: Disk)
    requires Continues(a, b) && Continues(b, c)
    ensures Continues(a, c)
  {
    assert c.trace[..|a.trace|] == c.trace[..|b.trace|][..|a.trace|];
    forall i | |a.trace| <= i < |c.trace|
      ensures c.trace[i].inside == a.inside
    {
      if i < |b.trace| {
        assert c.trace[i] == c.trace[..|b.trace|][i];
      }
    }
  }
}
