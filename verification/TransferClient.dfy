/**
 The bridge's transfers: `upload_file`, `download_file` and the block loop, over a link on which
 a request may be lost, be answered, or be left behind and reach the server later. On a link that
 answers every request, with a server that serves each in its place, they succeed. That the packets
 of a link come to such exchanges is LinkTransfers.
 */
module TransferClient {
  import opened Bytes
  import opened Checksums
  import opened TransferSpec
  import opened Wrappers

  const MAX_FILE_SIZE := 1_048_576
  const TRANSFER_BLOCK_SIZE := 900

  datatype ClientError = PolicyDenied | TooLarge | Failed

  datatype Numbered = Numbered(number: nat, request: Request)

  // The commits of requests numbered from `start` on.
  function Since(commits: seq<Commit>, start: nat): seq<Commit> {
    if commits == [] then []
    else
      var rest, c := Since(commits[..|commits| - 1], start), commits[|commits| - 1];
      if c.number >= start then rest + [c] else rest
  }

  lemma SinceOne(commits: seq<Commit>, c: Commit, start: nat)
    ensures Since(commits + [c], start)
      == if c.number >= start then Since(commits, start) + [c] else Since(commits, start)
  {
    assert (commits + [c])[..|commits|] == commits;
  }

  lemma {:induction false} SinceNone(commits: seq<Commit>, start: nat)
    requires forall i :: 0 <= i < |commits| ==> commits[i].number < start
    ensures Since(commits, start) == []
  {
    if commits != [] {
      SinceNone(commits[..|commits| - 1], start);
    }
  }

  // --- Requests in flight ---

  ghost predicate Answers(s: Server, head: Numbered, next: Server)
    requires Valid(s)
  {
    exists reply :: Allowed(s, head.number, head.request, next, reply)
  }

  // Some of the queue dispatched in order, the rest of it lost.
  ghost predicate Runs(s: Server, queue: seq<Numbered>, next: Server)
    requires Valid(s)
    decreases queue
  {
    if queue == [] then s == next
    else
      Runs(s, queue[1..], next)
      || exists m: Server :: Valid(m) && Answers(s, queue[0], m) && Runs(m, queue[1..], next)
  }

  lemma {:induction false} RunsLonger(s: Server, queue: seq<Numbered>, m: Server, last: Numbered, next: Server)
    requires Valid(s) && Valid(m) && Runs(s, queue, m) && (m == next || Answers(m, last, next))
    requires Valid(next)
    ensures Runs(s, queue + [last], next)
    decreases queue
  {
    hide Allowed, Answers;
    var all := queue + [last];
    if queue == [] {
      assert all[1..] == [];
      assert Runs(next, [], next);
    } else {
      assert all[1..] == queue[1..] + [last] && all[0] == queue[0];
      if Runs(s, queue[1..], m) {
        RunsLonger(s, queue[1..], m, last, next);
      } else {
        var k: Server :| Valid(k) && Answers(s, queue[0], k) && Runs(k, queue[1..], m);
        RunsLonger(k, queue[1..], m, last, next);
      }
    }
  }

  // One exchange over a link: of what was on its way and the request itself, the first `taken` were
  // dispatched or lost, in order. A reply is that of the request's own dispatch, and then nothing is left.
  ghost predicate Exchanged(was: Server, late: seq<Numbered>, own: Numbered, now: Server, left: seq<Numbered>,
                            taken: nat, before: Server, r: Option<Reply>)
    requires Valid(was)
  {
    var queue := late + [own];
    && taken <= |queue| && left == queue[taken..]
    && Runs(was, queue[..taken], now)
    && (r.Some? ==>
          left == [] && Valid(before) && Runs(was, late, before) && Allowed(before, own.number, own.request, now, r.value))
  }

  // No request of the queue numbered from `start` on commits anything.
  ghost predicate CommitFree(queue: seq<Numbered>, start: nat) {
    forall i :: 0 <= i < |queue| && queue[i].number >= start ==> !queue[i].request.WriteCommit?
  }

  lemma AnswerCommits(s: Server, head: Numbered, next: Server, start: nat)
    requires Valid(s) && Answers(s, head, next)
    requires head.number < start || !head.request.WriteCommit?
    ensures Since(next.commits, start) == Since(s.commits, start)
  {
    hide Crc32, Since;
    var reply :| Allowed(s, head.number, head.request, next, reply);
    if next.commits != s.commits {
      var t := s.transfer;
      SinceOne(s.commits, Commit(head.number, t.path, t.accepted, t.overwrite), start);
    }
  }

  lemma {:induction false} RunCommits(s: Server, queue: seq<Numbered>, next: Server, start: nat)
    requires Valid(s) && Runs(s, queue, next) && CommitFree(queue, start)
    ensures Since(next.commits, start) == Since(s.commits, start)
    decreases queue
  {
    hide Since, Answers;
    if queue != [] {
      if Runs(s, queue[1..], next) {
        RunCommits(s, queue[1..], next, start);
      } else {
        var m: Server :| Valid(m) && Answers(s, queue[0], m) && Runs(m, queue[1..], next);
        AnswerCommits(s, queue[0], m, start);
        RunCommits(m, queue[1..], next, start);
      }
    }
  }

  ghost predicate NumberedBelow(queue: seq<Numbered>, n: nat) {
    forall i :: 0 <= i < |queue| ==> queue[i].number < n
  }

  // The server, and the requests on their way to it. Over an attentive link every request is answered,
  // by a server that serves all there is to serve.
  class Link {
    const attentive: bool
    var server: Server
    var issued: nat
    var late: seq<Numbered>

    ghost predicate Ready()
      reads this
    {
      && Valid(server)
      && NumberedBelow(late, issued)
      && Since(server.commits, issued) == []
      && (attentive ==> late == [])
    }

    constructor (attentive: bool)
      ensures Ready() && server == Server(Idle, [], []) && late == [] && this.attentive == attentive
    {
      this.attentive := attentive;
      server := Server(Idle, [], []);
      issued := 0;
      late := [];
    }

    // The server takes the oldest request still on its way.
    method Dispatch() returns (reply: Reply)
      requires Valid(server) && late != []
      modifies this`server, this`late
      ensures Valid(server) && late == old(late)[1..]
      ensures Allowed(old(server), old(late)[0].number, old(late)[0].request, server, reply)
      ensures attentive ==> Obliges(old(server), old(late)[0].number, old(late)[0].request, server, reply)
    {
      hide Crc32;
      var head := late[0];
      late := late[1..];
      var next: Server := *;
      reply := *;
      if attentive && !Obliges(server, head.number, head.request, next, reply) {
        var id: Word :| id != 0;
        var content: bytes := *;
        var (served, answer) := Served(server, head.number, head.request, id, content);
        next, reply := served, answer;
      } else if !Allowed(server, head.number, head.request, next, reply) {
        next, reply := server, Refused;
      }
      AllowedKeepsValid(server, head.number, head.request, next, reply);
      server := next;
    }

    /**
     `_request`: everything on its way may be dispatched or lost, in order, and some may stay on
     its way. A reply is that of this request's own dispatch, after which nothing is left behind.
     */
    method Send(request: Request) returns (r: Option<Reply>, ghost taken: nat, ghost before: Server)
      requires Ready()
      modifies this
      ensures Ready() && issued == old(issued) + 1
      ensures Exchanged(old(server), old(late), Numbered(old(issued), request), server, late, taken, before, r)
      ensures attentive ==> r.Some? && Obliges(old(server), old(issued), request, server, r.value)
    {
      hide Allowed, Since, Obliges;
      ghost var queue := late + [Numbered(issued, request)];
      ghost var start := server;
      late := late + [Numbered(issued, request)];
      r, taken, before := None, 0, server;
      assert queue[..0] == [];
      if attentive {
        var reply := Dispatch();
        assert Answers(start, queue[0], server) && queue[..1] == [] + [queue[0]];
        RunsLonger(start, [], start, queue[0], server);
        r, taken := Some(reply), 1;
        issued := issued + 1;
        StillReady(start, queue, taken, server, old(issued), issued);
        return;
      }
      var heard := false;
      while late != [] && !heard
        invariant Valid(server) && r == None && issued == old(issued)
        invariant taken <= |queue| && late == queue[taken..]
        invariant Runs(start, queue[..taken], server)
        decreases |late|, !heard
      {
        var fate: int := *;
        if fate == 0 {
          heard := true;
        } else {
          assert queue[..taken + 1] == queue[..taken] + [queue[taken]];
          before := server;
          if fate == 1 {
            RunsLonger(start, queue[..taken], server, queue[taken], server);
            late := late[1..];
          } else {
            var reply := Dispatch();
            assert Answers(before, queue[taken], server);
            RunsLonger(start, queue[..taken], before, queue[taken], server);
            var returned: bool := *;
            if late == [] && returned {
              r := Some(reply);
              heard := true;
              assert queue[..taken] == old(late);
              taken := taken + 1;
              break;
            }
          }
          taken := taken + 1;
        }
      }
      issued := issued + 1;
      StillReady(start, queue, taken, server, old(issued), issued);
    }
  }

  lemma StillReady(s: Server, queue: seq<Numbered>, taken: nat, next: Server, was: nat, issued: nat)
    requires Valid(s) && taken <= |queue| && Runs(s, queue[..taken], next)
    requires NumberedBelow(queue, was + 1) && issued == was + 1 && Since(s.commits, was) == []
    ensures Since(next.commits, issued) == [] && NumberedBelow(queue[taken..], issued)
  {
    hide Runs;
    SinceLater(s.commits, was);
    RunCommits(s, queue[..taken], next, issued);
  }

  lemma {:induction false} SinceLater(commits: seq<Commit>, n: nat)
    requires Since(commits, n) == []
    ensures Since(commits, n + 1) == []
  {
    if commits != [] {
      SinceLater(commits[..|commits| - 1], n);
    }
  }

  // --- Uploads ---

  // The requests numbered from `start` on committed this upload, once and nothing else.
  predicate CommittedOnce(commits: seq<Commit>, start: nat, path: bytes, data: bytes, overwrite: bool) {
    var mine := Since(commits, start);
    |mine| == 1 && mine[0] == Commit(mine[0].number, path, data, overwrite)
  }

  predicate NotCommitted(commits: seq<Commit>, start: nat) {
    Since(commits, start) == []
  }

  // A commit request that may have been dispatched or may still be on its way.
  lemma CommitSent(s: Server, queue: seq<Numbered>, next: Server, start: nat)
    requires Valid(s) && s.transfer.Writing? && NotCommitted(s.commits, start)
    requires queue != [] && queue[0].request.WriteCommit? && queue[0].number >= start
    requires CommitFree(queue[1..], start) && Runs(s, queue, next)
    ensures var t := s.transfer;
      NotCommitted(next.commits, start) || CommittedOnce(next.commits, start, t.path, t.accepted, t.overwrite)
  {
    hide Since, Crc32;
    if Runs(s, queue[1..], next) {
      RunCommits(s, queue[1..], next, start);
    } else {
      var m: Server :| Valid(m) && Answers(s, queue[0], m) && Runs(m, queue[1..], next);
      var reply :| Allowed(s, queue[0].number, queue[0].request, m, reply);
      var t := s.transfer;
      SinceOne(s.commits, Commit(queue[0].number, t.path, t.accepted, t.overwrite), start);
      RunCommits(m, queue[1..], next, start);
    }
  }

  lemma NothingLate(s: Server, next: Server)
    requires Valid(s) && Runs(s, [], next)
    ensures s == next
  {
  }

  // What a begin request leaves, whatever was on its way before it.
  lemma BeginSent(s: Server, queue: seq<Numbered>, next: Server, start: nat)
    requires Valid(s) && Since(s.commits, start) == [] && CommitFree(queue, start) && Runs(s, queue, next)
    ensures NotCommitted(next.commits, start)
  {
    hide Runs, CommitFree;
    RunCommits(s, queue, next, start);
  }

  ghost predicate Uploading(link: Link, id: Word, path: bytes, data: bytes, offset: nat, overwrite: bool, start: nat)
    reads link
  {
    && link.Ready() && link.late == [] && start <= link.issued && NotCommitted(link.server.commits, start)
    && offset <= |data|
    && link.server.transfer == Writing(id, path, data[..offset], |data|, Crc32(0, data), overwrite)
  }

  // Requests that commit nothing, then an abort: the commits stay what they are.
  method AbortTransfer(link: Link, id: Word, ghost start: nat)
    requires link.Ready() && CommitFree(link.late, start) && start <= link.issued
    modifies link
    ensures link.Ready()
    ensures Since(link.server.commits, start) == old(Since(link.server.commits, start))
  {
    hide Runs, Allowed, Since;
    ghost var queue := link.late + [Numbered(link.issued, Abort(id))];
    ghost var server := link.server;
    var r, taken, before := link.Send(Abort(id));
    RunCommits(server, queue[..taken], link.server, start);
  }

  method UploadBegin(link: Link, path: bytes, data: bytes, overwrite: bool, crc: bv32)
      returns (r: Option<Word>)
    requires link.Ready() && |data| <= MAX_FILE_SIZE && crc == Crc32(0, data)
    modifies link
    ensures r.Some? ==> Uploading(link, r.value, path, data, 0, overwrite, old(link.issued))
    ensures r.None? ==> link.Ready() && NotCommitted(link.server.commits, old(link.issued))
    ensures link.attentive && old(link.server.transfer) == Idle ==> r.Some?
  {
    hide Runs, Since, Crc32;
    ghost var start, late, server := link.issued, link.late, link.server;
    ghost var queue := late + [Numbered(start, WriteBegin(path, |data|, crc, overwrite))];
    var reply, taken, before := link.Send(WriteBegin(path, |data|, crc, overwrite));
    BeginSent(server, queue[..taken], link.server, start);
    if reply.Some? && reply.value.Begun? && reply.value.id != 0 {
      assert data[..0] == [];
      return Some(reply.value.id);
    }
    return None;
  }

  // One block: acknowledged with the rolling check of everything accepted, or the upload has failed.
  method UploadBlock(link: Link, id: Word, path: bytes, data: bytes, offset: nat, overwrite: bool,
                     rolling: bv32, ghost start: nat) returns (ok: bool, next: bv32)
    requires Uploading(link, id, path, data, offset, overwrite, start) && offset < |data| <= MAX_FILE_SIZE
    requires rolling == Crc32(0, data[..offset])
    modifies link
    ensures ok ==> Uploading(link, id, path, data, Min(offset + TRANSFER_BLOCK_SIZE, |data|), overwrite, start)
    ensures ok ==> next == Crc32(0, data[..Min(offset + TRANSFER_BLOCK_SIZE, |data|)])
    ensures !ok ==> link.Ready() && start <= link.issued && CommitFree(link.late, start)
    ensures !ok ==> NotCommitted(link.server.commits, start)
    ensures link.attentive ==> ok
  {
    hide Crc32, Since;
    var end := Min(offset + TRANSFER_BLOCK_SIZE, |data|);
    var block := data[offset..end];
    assert data[..end] == data[..offset] + block;
    Crc32Append(0, data[..offset], block);
    ghost var server, queue := link.server, [Numbered(link.issued, WriteBlock(id, offset, block))];
    assert link.late + queue == queue;
    var reply, taken, before := link.Send(WriteBlock(id, offset, block));
    next := Crc32(rolling, block);
    RunCommits(server, queue[..taken], link.server, start);
    match reply
    case Some(Block(replyId, replyOffset, replyData, crc)) =>
      NothingLate(server, before);
      ok := !(replyId != id || replyOffset != offset || replyData != [] || crc != next);
    case _ =>
      ok := false;
  }

  /** `upload_file` */
  method UploadFile(link: Link, allowed: bool, path: bytes, data: bytes, overwrite: bool)
      returns (r: Result<bv32, ClientError>)
    requires link.Ready()
    modifies link
    ensures link.Ready()
    ensures r.Ok? ==> r.value == Crc32(0, data)
    ensures r.Ok? ==> CommittedOnce(link.server.commits, old(link.issued), path, data, overwrite)
    ensures r.Err? ==>
      || NotCommitted(link.server.commits, old(link.issued))
      || CommittedOnce(link.server.commits, old(link.issued), path, data, overwrite)
    ensures !allowed ==> r == Err(PolicyDenied) && link.issued == old(link.issued)
    ensures allowed && |data| > MAX_FILE_SIZE ==> r == Err(TooLarge) && link.issued == old(link.issued)
    ensures allowed && |data| <= MAX_FILE_SIZE && link.attentive && old(link.server.transfer) == Idle ==>
      r == Ok(Crc32(0, data)) && link.server.transfer == Idle
  {
    hide Crc32, Since, Runs;
    if !allowed {
      return Err(PolicyDenied);
    }
    if |data| > MAX_FILE_SIZE {
      return Err(TooLarge);
    }
    ghost var start := link.issued;
    var expected := Crc32(0, data);
    var begun := UploadBegin(link, path, data, overwrite, expected);
    if begun.None? {
      return Err(Failed);
    }
    var id := begun.value;
    var rolling: bv32 := 0;
    var offset := 0;
    assert data[..0] == [];
    Crc32Empty(0);
    while offset < |data|
      invariant Uploading(link, id, path, data, Min(offset, |data|), overwrite, start)
      invariant rolling == Crc32(0, data[..Min(offset, |data|)])
    {
      var ok, next := UploadBlock(link, id, path, data, offset, overwrite, rolling, start);
      if !ok {
        AbortTransfer(link, id, start);
        return Err(Failed);
      }
      rolling := next;
      offset := offset + TRANSFER_BLOCK_SIZE;
    }
    assert data[..|data|] == data;
    r := UploadCommit(link, id, path, data, overwrite, start);
  }

  method UploadCommit(link: Link, id: Word, path: bytes, data: bytes, overwrite: bool, ghost start: nat)
      returns (r: Result<bv32, ClientError>)
    requires Uploading(link, id, path, data, |data|, overwrite, start)
    modifies link
    ensures link.Ready()
    ensures r.Ok? ==> r.value == Crc32(0, data)
    ensures r.Ok? ==> CommittedOnce(link.server.commits, start, path, data, overwrite)
    ensures r.Err? ==>
      || NotCommitted(link.server.commits, start)
      || CommittedOnce(link.server.commits, start, path, data, overwrite)
    ensures link.attentive ==> r.Ok? && link.server.transfer == Idle
  {
    hide Crc32, Since;
    assert data[..|data|] == data;
    ghost var server, commit := link.server, Numbered(link.issued, WriteCommit(id));
    assert link.late + [commit] == [commit];
    var reply, taken, before := link.Send(WriteCommit(id));
    if reply.Some? && reply.value.Ended? {
      NothingLate(server, before);
      SinceOne(server.commits, Commit(commit.number, path, data, overwrite), start);
      if reply.value.size != |data| || reply.value.crc != Crc32(0, data) {
        return Err(Failed);
      }
      return Ok(reply.value.crc);
    }
    CommitUnanswered(link, id, path, data, overwrite, start, server, commit, taken);
    return Err(Failed);
  }

  // The abort after a commit that may have been dispatched or may still be on its way.
  method CommitUnanswered(link: Link, id: Word, ghost path: bytes, ghost data: bytes, ghost overwrite: bool, ghost start: nat,
                          ghost server: Server, ghost commit: Numbered, ghost taken: nat)
    requires link.Ready() && taken <= 1 && link.late == [commit][taken..] && start <= link.issued
    requires Valid(server) && server.transfer.Writing? && NotCommitted(server.commits, start)
    requires server.transfer.path == path && server.transfer.accepted == data && server.transfer.overwrite == overwrite
    requires commit.request.WriteCommit? && commit.number >= start
    requires Runs(server, [commit][..taken], link.server)
    modifies link
    ensures link.Ready()
    ensures NotCommitted(link.server.commits, start)
      || CommittedOnce(link.server.commits, start, path, data, overwrite)
  {
    hide Crc32, Since, Allowed, NotCommitted, CommittedOnce, Runs;
    ghost var between, abort := link.server, Numbered(link.issued, Abort(id));
    var _, taken', _ := link.Send(Abort(id));
    AbortSettles(server, between, link.server, commit, abort, taken, taken', start, path, data, overwrite);
  }

  // A commit and the abort after it, of which the first `taken` and then `taken'` messages arrived.
  lemma AbortSettles(server: Server, between: Server, after: Server, commit: Numbered, abort: Numbered, taken: nat,
                     taken': nat, start: nat, path: bytes, data: bytes, overwrite: bool)
    requires Valid(server) && server.transfer.Writing? && NotCommitted(server.commits, start)
    requires server.transfer.path == path && server.transfer.accepted == data && server.transfer.overwrite == overwrite
    requires commit.request.WriteCommit? && commit.number >= start && abort.request.Abort?
    requires taken <= 1 && taken' <= 2 - taken
    requires Valid(between) && Runs(server, [commit][..taken], between)
    requires Runs(between, ([commit][taken..] + [abort])[..taken'], after)
    ensures NotCommitted(after.commits, start) || CommittedOnce(after.commits, start, path, data, overwrite)
  {
    hide Crc32, Since, Allowed, NotCommitted, CommittedOnce, Runs;
    if taken == 0 {
      assert [commit][..0] == [] && [commit][0..] + [abort] == [commit, abort];
      NothingLate(server, between);
      if taken' == 0 {
        assert [commit, abort][..0] == [];
        NothingLate(between, after);
      } else {
        assert forall i :: 0 <= i < taken' - 1 ==> [commit, abort][..taken'][1..][i] == abort;
        CommitSent(server, [commit, abort][..taken'], after, start);
      }
    } else {
      assert [commit][..1] == [commit] && [commit][1..] + [abort] == [abort];
      CommitSent(server, [commit], between, start);
      AbortAfterwards(between, [abort][..taken'], after, start, path, data, overwrite);
    }
  }

  lemma AbortAfterwards(s: Server, queue: seq<Numbered>, next: Server, start: nat, path: bytes, data: bytes, overwrite: bool)
    requires Valid(s) && CommitFree(queue, start) && Runs(s, queue, next)
    requires NotCommitted(s.commits, start) || CommittedOnce(s.commits, start, path, data, overwrite)
    ensures NotCommitted(next.commits, start) || CommittedOnce(next.commits, start, path, data, overwrite)
  {
    hide Runs, Since, CommitFree;
    RunCommits(s, queue, next, start);
  }

  // --- Downloads ---

  ghost predicate Downloading(link: Link, id: Word, source: Source, snapshot: bytes, offset: nat, start: nat)
    reads link
  {
    && link.Ready() && link.late == []
    && offset <= |snapshot|
    && link.server.transfer == Reading(id, source, snapshot, offset)
    && Opening(start, source, snapshot) in link.server.openings
  }

  // The request numbered `start` opened exactly this content of this source.
  predicate OpenedAs(openings: seq<Opening>, start: nat, source: Source, data: bytes) {
    Opening(start, source, data) in openings
  }

  // What a block of a download shows, when there is one: the next bytes, and the check up to their end.
  lemma BlockShown(server: Server, number: nat, request: Request, next: Server, reply: Reply, output: bytes)
    requires Valid(server) && request.ReadBlock? && Allowed(server, number, request, next, reply)
    requires server.transfer.Reading? && request.offset == server.transfer.offset
    requires output == server.transfer.snapshot[..server.transfer.offset]
    ensures reply != Refused ==>
      && reply.Block? && reply.id == request.id && reply.offset == request.offset && |reply.data| <= request.length
      && |output + reply.data| <= |server.transfer.snapshot|
      && output + reply.data == server.transfer.snapshot[..|output + reply.data|]
      && next == server.(transfer := server.transfer.(offset := |output + reply.data|))
      && reply.crc == Crc32(0, output + reply.data)
  {
    hide Crc32;
  }

  /** `_download_blocks`: as many blocks as it takes, however short the server makes them. */
  method DownloadBlocks(link: Link, graphics: bool, id: Word, total: nat,
                        ghost source: Source, ghost snapshot: bytes, ghost start: nat)
      returns (r: Option<bytes>, rolling: bv32)
    requires Downloading(link, id, source, snapshot, 0, start) && graphics == source.Graphics?
    requires total == |snapshot| < 0x1_0000_0000
    modifies link
    ensures link.Ready()
    ensures r.Some? ==> r.value == snapshot && Downloading(link, id, source, snapshot, total, start)
    ensures r.Some? ==> rolling == Crc32(0, snapshot)
    ensures link.attentive ==> r.Some?
  {
    hide Crc32, Runs, Since;
    var output: bytes := [];
    rolling := 0;
    Crc32Empty(0);
    while |output| < total
      invariant |output| <= total && output == snapshot[..|output|]
      invariant rolling == Crc32(0, output)
      invariant Downloading(link, id, source, snapshot, |output|, start)
      decreases total - |output|
    {
      var length := Min(TRANSFER_BLOCK_SIZE, total - |output|);
      ghost var server := link.server;
      var reply, taken, before := link.Send(ReadBlock(graphics, id, |output|, length));
      match reply
      case Some(Block(replyId, offset, data, crc)) =>
        NothingLate(server, before);
        BlockShown(server, link.issued - 1, ReadBlock(graphics, id, |output|, length), link.server, reply.value, output);
        if replyId != id || offset != |output| || data == [] || |data| > length {
          return None, rolling;
        }
        Crc32Append(0, output, data);
        output := output + data;
        rolling := Crc32(rolling, data);
        if crc != rolling {
          return None, rolling;
        }
      case _ =>
        return None, rolling;
    }
    assert snapshot[..|snapshot|] == snapshot;
    r := Some(output);
  }

  // The begin, block and end requests `download_file` and `capture_graphics` share.
  method Download(link: Link, source: Source, limit: nat) returns (r: Result<bytes, ClientError>)
    requires link.Ready() && limit < 0x1_0000_0000
    modifies link
    ensures link.Ready()
    ensures r.Ok? ==> OpenedAs(link.server.openings, old(link.issued), source, r.value)
    ensures link.attentive && old(link.server.transfer) == Idle ==>
      && link.server.transfer == Idle
      && exists data :: OpenedAs(link.server.openings, old(link.issued), source, data)
                        && r == if |data| <= limit then Ok(data) else Err(TooLarge)
  {
    hide Crc32, Runs, Since;
    ghost var start := link.issued;
    var begun, taken, before := link.Send(ReadBegin(source));
    if begun.None? || !begun.value.Begun? {
      return Err(Failed);
    }
    var id := begun.value.id;
    if begun.value.size > limit {
      assert OpenedAs(link.server.openings, start, source, link.server.transfer.snapshot);
      var _, _, _ := link.Send(Abort(id));
      return Err(TooLarge);
    }
    ghost var snapshot := link.server.transfer.snapshot;
    var data, crc := DownloadBlocks(link, source.Graphics?, id, begun.value.size, source, snapshot, start);
    if data.None? {
      var _, _, _ := link.Send(Abort(id));
      return Err(Failed);
    }
    ghost var server := link.server;
    var end, taken', before' := link.Send(ReadEnd(source.Graphics?, id));
    if end.None? || !end.value.Ended? {
      var _, _, _ := link.Send(Abort(id));
      return Err(Failed);
    }
    NothingLate(server, before');
    if end.value.size != |data.value| || end.value.crc != crc {
      return Err(Failed);
    }
    r := Ok(data.value);
  }

  /** `download_file`: what is returned is the file as it was when the transfer began. */
  method DownloadFile(link: Link, allowed: bool, path: bytes) returns (r: Result<bytes, ClientError>)
    requires link.Ready()
    modifies link
    ensures link.Ready()
    ensures r.Ok? ==> OpenedAs(link.server.openings, old(link.issued), File(path), r.value)
    ensures !allowed ==> r == Err(PolicyDenied) && link.issued == old(link.issued)
    ensures allowed && link.attentive && old(link.server.transfer) == Idle ==>
      && link.server.transfer == Idle
      && exists data :: OpenedAs(link.server.openings, old(link.issued), File(path), data)
                        && r == if |data| <= MAX_FILE_SIZE then Ok(data) else Err(TooLarge)
  {
    if !allowed {
      return Err(PolicyDenied);
    }
    r := Download(link, File(path), MAX_FILE_SIZE);
  }
}
