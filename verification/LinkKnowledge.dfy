/**
 What a bridge can tell by itself before it issues a request: from the requests it issued and the
 answers it got it follows that the target holds nothing it could take for the new one.
 */
module LinkKnowledge {
  import opened Bytes
  import opened Wrappers
  import opened Packets
  import opened RequestIds
  import opened Sessions
  import opened Link
  import opened LinkSafety

  // --- What a patient bridge knows by itself ---

  // The oldest request whose reply the simulator can still have cached.
  function CacheHorizon(answers: seq<nat>): nat {
    if |answers| < CACHE_LIMIT then 1 else answers[|answers| - CACHE_LIMIT]
  }

  // No reply the simulator may still hold is of this operation under the new identifier.
  ghost predicate CacheClear(s: System, request: Request) {
    forall m :: CacheHorizon(s.answers) <= m <= |s.history| && 1 <= m && WireId(s.wire.base, m) == NextId(s.requestId) ==>
      s.history[m - 1].opcode != request.opcode
  }

  // No earlier use of the new identifier can have left part of such a request behind.
  ghost predicate PendingClear(s: System, request: Request) {
    forall m :: 1 <= m <= |s.history| && WireId(s.wire.base, m) == NextId(s.requestId)
      && s.history[m - 1].opcode == request.opcode
      && Pieces(s.history[m - 1]) == Pieces(request) > 1
      ==> m in s.answers || s.history[m - 1] == request
  }

  function Pieces(request: Request): nat {
    FragmentCount(MAX_FRAGMENT_PAYLOAD, |request.payload|)
  }

  // Four answers in a row are four log entries, so the fourth-newest entry is no older.
  lemma HorizonBoundsCache(log: seq<Dispatch>, answers: seq<nat>)
    requires Increasing(log) && Ascending(answers)
    requires forall i :: 0 <= i < |answers| ==> InLog(log, answers[i])
    requires forall i :: 0 <= i < |log| ==> log[i].n >= 1
    ensures forall i :: 0 <= i < |log| && i >= |log| - CACHE_LIMIT ==> log[i].n >= CacheHorizon(answers)
  {
    if |answers| >= CACHE_LIMIT {
      var m := |answers|;
      var p0 :| 0 <= p0 < |log| && log[p0].n == answers[m - 4];
      var p1 :| 0 <= p1 < |log| && log[p1].n == answers[m - 3];
      var p2 :| 0 <= p2 < |log| && log[p2].n == answers[m - 2];
      var p3 :| 0 <= p3 < |log| && log[p3].n == answers[m - 1];
      assert p0 < p1 < p2 < p3;
    }
  }

  // Everything cached is a reply on record, none older than the horizon.
  lemma CachedOnRecord(w: Wire, history: seq<Request>, log: seq<Dispatch>, answers: seq<nat>, results: seq<Returned>,
                       cache: seq<Cached>, i: nat) returns (m: nat)
    requires Increasing(log) && AnswersInv(answers, results, log)
    requires forall k :: 0 <= k < |log| ==> Genuine(w, history, log[k])
    requires cache == Newest(CacheOf(w.base, log), CACHE_LIMIT) && i < |cache|
    ensures CacheHorizon(answers) <= m <= |history| && 1 <= m
    ensures cache[i].id == WireId(w.base, m) && cache[i].reply.opcode == history[m - 1].opcode
  {
    var at := NewestAt(CacheOf(w.base, log), CACHE_LIMIT, i);
    m := log[at].n;
    hide Newest, CacheOf, CacheHorizon, InLog, Replied, WireId, Ascending;
    assert Genuine(w, history, log[at]);
    HorizonBoundsCache(log, answers);
  }

  lemma NewestAt(c: seq<Cached>, n: nat, i: nat) returns (at: nat)
    requires i < |Newest(c, n)|
    ensures |c| - n <= at < |c| && Newest(c, n)[i] == c[at]
  {
    at := |c| - |Newest(c, n)| + i;
  }

  lemma CacheTold(s: System, x: Simulator, request: Request)
    requires Inv(s) && s.endpoint == AtSimulator(x) && CacheClear(s, request)
    ensures !HoldsReply(x.cache, NextId(s.requestId), request.opcode)
  {
    hide SimulatorInv, PendingInv, RequestChannelInv, ReplyChannelInv, ReceivedInv, WireId, AnswersInv, Genuine, Increasing;
    hide CacheHorizon, NextId;
    CacheIsNewest(s.wire, s.history, s.log, s.served, s.toServer, x);
    forall i | 0 <= i < |x.cache| && x.cache[i].id == NextId(s.requestId)
      ensures x.cache[i].reply.opcode != request.opcode
    {
      var m := CachedOnRecord(s.wire, s.history, s.log, s.answers, s.results, x.cache, i);
    }
  }

  lemma CacheIsNewest(w: Wire, history: seq<Request>, log: seq<Dispatch>, served: nat, c: seq<Tagged>, x: Simulator)
    requires SimulatorInv(w, history, log, served, c, x)
    ensures x.cache == Newest(CacheOf(w.base, log), CACHE_LIMIT) && DistinctCache(x.cache)
    ensures PendingInv(w, history, log, x.pending) && x.sessionId == w.sessionId && x.last == LastId(w, log)
  {
  }

  // What the simulator holds under an identifier is of requests that were not dispatched.
  lemma HeldIsSourced(w: Wire, history: seq<Request>, log: seq<Dispatch>, pending: seq<Pending>, id: Word)
    requires PendingInv(w, history, log, pending)
    ensures var held := FragmentsFor(pending, id);
      && DistinctIndices(held)
      && forall f :: f in held ==> f.requestId == id && f.Valid() && Sourced(w, history, log, f)
  {
    var i := Position(pending, id);
    if i < |pending| {
      assert EntryInv(w, history, log, pending[i]);
      EntryIsValid(w, history, log, pending[i]);
    }
  }

  lemma PendingTold(s: System, x: Simulator, request: Request)
    requires Inv(s) && s.endpoint == AtSimulator(x) && PendingClear(s, request) && Fits(request)
    ensures !Mixes(FragmentsFor(x.pending, NextId(s.requestId)), FragmentsOf(s.wire, NextId(s.requestId), request))
  {
    hide SimulatorInv, RequestChannelInv, ReplyChannelInv, ReceivedInv;
    var id := NextId(s.requestId);
    var whole, held := FragmentsOf(s.wire, id, request), FragmentsFor(x.pending, id);
    CacheIsNewest(s.wire, s.history, s.log, s.served, s.toServer, x);
    HeldIsSourced(s.wire, s.history, s.log, x.pending, id);
    forall f | f in held && |whole| > 1
      ensures !Foreign(f, whole)
    {
      FragmentIsOwn(s, request, f);
    }
  }

  lemma FragmentIsOwn(s: System, request: Request, f: Packet)
    requires PendingClear(s, request) && Fits(request) && AnswersInv(s.answers, s.results, s.log)
    requires f.requestId == NextId(s.requestId) && Sourced(s.wire, s.history, s.log, f)
    requires Pieces(request) > 1
    ensures !Foreign(f, FragmentsOf(s.wire, NextId(s.requestId), request))
  {
    hide AnswersInv;
    var whole := FragmentsOf(s.wire, NextId(s.requestId), request);
    var m: nat :| FromRequest(s.wire, s.history, s.log, f, m);
    RequestPacketFacts(s.wire, s.history, Tagged(m, f));
    AnswersLogged(s.answers, s.results, s.log, m);
    if f.SameMessage(whole[0]) {
      assert s.history[m - 1] == request;
    }
  }

  lemma AnswersLogged(answers: seq<nat>, results: seq<Returned>, log: seq<Dispatch>, m: nat)
    requires AnswersInv(answers, results, log) && !InLog(log, m)
    ensures m !in answers
  {
  }

  /** What the bridge knows by itself is enough: the requests it issued, and which of them were answered. */
  lemma BridgeCanTell(s: System, request: Request)
    requires Inv(s) && s.endpoint.AtSimulator? && Patient(s) && CacheClear(s, request) && PendingClear(s, request)
    ensures MayIssue(s, request)
  {
    hide Inv, CacheClear, PendingClear, Mixes, HoldsReply;
    if Fits(request) {
      CacheTold(s, s.endpoint.simulator, request);
      PendingTold(s, s.endpoint.simulator, request);
    }
  }

  /** Once a packet of the session has been served, patience is enough at the agent. */
  lemma AgentNeedsOnlyPatience(s: System, request: Request)
    requires Inv(s) && s.endpoint.AtAgent? && s.holding > 0 && Patient(s)
    ensures MayIssue(s, request)
  {
    hide RequestChannelInv, ReplyChannelInv, ReceivedInv;
    AnswersBelow(s);
    NearIdsDiffer(s.wire.base, s.holding, |s.history| + 1);
  }
}
