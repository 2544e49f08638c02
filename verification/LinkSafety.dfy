/**
 Over every legal run of the bridge and a target, requests are dispatched at most once and
 in order, each with the bytes the bridge was given, and every payload handed back to a
 caller is the reply of that caller's own dispatch.
 */
module LinkSafety {
  import opened Bytes
  import opened Wrappers
  import opened Packets
  import opened RequestIds
  import opened Sessions
  import opened Link

  ghost predicate BridgeInv(s: System) {
    && s.requestId == WireId(s.wire.base, |s.history|)
    && (forall r :: r in s.history ==> r.opcode != HELLO)
    && (s.active ==> s.history != [] && Fits(s.history[|s.history| - 1]) && LastAnswer(s.answers) < |s.history|)
    && |s.history| - LastAnswer(s.answers) <= 0x7FFE
  }

  // A log entry carries the very request the bridge issued under its number.
  ghost predicate Genuine(w: Wire, history: seq<Request>, d: Dispatch) {
    && 1 <= d.n <= |history| && Fits(history[d.n - 1])
    && d.opcode == history[d.n - 1].opcode && d.payload == history[d.n - 1].payload
    && d.reply.kind != REQUEST && d.reply.opcode == d.opcode
    && w.replySize > 0 && FragmentCount(w.replySize, |d.reply.payload|) <= w.replyLimit
  }

  ghost predicate Increasing(log: seq<Dispatch>) {
    forall i, j :: 0 <= i < j < |log| ==> log[i].n < log[j].n
  }

  ghost predicate LogInv(s: System) {
    && s.refusals == []
    && s.served <= |s.history|
    && Increasing(s.log)
    && (forall i :: 0 <= i < |s.log| ==> s.log[i].n <= s.served && Genuine(s.wire, s.history, s.log[i]))
  }

  ghost predicate InLog(log: seq<Dispatch>, n: nat) {
    exists i :: 0 <= i < |log| && log[i].n == n
  }

  ghost predicate Replied(log: seq<Dispatch>, n: nat, payload: bytes) {
    exists i :: 0 <= i < |log| && log[i].n == n && log[i].reply.kind == RESPONSE && log[i].reply.payload == payload
  }

  ghost predicate Ascending(a: seq<nat>) {
    forall i, j :: 0 <= i < j < |a| ==> a[i] < a[j]
  }

  ghost predicate AnswersInv(answers: seq<nat>, results: seq<Returned>, log: seq<Dispatch>) {
    && Ascending(answers)
    && (forall i :: 0 <= i < |answers| ==> InLog(log, answers[i]))
    && (forall i, j :: 0 <= i < j < |results| ==> results[i].n < results[j].n)
    && (forall i :: 0 <= i < |results| ==>
          Replied(log, results[i].n, results[i].payload) && results[i].n <= LastAnswer(answers))
  }

  ghost predicate Sorted(c: seq<Tagged>) {
    forall i, j :: 0 <= i < j < |c| ==> c[i].n <= c[j].n
  }

  ghost predicate RequestInFlight(w: Wire, history: seq<Request>, t: Tagged) {
    1 <= t.n <= |history| && Fits(history[t.n - 1]) && t.packet in RequestPackets(w, history, t.n)
  }

  ghost predicate RequestChannelInv(w: Wire, history: seq<Request>, served: nat, c: seq<Tagged>) {
    && Sorted(c)
    && forall i :: 0 <= i < |c| ==> served <= c[i].n && RequestInFlight(w, history, c[i])
  }

  // A reply packet of the dispatch with its number.
  ghost predicate Carries(w: Wire, log: seq<Dispatch>, t: Tagged) {
    w.replySize > 0
    && exists i :: 0 <= i < |log| && log[i].n == t.n && t.packet in ReplyPackets(w, t.n, log[i].reply)
  }

  // A reply of another operation under the same identifier, to which the bridge does not listen.
  ghost predicate Deaf(w: Wire, history: seq<Request>, t: Tagged) {
    1 <= t.n <= |history| && t.packet.requestId == WireId(w.base, t.n) && t.packet.opcode != history[t.n - 1].opcode
  }

  ghost predicate ReplyInFlight(w: Wire, history: seq<Request>, log: seq<Dispatch>, t: Tagged) {
    Carries(w, log, t) || Deaf(w, history, t)
  }

  ghost predicate ReplyChannelInv(w: Wire, history: seq<Request>, log: seq<Dispatch>, oldest: nat, served: nat, c: seq<Tagged>) {
    && Sorted(c)
    && forall i :: 0 <= i < |c| ==> oldest <= c[i].n <= served && ReplyInFlight(w, history, log, c[i])
  }

  ghost predicate Collected(w: Wire, n: nat, log: seq<Dispatch>, received: seq<Packet>, i: int) {
    0 <= i < |log| && log[i].n == n && log[i].reply.kind == RESPONSE
    && w.replySize > 0 && PartOf(received, ReplyPackets(w, n, log[i].reply))
  }

  ghost predicate ReceivedInv(w: Wire, n: nat, log: seq<Dispatch>, received: seq<Packet>) {
    received != [] ==> exists i :: Collected(w, n, log, received, i)
  }

  function LastTag(log: seq<Dispatch>): nat {
    if log == [] then 0 else log[|log| - 1].n
  }

  function LastId(w: Wire, log: seq<Dispatch>): Option<Word> {
    if log == [] then None else Some(WireId(w.base, LastTag(log)))
  }

  // A request not yet dispatched, of which packets may still arrive.
  ghost predicate Waits(history: seq<Request>, log: seq<Dispatch>, served: nat, k: nat) {
    LastTag(log) < k <= |history| && served <= k && Fits(history[k - 1])
  }

  ghost predicate AgentInv(w: Wire, history: seq<Request>, log: seq<Dispatch>, served: nat, holding: nat, a: Agent) {
    && a.sessionId == w.sessionId
    && a.last == LastId(w, log)
    && LastTag(log) <= holding <= served
    && (log != [] && holding == LastTag(log) ==> a.reply == log[|log| - 1].reply)
    && (holding > 0 ==> a.held.id == WireId(w.base, holding))
    && forall k: nat :: Waits(history, log, served, k) ==> !HeldMixes(a.held, RequestPackets(w, history, k))
  }

  function CacheOf(base: Word, log: seq<Dispatch>): (r: seq<Cached>)
    ensures |r| == |log|
    ensures forall i :: 0 <= i < |r| ==> r[i] == Cached(WireId(base, log[i].n), log[i].reply)
  {
    seq(|log|, i requires 0 <= i < |log| => Cached(WireId(base, log[i].n), log[i].reply))
  }

  // A fragment of a request that was not dispatched.
  ghost predicate FromRequest(w: Wire, history: seq<Request>, log: seq<Dispatch>, f: Packet, m: nat) {
    && 1 <= m <= |history| && Fits(history[m - 1]) && !InLog(log, m)
    && f in RequestPackets(w, history, m)
  }

  ghost predicate Sourced(w: Wire, history: seq<Request>, log: seq<Dispatch>, f: Packet) {
    exists m :: FromRequest(w, history, log, f, m)
  }

  ghost predicate EntryInv(w: Wire, history: seq<Request>, log: seq<Dispatch>, e: Pending) {
    && DistinctIndices(e.fragments)
    && forall f :: f in e.fragments ==> f.requestId == e.id && Sourced(w, history, log, f)
  }

  ghost predicate PendingInv(w: Wire, history: seq<Request>, log: seq<Dispatch>, pending: seq<Pending>) {
    && DistinctPending(pending)
    && forall i :: 0 <= i < |pending| ==> EntryInv(w, history, log, pending[i])
  }

  predicate DistinctPending(pending: seq<Pending>) {
    forall i, j :: 0 <= i < j < |pending| ==> pending[i].id != pending[j].id
  }

  ghost predicate DistinctCache(cache: seq<Cached>) {
    forall i, j :: 0 <= i < j < |cache| ==> cache[i].id != cache[j].id
  }

  ghost predicate NoneBefore(c: seq<Tagged>, k: nat) {
    forall i :: 0 <= i < |c| ==> k <= c[i].n
  }

  // Nothing the simulator holds can be taken for this request or its reply.
  ghost predicate ClearAt(w: Wire, history: seq<Request>, c: seq<Tagged>, x: Simulator, k: nat)
    requires 1 <= k <= |history|
  {
    var id := WireId(w.base, k);
    && !HoldsReply(x.cache, id, history[k - 1].opcode)
    && (Mixes(FragmentsFor(x.pending, id), RequestPackets(w, history, k)) ==> InCache(x.cache, id) && NoneBefore(c, k))
  }

  ghost predicate SimulatorInv(w: Wire, history: seq<Request>, log: seq<Dispatch>, served: nat, c: seq<Tagged>, x: Simulator) {
    && x.sessionId == w.sessionId
    && x.last == LastId(w, log)
    && x.cache == Newest(CacheOf(w.base, log), CACHE_LIMIT) && DistinctCache(x.cache)
    && PendingInv(w, history, log, x.pending)
    && forall k: nat :: Waits(history, log, served, k) ==> ClearAt(w, history, c, x, k)
  }

  ghost predicate EndpointInv(s: System) {
    match s.endpoint
    case AtSimulator(x) => SimulatorInv(s.wire, s.history, s.log, s.served, s.toServer, x)
    case AtAgent(a) => AgentInv(s.wire, s.history, s.log, s.served, s.holding, a)
  }

  // The invariant, but for what the target remembers.
  ghost predicate OutsideInv(s: System) {
    && s.wire.Valid()
    && BridgeInv(s)
    && LogInv(s)
    && AnswersInv(s.answers, s.results, s.log)
    && RequestChannelInv(s.wire, s.history, s.served, s.toServer)
    && ReplyChannelInv(s.wire, s.history, s.log, LastAnswer(s.answers), s.served, s.toClient)
    && (s.active ==> ReceivedInv(s.wire, |s.history|, s.log, s.received))
  }

  ghost predicate Inv(s: System) {
    OutsideInv(s) && EndpointInv(s)
  }

  lemma InitialInv(s: System)
    requires Initial(s)
    ensures Inv(s)
  {
    assert WireId(s.wire.base, 0) == s.wire.base;
  }

  // --- The channel and the bridge's own steps ---

  lemma RemoveElements(c: seq<Tagged>, k: nat)
    requires k < |c|
    ensures |Remove(c, k)| == |c| - 1
    ensures forall i :: 0 <= i < k ==> Remove(c, k)[i] == c[i]
    ensures forall i :: k <= i < |c| - 1 ==> Remove(c, k)[i] == c[i + 1]
  {
  }

  lemma RepeatElements(c: seq<Tagged>, k: nat)
    requires k < |c|
    ensures |Repeat(c, k)| == |c| + 1
    ensures forall i :: 0 <= i <= k ==> Repeat(c, k)[i] == c[i]
    ensures forall i :: k < i < |c| + 1 ==> Repeat(c, k)[i] == c[i - 1]
  {
  }

  // A channel whose elements are elements of another, in the same order.
  ghost predicate DrawnFrom(c': seq<Tagged>, c: seq<Tagged>) {
    (Sorted(c) ==> Sorted(c')) && forall i :: 0 <= i < |c'| ==> c'[i] in c
  }

  lemma RemoveDraws(c: seq<Tagged>, k: nat)
    requires k < |c|
    ensures DrawnFrom(Remove(c, k), c)
  {
    RemoveElements(c, k);
  }

  lemma RepeatDraws(c: seq<Tagged>, k: nat)
    requires k < |c|
    ensures DrawnFrom(Repeat(c, k), c)
  {
    RepeatElements(c, k);
  }

  lemma DrawnRequests(w: Wire, history: seq<Request>, served: nat, c: seq<Tagged>, c': seq<Tagged>)
    requires RequestChannelInv(w, history, served, c) && DrawnFrom(c', c)
    ensures RequestChannelInv(w, history, served, c')
  {
  }

  lemma DrawnReplies(w: Wire, history: seq<Request>, log: seq<Dispatch>, oldest: nat, served: nat, c: seq<Tagged>, c': seq<Tagged>)
    requires ReplyChannelInv(w, history, log, oldest, served, c) && DrawnFrom(c', c)
    ensures ReplyChannelInv(w, history, log, oldest, served, c')
  {
  }

  // The target's record does not depend on more of the channel than what may come first.
  lemma ChannelKeepsEndpoint(s: System, s': System)
    requires EndpointInv(s) && s'.endpoint == s.endpoint && s'.wire == s.wire && s'.history == s.history && s'.log == s.log
    requires s'.served == s.served && s'.holding == s.holding
    requires forall k: nat :: k <= |s.history| && NoneBefore(s.toServer, k) ==> NoneBefore(s'.toServer, k)
    ensures EndpointInv(s')
  {
    if s.endpoint.AtSimulator? {
      forall k: nat | Waits(s.history, s.log, s.served, k)
        ensures ClearAt(s.wire, s.history, s'.toServer, s.endpoint.simulator, k)
      {
        assert ClearAt(s.wire, s.history, s.toServer, s.endpoint.simulator, k);
      }
    }
  }

  lemma DrawnAfter(c: seq<Tagged>, c': seq<Tagged>)
    requires DrawnFrom(c', c)
    ensures forall k: nat :: NoneBefore(c, k) ==> NoneBefore(c', k)
  {
  }

  /** Losing and repeating packets in place breaks nothing. */
  lemma ChannelStepKeepsInv(s: System, e: Event)
    requires Inv(s) && Enabled(s, e)
    requires e.LoseRequest? || e.RepeatRequest? || e.LoseReply? || e.RepeatReply?
    ensures Inv(Step(s, e))
  {
    var s' := Step(s, e);
    if e.LoseRequest? || e.RepeatRequest? {
      if e.LoseRequest? {
        RemoveDraws(s.toServer, e.k);
      } else {
        RepeatDraws(s.toServer, e.k);
      }
      DrawnRequests(s.wire, s.history, s.served, s.toServer, s'.toServer);
      DrawnAfter(s.toServer, s'.toServer);
    } else {
      if e.LoseReply? {
        RemoveDraws(s.toClient, e.k);
      } else {
        RepeatDraws(s.toClient, e.k);
      }
      DrawnReplies(s.wire, s.history, s.log, LastAnswer(s.answers), s.served, s.toClient, s'.toClient);
    }
    ChannelKeepsEndpoint(s, s');
  }

  lemma TransmittedRequests(w: Wire, history: seq<Request>, served: nat, c: seq<Tagged>)
    requires RequestChannelInv(w, history, served, c)
    requires history != [] && Fits(history[|history| - 1]) && served <= |history|
    ensures RequestChannelInv(w, history, served, c + TagAll(|history|, RequestPackets(w, history, |history|)))
  {
    var n := |history|;
    var packets := RequestPackets(w, history, n);
    var c' := c + TagAll(n, packets);
    forall i | 0 <= i < |c'|
      ensures served <= c'[i].n <= n && RequestInFlight(w, history, c'[i])
    {
      if i < |c| {
        assert RequestInFlight(w, history, c[i]);
      } else {
        assert c'[i].packet == packets[i - |c|];
      }
    }
  }

  /** Sending, or sending again, every fragment of the request in progress. */
  lemma TransmitKeepsInv(s: System)
    requires Inv(s) && s.active
    ensures Inv(TransmitStep(s))
  {
    TransmittedRequests(s.wire, s.history, s.served, s.toServer);
    ChannelKeepsEndpoint(s, TransmitStep(s));
  }

  // A longer history says the same about its earlier requests.
  lemma RequestsUnmoved(w: Wire, h: seq<Request>, r: Request)
    ensures forall n :: 1 <= n <= |h| ==> RequestPackets(w, h + [r], n) == RequestPackets(w, h, n)
    ensures forall t :: RequestInFlight(w, h, t) ==> RequestInFlight(w, h + [r], t)
    ensures forall d :: Genuine(w, h, d) ==> Genuine(w, h + [r], d)
    ensures forall log, t :: ReplyInFlight(w, h, log, t) ==> ReplyInFlight(w, h + [r], log, t)
  {
    forall n | 1 <= n <= |h|
      ensures RequestPackets(w, h + [r], n) == RequestPackets(w, h, n)
    {
      assert (h + [r])[n - 1] == h[n - 1];
    }
  }

  lemma SourcedStill(w: Wire, h: seq<Request>, r: Request, log: seq<Dispatch>, pending: seq<Pending>)
    requires PendingInv(w, h, log, pending)
    ensures PendingInv(w, h + [r], log, pending)
  {
    RequestsUnmoved(w, h, r);
    forall i, f | 0 <= i < |pending| && f in pending[i].fragments
      ensures Sourced(w, h + [r], log, f)
    {
      assert EntryInv(w, h, log, pending[i]) && Sourced(w, h, log, f);
      var m :| FromRequest(w, h, log, f, m);
      assert (h + [r])[m - 1] == h[m - 1];
      assert FromRequest(w, h + [r], log, f, m);
    }
  }

  lemma SimulatorIssue(s: System, r: Request, x: Simulator)
    requires s.endpoint == AtSimulator(x) && SimulatorInv(s.wire, s.history, s.log, s.served, s.toServer, x)
    requires (Fits(r) ==> Clear(s, r)) && s.requestId == WireId(s.wire.base, |s.history|)
    ensures SimulatorInv(s.wire, s.history + [r], s.log, s.served, s.toServer, x)
  {
    var w, h, h' := s.wire, s.history, s.history + [r];
    RequestsUnmoved(w, h, r);
    SourcedStill(w, h, r, s.log, x.pending);
    forall k: nat | Waits(h', s.log, s.served, k)
      ensures ClearAt(w, h', s.toServer, x, k)
    {
      if k <= |h| {
        assert h'[k - 1] == h[k - 1];
        assert Waits(h, s.log, s.served, k);
        assert ClearAt(w, h, s.toServer, x, k);
      }
    }
  }

  lemma AgentIssue(s: System, r: Request, a: Agent)
    requires s.endpoint == AtAgent(a) && AgentInv(s.wire, s.history, s.log, s.served, s.holding, a)
    requires (Fits(r) ==> Clear(s, r)) && s.requestId == WireId(s.wire.base, |s.history|)
    ensures AgentInv(s.wire, s.history + [r], s.log, s.served, s.holding, a)
  {
    var w, h, h' := s.wire, s.history, s.history + [r];
    RequestsUnmoved(w, h, r);
    forall k: nat | Waits(h', s.log, s.served, k)
      ensures !HeldMixes(a.held, RequestPackets(w, h', k))
    {
      if k <= |h| {
        assert h'[k - 1] == h[k - 1];
        assert Waits(h, s.log, s.served, k);
      }
    }
  }

  lemma AnswersBelow(s: System)
    requires LogInv(s) && AnswersInv(s.answers, s.results, s.log)
    ensures LastAnswer(s.answers) <= LastTag(s.log) <= s.served <= |s.history|
    ensures forall i :: 0 <= i < |s.log| ==> s.log[i].n <= LastTag(s.log)
  {
    if s.answers != [] {
      assert InLog(s.log, LastAnswer(s.answers));
    }
  }

  /** A request issued when the bridge may issue one. */
  lemma IssueKeepsInv(s: System, request: Request)
    requires Inv(s) && Enabled(s, Issue(request)) && MayIssue(s, request)
    ensures Inv(IssueStep(s, request))
  {
    RequestsUnmoved(s.wire, s.history, request);
    AnswersBelow(s);
    match s.endpoint {
      case AtAgent(a) => AgentIssue(s, request, a);
      case AtSimulator(x) => SimulatorIssue(s, request, x);
    }
  }

  // --- The target serves a packet ---

  // An outcome that is true to the log: a repetition of the newest reply, a reply the bridge does
  // not listen to, or the first dispatch of a later request, with its own bytes.
  ghost predicate Faithful(w: Wire, history: seq<Request>, log: seq<Dispatch>, n: nat, outcome: Outcome) {
    match outcome
    case Silent => true
    case Resend(reply) =>
      if n == LastTag(log) then log != [] && reply == log[|log| - 1].reply
      else 1 <= n <= |history| && reply.opcode != history[n - 1].opcode
    case Refused(_) => false
    case Dispatched(opcode, payload, reply) =>
      n > LastTag(log) && Genuine(w, history, Dispatch(n, opcode, payload, reply))
  }

  lemma LogGrows(log: seq<Dispatch>, d: Dispatch)
    requires Increasing(log) && d.n > LastTag(log)
    ensures Increasing(log + [d])
    ensures forall n :: InLog(log, n) ==> InLog(log + [d], n)
    ensures forall n :: InLog(log + [d], n) ==> InLog(log, n) || n == d.n
    ensures InLog(log + [d], d.n)
    ensures forall n, payload :: Replied(log, n, payload) ==> Replied(log + [d], n, payload)
    ensures forall w, h, t :: ReplyInFlight(w, h, log, t) ==> ReplyInFlight(w, h, log + [d], t)
  {
    var log' := log + [d];
    assert forall i :: 0 <= i < |log| ==> log'[i] == log[i];
    assert log'[|log|] == d;
  }

  lemma EmissionInFlight(w: Wire, history: seq<Request>, log: seq<Dispatch>, log': seq<Dispatch>, n: nat, outcome: Outcome)
    requires w.Valid() && Faithful(w, history, log, n, outcome)
    requires log' == if outcome.Dispatched?
                     then log + [Dispatch(n, outcome.opcode, outcome.payload, outcome.reply)] else log
    ensures forall i :: 0 <= i < |Emission(w, n, outcome)| ==>
      Emission(w, n, outcome)[i].n == n && ReplyInFlight(w, history, log', Emission(w, n, outcome)[i])
  {
    if !outcome.Silent? {
      forall i | 0 <= i < |Emission(w, n, outcome)|
        ensures ReplyInFlight(w, history, log', Emission(w, n, outcome)[i])
      {
        var t := Emission(w, n, outcome)[i];
        assert t.packet == ReplyPackets(w, n, outcome.reply)[i];
        if outcome.Dispatched? || n == LastTag(log) {
          assert log'[|log'| - 1].n == n && log'[|log'| - 1].reply == outcome.reply;
          assert Carries(w, log', t);
        } else {
          assert Deaf(w, history, t);
        }
      }
    }
  }

  lemma ServedRequests(w: Wire, history: seq<Request>, served: nat, c: seq<Tagged>)
    requires RequestChannelInv(w, history, served, c) && c != []
    ensures RequestChannelInv(w, history, c[0].n, c[1..])
    ensures served <= c[0].n && RequestInFlight(w, history, c[0])
  {
  }

  lemma ServedReplies(w: Wire, history: seq<Request>, log: seq<Dispatch>, log': seq<Dispatch>, oldest: nat, served: nat, n: nat,
                      c: seq<Tagged>, sent: seq<Tagged>)
    requires ReplyChannelInv(w, history, log, oldest, served, c)
    requires oldest <= served <= n
    requires forall t :: ReplyInFlight(w, history, log, t) ==> ReplyInFlight(w, history, log', t)
    requires forall i :: 0 <= i < |sent| ==> sent[i].n == n && ReplyInFlight(w, history, log', sent[i])
    ensures ReplyChannelInv(w, history, log', oldest, n, c + sent)
  {
    forall i | 0 <= i < |c + sent|
      ensures oldest <= (c + sent)[i].n <= n && ReplyInFlight(w, history, log', (c + sent)[i])
    {
      assert (c + sent)[i] == if i < |c| then c[i] else sent[i - |c|];
    }
  }

  lemma ServedAnswers(answers: seq<nat>, results: seq<Returned>, log: seq<Dispatch>, d: Dispatch)
    requires Increasing(log) && d.n > LastTag(log)
    requires AnswersInv(answers, results, log)
    ensures AnswersInv(answers, results, log + [d])
  {
    LogGrows(log, d);
  }

  lemma ServedReceived(w: Wire, n: nat, log: seq<Dispatch>, d: Dispatch, received: seq<Packet>)
    requires ReceivedInv(w, n, log, received)
    ensures ReceivedInv(w, n, log + [d], received)
  {
    if received != [] {
      var i :| Collected(w, n, log, received, i);
      assert Collected(w, n, log + [d], received, i);
    }
  }

  /** Everything but the target's own record survives a faithful outcome. */
  lemma ServeKeepsRest(s: System, endpoint: Endpoint, outcome: Outcome)
    requires OutsideInv(s) && s.toServer != []
    requires Faithful(s.wire, s.history, s.log, s.toServer[0].n, outcome)
    ensures OutsideInv(Served(s, endpoint, outcome))
  {
    hide ReplyInFlight, Emission, RequestInFlight, ReplyPackets, RequestPackets, Collected;
    var s' := Served(s, endpoint, outcome);
    var n := s.toServer[0].n;
    AnswersBelow(s);
    ServedRequests(s.wire, s.history, s.served, s.toServer);
    EmissionInFlight(s.wire, s.history, s.log, s'.log, n, outcome);
    if outcome.Dispatched? {
      var d := Dispatch(n, outcome.opcode, outcome.payload, outcome.reply);
      LogGrows(s.log, d);
      ServedAnswers(s.answers, s.results, s.log, d);
      if s.active {
        ServedReceived(s.wire, |s.history|, s.log, d, s.received);
      }
    }
    ServedReplies(s.wire, s.history, s.log, s'.log, LastAnswer(s.answers), s.served, n, s.toClient, Emission(s.wire, n, outcome));
  }

  // A later request never looks like the newest one served, and always looks newer.
  lemma LaterLooksNewer(w: Wire, log: seq<Dispatch>, n: nat)
    requires w.Valid() && LastTag(log) < n <= LastTag(log) + 0x7FFE
    ensures log != [] ==>
      WireId(w.base, n) != WireId(w.base, LastTag(log))
      && RequestIsNewer(WireId(w.base, n), WireId(w.base, LastTag(log)))
  {
    NearIdsDiffer(w.base, LastTag(log), n);
    NewerWithinHalfRange(w.base, LastTag(log), n);
  }

  lemma RequestPacketFacts(w: Wire, history: seq<Request>, t: Tagged)
    requires RequestInFlight(w, history, t)
    ensures t.packet.Valid() && t.packet.kind == REQUEST && t.packet.opcode == history[t.n - 1].opcode
    ensures t.packet.sessionId == w.sessionId && t.packet.requestId == WireId(w.base, t.n)
    ensures t.packet.count == |RequestPackets(w, history, t.n)|
    ensures t.packet == RequestPackets(w, history, t.n)[t.packet.index]
  {
    FragmentsAreAlike(MAX_FRAGMENT_PAYLOAD, REQUEST, history[t.n - 1].opcode, w.sessionId,
                      WireId(w.base, t.n), history[t.n - 1].payload);
  }

  // --- The agent ---

  lemma {:induction false} JoinPartsIsJoinSlices(parts: map<nat, bytes>, size: nat, payload: bytes, n: nat)
    requires forall i :: 0 <= i < n ==> i in parts && parts[i] == Slice(size, payload, i)
    ensures JoinParts(parts, n) == JoinSlices(size, payload, n)
  {
    if n > 0 {
      JoinPartsIsJoinSlices(parts, size, payload, n - 1);
    }
  }

  // A complete request out of what is held and one more packet, when the two cannot mix.
  lemma PartsJoin(w: Wire, history: seq<Request>, n: nat, held: Held, p: Packet)
    requires 1 <= n <= |history| && Fits(history[n - 1]) && RequestInFlight(w, history, Tagged(n, p))
    requires held.id == p.requestId && Storable(held, p)
    requires !HeldMixes(held, RequestPackets(w, history, n))
    requires Complete(held.parts[p.index := p.payload], p.count)
    requires Sessions.FullBeforeLast(held.parts[p.index := p.payload], p.count)
    ensures JoinParts(held.parts[p.index := p.payload], p.count) == history[n - 1].payload
  {
    RequestPacketFacts(w, history, Tagged(n, p));
    var whole, payload, parts := RequestPackets(w, history, n), history[n - 1].payload, held.parts[p.index := p.payload];
    forall i | 0 <= i < |whole|
      ensures parts[i] == whole[i].payload
    {
      if i != p.index && parts[i] != whole[i].payload {
        OnePartMixes(held, whole, p, i);
      }
    }
    JoinPartsIsJoinSlices(parts, MAX_FRAGMENT_PAYLOAD, payload, |whole|);
    JoinAllSlices(MAX_FRAGMENT_PAYLOAD, payload);
  }

  lemma OnePartMixes(held: Held, whole: seq<Packet>, p: Packet, i: nat)
    requires i < |whole| && p.index < |whole| && p == whole[p.index] && i != p.index && p.count == |whole|
    requires whole[0].requestId == p.requestId == held.id && whole[0].opcode == p.opcode && Storable(held, p)
    requires Complete(held.parts[p.index := p.payload], |whole|)
    requires Sessions.FullBeforeLast(held.parts[p.index := p.payload], |whole|)
    requires held.parts[p.index := p.payload][i] != whole[i].payload
    ensures HeldMixes(held, whole)
  {
    var parts := held.parts[p.index := p.payload];
    assert parts[i] == held.parts[i];
    assert Usable(held.parts, i, |whole|);
    forall j | 0 <= j < |whole|
      ensures Storable(held, whole[j]) || Usable(held.parts, j, |whole|)
    {
      if j != p.index {
        assert j in parts && parts[j] == held.parts[j];
      }
    }
  }

  lemma MixedAlready(held: Held, whole: seq<Packet>, p: Packet)
    requires p.index < |whole| && p == whole[p.index] && Storable(held, p)
    requires HeldMixes(held.(parts := held.parts[p.index := p.payload]), whole)
    ensures HeldMixes(held, whole)
  {
    var held' := held.(parts := held.parts[p.index := p.payload]);
    var i :| 0 <= i < |whole| && Usable(held'.parts, i, |whole|) && held'.parts[i] != whole[i].payload;
    assert i != p.index && Usable(held.parts, i, |whole|);
    forall j | 0 <= j < |whole|
      ensures Storable(held, whole[j]) || Usable(held.parts, j, |whole|)
    {
      assert Storable(held', whole[j]) || Usable(held'.parts, j, |whole|);
    }
  }

  // One more packet of a request held, without completing it: still nothing mixes.
  lemma StoredStaysApart(held: Held, whole: seq<Packet>, p: Packet)
    requires p.index < |whole| && p == whole[p.index] && Storable(held, p) && !HeldMixes(held, whole)
    ensures !HeldMixes(held.(parts := held.parts[p.index := p.payload]), whole)
  {
    if HeldMixes(held.(parts := held.parts[p.index := p.payload]), whole) {
      MixedAlready(held, whole, p);
    }
  }

  // What is held under the identifier of one waiting request mixes with no other.
  lemma OthersApart(w: Wire, history: seq<Request>, log: seq<Dispatch>, held: Held, n: nat, k: nat)
    requires w.Valid() && 1 <= n <= |history| && 1 <= k <= |history| && n != k && n < k + 65535 && k < n + 65535
    requires held.id == WireId(w.base, n)
    ensures !HeldMixes(held, RequestPackets(w, history, k))
  {
    if n < k {
      NearIdsDiffer(w.base, n, k);
    } else {
      NearIdsDiffer(w.base, k, n);
    }
  }

  ghost predicate ReplyFits(w: Wire, answer: Answer) {
    answer.kind != REQUEST && w.replySize > 0 && FragmentCount(w.replySize, |answer.payload|) <= w.replyLimit
  }

  // The part of the log a served packet adds to it.
  function Logged(log: seq<Dispatch>, n: nat, outcome: Outcome): seq<Dispatch> {
    if outcome.Dispatched? then log + [Dispatch(n, outcome.opcode, outcome.payload, outcome.reply)] else log
  }

  // The waiting requests after a packet with this number are fewer.
  lemma WaitsLess(history: seq<Request>, log: seq<Dispatch>, served: nat, n: nat, outcome: Outcome, k: nat)
    requires served <= n && (outcome.Dispatched? ==> n > LastTag(log)) && Waits(history, Logged(log, n, outcome), n, k)
    ensures Waits(history, log, served, k) && k >= n && (outcome.Dispatched? ==> k > n)
  {
  }

  lemma HoldStaysApart(held: Held, p: Packet, whole: seq<Packet>)
    requires whole != [] && p.requestId == whole[0].requestId && !HeldMixes(held, whole)
    ensures !HeldMixes(HoldFor(held, p), whole)
  {
    if p.requestId != held.id {
      assert HoldFor(held, p).parts == map[];
    }
  }

  lemma CollectOutcome(w: Wire, history: seq<Request>, log: seq<Dispatch>, held: Held, a: Agent, t: Tagged, answer: Answer)
    requires w.Valid() && RequestInFlight(w, history, t) && t.n > LastTag(log) && ReplyFits(w, answer)
    requires held.id == t.packet.requestId && !HeldMixes(held, RequestPackets(w, history, t.n))
    ensures var (a', outcome) := Collect(a, held, t.packet, answer);
      && (outcome.Silent? || outcome.Dispatched?)
      && Faithful(w, history, log, t.n, outcome)
      && a'.sessionId == a.sessionId && a'.held.id == held.id
      && (outcome.Silent? ==> a'.last == a.last && !HeldMixes(a'.held, RequestPackets(w, history, t.n)))
      && (outcome.Dispatched? ==> a'.last == Some(t.packet.requestId) && a'.reply == outcome.reply)
  {
    hide Storable, Complete, Sessions.FullBeforeLast, JoinParts, RequestPackets, RequestInFlight, HeldMixes;
    RequestPacketFacts(w, history, t);
    PartStored(w, history, held, t);
    FlightFits(w, history, t);
  }

  lemma FlightFits(w: Wire, history: seq<Request>, t: Tagged)
    requires RequestInFlight(w, history, t)
    ensures 1 <= t.n <= |history| && Fits(history[t.n - 1])
  {
  }

  // What is held with one more packet: a complete request is its own, and otherwise nothing mixes.
  lemma PartStored(w: Wire, history: seq<Request>, held: Held, t: Tagged)
    requires RequestInFlight(w, history, t) && held.id == t.packet.requestId
    requires !HeldMixes(held, RequestPackets(w, history, t.n))
    ensures var p, parts := t.packet, held.parts[t.packet.index := t.packet.payload];
      Storable(held, p) ==>
        && !HeldMixes(held.(parts := parts), RequestPackets(w, history, t.n))
        && (Complete(parts, p.count) && Sessions.FullBeforeLast(parts, p.count) ==>
              JoinParts(parts, p.count) == history[t.n - 1].payload)
  {
    hide HeldMixes, JoinParts;
    RequestPacketFacts(w, history, t);
    var p, parts := t.packet, held.parts[t.packet.index := t.packet.payload];
    if Storable(held, p) {
      StoredStaysApart(held, RequestPackets(w, history, t.n), p);
      if Complete(parts, p.count) && Sessions.FullBeforeLast(parts, p.count) {
        PartsJoin(w, history, t.n, held, p);
      }
    }
  }

  lemma AgentOutcome(w: Wire, history: seq<Request>, log: seq<Dispatch>, served: nat, holding: nat,
                     a: Agent, t: Tagged, answer: Answer)
    requires w.Valid() && AgentInv(w, history, log, served, holding, a)
    requires RequestInFlight(w, history, t) && history[t.n - 1].opcode != HELLO && |history| <= LastTag(log) + 0x7FFE
    requires served <= t.n <= LastTag(log) + 0x7FFE && ReplyFits(w, answer)
    ensures var (a', outcome) := HandleAgent(a, t.packet, answer);
      && Faithful(w, history, log, t.n, outcome)
      && AgentInv(w, history, Logged(log, t.n, outcome), t.n,
                  if outcome.Silent? || outcome.Dispatched? then t.n else holding, a')
  {
    RequestPacketFacts(w, history, t);
    var (a', outcome) := HandleAgent(a, t.packet, answer);
    if t.n > LastTag(log) {
      LaterLooksNewer(w, log, t.n);
      assert Waits(history, log, served, t.n);
      var held := HoldFor(a.held, t.packet);
      HoldStaysApart(a.held, t.packet, RequestPackets(w, history, t.n));
      CollectOutcome(w, history, log, held, a, t, answer);
      forall k: nat | Waits(history, Logged(log, t.n, outcome), t.n, k)
        ensures !HeldMixes(a'.held, RequestPackets(w, history, k))
      {
        WaitsLess(history, log, served, t.n, outcome, k);
        if k != t.n {
          OthersApart(w, history, log, a'.held, t.n, k);
        }
      }
    } else {
      forall k: nat | Waits(history, log, t.n, k)
        ensures !HeldMixes(a'.held, RequestPackets(w, history, k))
      {
        assert Waits(history, log, served, k);
      }
    }
  }

  /** A packet served by the DOS agent. */
  lemma AgentServes(s: System, a: Agent, answer: Answer)
    requires Inv(s) && Enabled(s, Serve(answer)) && s.endpoint == AtAgent(a)
    ensures Inv(ServeStep(s, answer))
  {
    var t := s.toServer[0];
    ServedRequests(s.wire, s.history, s.served, s.toServer);
    AnswersBelow(s);
    assert s.history[t.n - 1] in s.history;
    AgentOutcome(s.wire, s.history, s.log, s.served, s.holding, a, t, answer);
    var (a', outcome) := HandleAgent(a, t.packet, answer);
    ServeKeepsRest(s, AtAgent(a'), outcome);
  }

  // --- The simulator ---

  lemma {:induction false} StoreKeeps(values: seq<Packet>, p: Packet, f: Packet)
    requires DistinctIndices(values)
    ensures f in values && f.index != p.index ==> f in Store(values, p)
    ensures f in Store(values, p) && f != p ==> f in values && f.index != p.index
  {
    if values != [] && values[0].index != p.index {
      StoreKeeps(values[1..], p, f);
    }
  }

  ghost predicate WholeMessage(whole: seq<Packet>) {
    && 1 <= |whole| <= MAX_FRAGMENTS
    && forall i :: 0 <= i < |whole| ==> whole[i].Valid() && whole[i].index == i && whole[i].count == |whole|
                                        && whole[i].SameMessage(whole[0])
  }

  lemma FragmentsAreWhole(w: Wire, id: Word, request: Request)
    requires Fits(request)
    ensures WholeMessage(FragmentsOf(w, id, request))
  {
    var whole := FragmentsOf(w, id, request);
    FragmentsAreAlike(MAX_FRAGMENT_PAYLOAD, REQUEST, request.opcode, w.sessionId, id, request.payload);
    assert forall i :: 0 <= i < |whole| ==> whole[i] in whole;
  }

  // Everything held can be written over, and there is as much of it as the request has fragments.
  lemma HeldIsFull(held: seq<Packet>, whole: seq<Packet>, p: Packet)
    requires WholeMessage(whole) && DistinctIndices(held) && (forall f :: f in held ==> f.Valid())
    requires forall g :: g in held && Other(g, whole) ==> g.index < |whole|
    requires |held| >= |whole| && p.index < |whole|
    ensures |held| == |whole| && |Store(held, p)| == |whole|
  {
    forall f | f in held
      ensures f.index < |whole|
    {
    }
    IndexCount(held);
    assert Indices(held) <= Below(|whole|);
    SubsetIsNoLarger(Indices(held), Below(|whole|));
    SubsetOfSameSize(Indices(held), Below(|whole|));
    assert p.index in Indices(held);
  }

  // One more fragment without completing a request: still nothing mixes.
  lemma StoreStaysApart(held: seq<Packet>, whole: seq<Packet>, p: Packet)
    requires WholeMessage(whole) && DistinctIndices(held) && (forall f :: f in held ==> f.Valid())
    requires p.index < |whole| && p == whole[p.index] && !Mixes(held, whole)
    requires |Store(held, p)| != |whole|
    ensures !Mixes(Store(held, p), whole)
  {
    var held' := Store(held, p);
    if Mixes(held', whole) {
      var f :| f in held' && Foreign(f, whole);
      StoreKeeps(held, p, f);
      assert f in held && Foreign(f, whole);
      forall g | g in held && Other(g, whole)
        ensures g.index < |whole|
      {
        StoreKeeps(held, p, g);
      }
      HeldIsFull(held, whole, p);
    }
  }

  // A request completed out of what is held and one more fragment, when the two cannot mix, is its own.
  lemma StoreCompletes(held: seq<Packet>, whole: seq<Packet>, p: Packet)
    requires WholeMessage(whole) && DistinctIndices(held) && (forall f :: f in held ==> f.Valid())
    requires p.index < |whole| && p == whole[p.index] && !Mixes(held, whole)
    requires |Store(held, p)| == |whole| && Reassemble(Store(held, p)).Ok?
    ensures PartOf(Store(held, p), whole)
  {
    var held' := Store(held, p);
    AlikeInMessage(held', p);
    forall f | f in held'
      ensures f.index < |whole| && f == whole[f.index]
    {
      assert f.SameMessage(p) && f.SameMessage(whole[0]);
      StoreKeeps(held, p, f);
      if !(f.index < |whole| && f == whole[f.index]) {
        assert f in held && Foreign(f, whole);
        OneForeignMixes(held, whole, p);
      }
    }
  }

  lemma AlikeInMessage(values: seq<Packet>, p: Packet)
    requires Reassemble(values).Ok? && p in values
    ensures forall f :: f in values ==> f.SameMessage(p)
  {
    hide Holds, JoinFound, Distinct;
  }

  lemma OneForeignMixes(held: seq<Packet>, whole: seq<Packet>, p: Packet)
    requires WholeMessage(whole) && DistinctIndices(held) && (forall f :: f in held ==> f.Valid())
    requires p.index < |whole| && p == whole[p.index] && |Store(held, p)| == |whole|
    requires exists f | f in held :: Foreign(f, whole)
    requires forall f :: f in Store(held, p) ==> f.SameMessage(whole[0])
    requires exists f | f in Store(held, p) :: Foreign(f, whole)
    ensures Mixes(held, whole)
  {
    var held' := Store(held, p);
    forall g | g in held && Other(g, whole)
      ensures g.index == p.index
    {
      StoreKeeps(held, p, g);
    }
    var f :| f in held' && Foreign(f, whole);
  }

  lemma PositionKept(pending: seq<Pending>, pending': seq<Pending>, id: Word)
    requires forall e :: e in pending' && e.id == id ==> e in pending
    requires DistinctPending(pending)
    ensures FragmentsFor(pending', id) == FragmentsFor(pending, id) || FragmentsFor(pending', id) == []
  {
    var i := Position(pending', id);
    if i < |pending'| {
      assert pending'[i] in pending;
      var j :| 0 <= j < |pending| && pending[j] == pending'[i];
      assert Position(pending, id) == j;
    }
  }

  // Room made for a request keeps what is held of it, and makes none up.
  lemma AdmitKeeps(pending: seq<Pending>, id: Word)
    requires DistinctPending(pending)
    ensures var r := Admit(pending, id);
      && DistinctPending(r)
      && r[Position(r, id)].fragments == FragmentsFor(pending, id)
      && (forall e :: e in r && e.id != id ==> e in pending)
  {
    var r := Admit(pending, id);
    var i := Position(r, id);
    if Position(pending, id) == |pending| {
      assert forall e :: e in pending ==> e.id != id;
      assert r[i] == Pending(id, []);
    }
  }

  // Only the entry of one identifier changes, or goes.
  lemma SettleKeepsOthers(pending: seq<Pending>, i: nat, e: Pending)
    requires i < |pending| && pending[i].id == e.id
    requires DistinctPending(pending)
    ensures var changed, rest := pending[i := e], pending[..i] + pending[i + 1..];
      && DistinctPending(changed)
      && DistinctPending(rest)
      && FragmentsFor(changed, e.id) == e.fragments && FragmentsFor(rest, e.id) == []
      && (forall f :: f in changed && f.id != e.id ==> f in pending)
      && (forall f :: f in rest ==> f in pending && f.id != e.id)
  {
    var changed, rest := pending[i := e], pending[..i] + pending[i + 1..];
    assert forall j :: 0 <= j < |rest| ==> rest[j] == pending[if j < i then j else j + 1];
    var n, j := Position(changed, e.id), Position(rest, e.id);
    assert changed[i].id == e.id;
    assert n <= i && changed[n].id == e.id;
    assert forall k :: 0 <= k < |rest| ==> rest[k].id != e.id;
  }

  lemma NewestElements(c: seq<Cached>, n: nat)
    ensures var r := Newest(c, n);
      |r| <= |c| && |r| <= n && (n > 0 && c != [] ==> r != [])
      && forall i :: 0 <= i < |r| ==> |c| - |r| + i >= |c| - n && r[i] == c[|c| - |r| + i]
  {
  }

  lemma NewestOfGrown(base: Word, log: seq<Dispatch>, d: Dispatch)
    ensures Newest(Newest(CacheOf(base, log), CACHE_LIMIT) + [Cached(WireId(base, d.n), d.reply)], CACHE_LIMIT)
      == Newest(CacheOf(base, log + [d]), CACHE_LIMIT)
  {
    assert CacheOf(base, log + [d]) == CacheOf(base, log) + [Cached(WireId(base, d.n), d.reply)];
  }

  // The reply to the newest dispatch is in the cache, and it is the only one under its identifier.
  lemma NewestIsCached(w: Wire, log: seq<Dispatch>, cache: seq<Cached>)
    requires log != [] && cache == Newest(CacheOf(w.base, log), CACHE_LIMIT) && DistinctCache(cache)
    ensures InCache(cache, WireId(w.base, LastTag(log)))
    ensures Lookup(cache, WireId(w.base, LastTag(log))) == log[|log| - 1].reply
  {
    NewestElements(CacheOf(w.base, log), CACHE_LIMIT);
    var id, last := WireId(w.base, LastTag(log)), cache[|cache| - 1];
    assert last == Cached(id, log[|log| - 1].reply) && last in cache;
    var r := Lookup(cache, id);
    var i :| 0 <= i < |cache| && cache[i] == Cached(id, r);
  }

  // Recording a reply under an identifier not in the cache.
  lemma RecordCaches(cache: seq<Cached>, id: Word, reply: Reply)
    requires DistinctCache(cache) && !InCache(cache, id)
    ensures var cache' := Newest(cache + [Cached(id, reply)], CACHE_LIMIT);
      && DistinctCache(cache')
      && (forall c :: c in cache' ==> c in cache || c == Cached(id, reply))
  {
    NewestElements(cache + [Cached(id, reply)], CACHE_LIMIT);
    assert forall i :: 0 <= i < |cache| ==> cache[i] in cache;
  }

  // Another waiting request: it was clear of the simulator before, and what is there now of it was there then.
  lemma OthersStayClear(w: Wire, history: seq<Request>, c: seq<Tagged>, c': seq<Tagged>, x: Simulator, x': Simulator, n: nat, k: nat)
    requires 1 <= n < k <= |history| && ClearAt(w, history, c, x, k) && !NoneBefore(c, k)
    requires FragmentsFor(x'.pending, WireId(w.base, k)) in {FragmentsFor(x.pending, WireId(w.base, k)), []}
    requires forall e :: e in x'.cache && e.id == WireId(w.base, k) ==> e in x.cache
    ensures ClearAt(w, history, c', x', k)
  {
    var id := WireId(w.base, k);
    assert !Mixes([], RequestPackets(w, history, k));
  }

  lemma EntryLater(w: Wire, history: seq<Request>, log: seq<Dispatch>, e: Pending, d: Dispatch)
    requires EntryInv(w, history, log, e) && e.id != WireId(w.base, d.n) && Increasing(log) && d.n > LastTag(log)
    ensures EntryInv(w, history, log + [d], e)
  {
    forall f | f in e.fragments
      ensures Sourced(w, history, log + [d], f)
    {
      assert Sourced(w, history, log, f);
      var m :| FromRequest(w, history, log, f, m);
      RequestPacketFacts(w, history, Tagged(m, f));
      LogGrows(log, d);
      assert FromRequest(w, history, log + [d], f, m);
    }
  }

  lemma EntryStores(w: Wire, history: seq<Request>, log: seq<Dispatch>, e: Pending, t: Tagged)
    requires EntryInv(w, history, log, e) && RequestInFlight(w, history, t) && !InLog(log, t.n) && e.id == t.packet.requestId
    ensures EntryInv(w, history, log, Pending(e.id, Store(e.fragments, t.packet)))
  {
    assert FromRequest(w, history, log, t.packet, t.n);
  }

  lemma EntryIsValid(w: Wire, history: seq<Request>, log: seq<Dispatch>, e: Pending)
    requires EntryInv(w, history, log, e)
    ensures forall f :: f in e.fragments ==> f.Valid()
  {
    forall f | f in e.fragments
      ensures f.Valid()
    {
      assert Sourced(w, history, log, f);
      var m :| FromRequest(w, history, log, f, m);
      RequestPacketFacts(w, history, Tagged(m, f));
    }
  }

  // What is held of a request, with its new fragment: not complete and nothing mixes, or its own bytes.
  lemma StoredOutcome(w: Wire, history: seq<Request>, log: seq<Dispatch>, e: Pending, t: Tagged)
    requires RequestInFlight(w, history, t) && EntryInv(w, history, log, e) && e.id == t.packet.requestId
    requires !Mixes(e.fragments, RequestPackets(w, history, t.n))
    ensures var fragments := Store(e.fragments, t.packet);
      && (|fragments| != t.packet.count ==> !Mixes(fragments, RequestPackets(w, history, t.n)))
      && (|fragments| == t.packet.count && Reassemble(fragments).Ok? ==>
            Reassemble(fragments) == Ok(history[t.n - 1].payload))
  {
    hide Mixes, Reassemble, Store;
    var whole, fragments := RequestPackets(w, history, t.n), Store(e.fragments, t.packet);
    RequestPacketFacts(w, history, t);
    FragmentsAreWhole(w, WireId(w.base, t.n), history[t.n - 1]);
    EntryIsValid(w, history, log, e);
    if |fragments| != t.packet.count {
      StoreStaysApart(e.fragments, whole, t.packet);
    } else if Reassemble(fragments).Ok? {
      StoreCompletes(e.fragments, whole, t.packet);
      ReassembleFragments(fragments, MAX_FRAGMENT_PAYLOAD, REQUEST, history[t.n - 1].opcode,
                          w.sessionId, WireId(w.base, t.n), history[t.n - 1].payload);
    }
  }

  lemma StillClear(w: Wire, history: seq<Request>, c: seq<Tagged>, x: Simulator, k: nat)
    requires 1 <= k <= |history| && c != [] && ClearAt(w, history, c, x, k)
    ensures ClearAt(w, history, c[1..], x, k)
  {
    hide Mixes, HoldsReply;
    assert NoneBefore(c, k) ==> NoneBefore(c[1..], k);
  }

  // The other waiting requests after the packet of one of them.
  lemma LaterStayClear(w: Wire, history: seq<Request>, log: seq<Dispatch>, served: nat, c: seq<Tagged>,
                       x: Simulator, x': Simulator, t: Tagged, k: nat)
    requires w.Valid() && SimulatorInv(w, history, log, served, c, x) && c != [] && c[0] == t
    requires Waits(history, log, served, k) && 1 <= t.n < k < t.n + 65535
    requires forall e :: e in x'.pending && e.id != WireId(w.base, t.n) ==> e in x.pending
    requires forall e :: e in x'.cache && e.id != WireId(w.base, t.n) ==> e in x.cache
    ensures ClearAt(w, history, c[1..], x', k)
  {
    hide Mixes, HoldsReply;
    NearIdsDiffer(w.base, t.n, k);
    PositionKept(x.pending, x'.pending, WireId(w.base, k));
    OthersStayClear(w, history, c, c[1..], x, x', t.n, k);
  }

  // A partial request that keeps waiting, or is given up.
  lemma SilentKeeps(w: Wire, history: seq<Request>, log: seq<Dispatch>, served: nat, c: seq<Tagged>,
                    x: Simulator, t: Tagged, pending: seq<Pending>)
    requires w.Valid() && SimulatorInv(w, history, log, served, c, x) && c != [] && c[0] == t && Increasing(log)
    requires Waits(history, log, served, t.n) && |history| <= LastTag(log) + 0x7FFE
    requires DistinctPending(pending)
    requires forall e :: e in pending ==> EntryInv(w, history, log, e) && (e.id != WireId(w.base, t.n) ==> e in x.pending)
    requires !Mixes(FragmentsFor(pending, WireId(w.base, t.n)), RequestPackets(w, history, t.n))
    ensures SimulatorInv(w, history, log, t.n, c[1..], x.(pending := pending))
  {
    hide Mixes, HoldsReply, FragmentsFor, EntryInv;
    var x' := x.(pending := pending);
    forall k: nat | Waits(history, log, t.n, k)
      ensures ClearAt(w, history, c[1..], x', k)
    {
      assert Waits(history, log, served, k);
      if k == t.n {
        assert ClearAt(w, history, c, x, k);
      } else {
        LaterStayClear(w, history, log, served, c, x, x', t, k);
      }
    }
  }

  // A request dispatched.
  lemma DispatchKeeps(w: Wire, history: seq<Request>, log: seq<Dispatch>, served: nat, c: seq<Tagged>,
                      x: Simulator, t: Tagged, pending: seq<Pending>, d: Dispatch)
    requires w.Valid() && SimulatorInv(w, history, log, served, c, x) && c != [] && c[0] == t && Increasing(log)
    requires Waits(history, log, served, t.n) && |history| <= LastTag(log) + 0x7FFE && d.n == t.n
    requires !InCache(x.cache, WireId(w.base, t.n))
    requires DistinctPending(pending)
    requires forall e :: e in pending ==> e in x.pending && e.id != WireId(w.base, t.n)
    ensures SimulatorInv(w, history, log + [d], t.n, c[1..], Record(x.(pending := pending), WireId(w.base, t.n), d.reply))
  {
    hide Mixes, HoldsReply, FragmentsFor, EntryInv, ClearAt;
    var id, x' := WireId(w.base, t.n), Record(x.(pending := pending), WireId(w.base, t.n), d.reply);
    RecordCaches(x.cache, id, d.reply);
    NewestOfGrown(w.base, log, d);
    forall i | 0 <= i < |pending|
      ensures EntryInv(w, history, log + [d], pending[i])
    {
      assert pending[i] in x.pending;
      EntryLater(w, history, log, pending[i], d);
    }
    forall k: nat | Waits(history, log + [d], t.n, k)
      ensures ClearAt(w, history, c[1..], x', k)
    {
      assert Waits(history, log, served, k) && k > t.n;
      LaterStayClear(w, history, log, served, c, x, x', t, k);
    }
  }

  lemma SettleCases(x: Simulator, pending: seq<Pending>, i: nat, fragments: seq<Packet>, p: Packet, answer: Answer)
    requires i < |pending|
    ensures |fragments| != p.count ==>
      Settle(x, pending, i, fragments, p, answer)
        == (x.(pending := pending[i := Pending(p.requestId, fragments)]), Silent)
    ensures |fragments| == p.count && Reassemble(fragments).Err? ==>
      Settle(x, pending, i, fragments, p, answer) == (x.(pending := pending[..i] + pending[i + 1..]), Silent)
    ensures |fragments| == p.count && Reassemble(fragments).Ok? ==>
      var reply := Reply(answer.kind, p.opcode, answer.payload);
      Settle(x, pending, i, fragments, p, answer)
        == (Record(x.(pending := pending[..i] + pending[i + 1..]), p.requestId, reply),
            Dispatched(p.opcode, Reassemble(fragments).value, reply))
  {
    hide Reassemble, Record;
  }

  // The partial requests once the packet is stored, and without the one it belongs to.
  ghost predicate SettlesApart(w: Wire, history: seq<Request>, log: seq<Dispatch>, x: Simulator, id: Word,
                               changed: seq<Pending>, rest: seq<Pending>, fragments: seq<Packet>) {
    && DistinctPending(changed) && DistinctPending(rest)
    && FragmentsFor(changed, id) == fragments && FragmentsFor(rest, id) == []
    && (forall e :: e in changed ==> EntryInv(w, history, log, e) && (e.id != id ==> e in x.pending))
    && (forall e :: e in rest ==> EntryInv(w, history, log, e) && e in x.pending && e.id != id)
  }

  lemma SettleSilent(w: Wire, history: seq<Request>, log: seq<Dispatch>, served: nat, c: seq<Tagged>,
                     x: Simulator, t: Tagged, changed: seq<Pending>, rest: seq<Pending>, fragments: seq<Packet>)
    requires w.Valid() && SimulatorInv(w, history, log, served, c, x) && c != [] && c[0] == t && Increasing(log)
    requires Waits(history, log, served, t.n) && |history| <= LastTag(log) + 0x7FFE && RequestInFlight(w, history, t)
    requires SettlesApart(w, history, log, x, t.packet.requestId, changed, rest, fragments)
    ensures !Mixes(fragments, RequestPackets(w, history, t.n)) ==>
      SimulatorInv(w, history, log, t.n, c[1..], x.(pending := changed))
    ensures SimulatorInv(w, history, log, t.n, c[1..], x.(pending := rest))
  {
    RequestPacketFacts(w, history, t);
    WaitsFits(history, log, served, t.n);
    NothingMixes(RequestPackets(w, history, t.n));
    hide Mixes, FragmentsFor, EntryInv, SimulatorInv, RequestPackets, RequestInFlight, Increasing, Waits, LastTag, DistinctPending;
    SilentKeeps(w, history, log, served, c, x, t, rest);
    if !Mixes(fragments, RequestPackets(w, history, t.n)) {
      SilentKeeps(w, history, log, served, c, x, t, changed);
    }
  }

  lemma SettleDispatched(w: Wire, history: seq<Request>, log: seq<Dispatch>, served: nat, c: seq<Tagged>,
                         x: Simulator, t: Tagged, changed: seq<Pending>, rest: seq<Pending>, fragments: seq<Packet>, d: Dispatch)
    requires w.Valid() && SimulatorInv(w, history, log, served, c, x) && c != [] && c[0] == t && Increasing(log)
    requires Waits(history, log, served, t.n) && |history| <= LastTag(log) + 0x7FFE && RequestInFlight(w, history, t)
    requires SettlesApart(w, history, log, x, t.packet.requestId, changed, rest, fragments)
    requires !InCache(x.cache, t.packet.requestId) && d.n == t.n
    ensures SimulatorInv(w, history, log + [d], t.n, c[1..], Record(x.(pending := rest), t.packet.requestId, d.reply))
  {
    RequestPacketFacts(w, history, t);
    hide FragmentsFor, EntryInv, SimulatorInv, RequestPackets, RequestInFlight, Increasing, Waits, LastTag, DistinctPending;
    hide InCache, Record;
    DispatchKeeps(w, history, log, served, c, x, t, rest, d);
  }

  lemma OwnDispatchIsFaithful(w: Wire, history: seq<Request>, log: seq<Dispatch>, served: nat, t: Tagged, answer: Answer)
    requires w.Valid() && RequestInFlight(w, history, t) && Waits(history, log, served, t.n) && ReplyFits(w, answer)
    ensures Faithful(w, history, log, t.n, Dispatched(t.packet.opcode, history[t.n - 1].payload,
                                                      Reply(answer.kind, t.packet.opcode, answer.payload)))
  {
    RequestPacketFacts(w, history, t);
    WaitsFits(history, log, served, t.n);
  }

  // What `Settle` does, with the partial request found and its fragments known.
  lemma SettleOutcome(w: Wire, history: seq<Request>, log: seq<Dispatch>, served: nat, c: seq<Tagged>,
                      x: Simulator, t: Tagged, answer: Answer, pending: seq<Pending>, i: nat, fragments: seq<Packet>)
    requires w.Valid() && SimulatorInv(w, history, log, served, c, x) && c != [] && c[0] == t && Increasing(log)
    requires Waits(history, log, served, t.n) && |history| <= LastTag(log) + 0x7FFE && i < |pending|
    requires RequestInFlight(w, history, t) && ReplyFits(w, answer) && !InCache(x.cache, t.packet.requestId)
    requires SettlesApart(w, history, log, x, t.packet.requestId, pending[i := Pending(t.packet.requestId, fragments)],
                          pending[..i] + pending[i + 1..], fragments)
    requires |fragments| != t.packet.count ==> !Mixes(fragments, RequestPackets(w, history, t.n))
    requires |fragments| == t.packet.count && Reassemble(fragments).Ok? ==>
      Reassemble(fragments) == Ok(history[t.n - 1].payload)
    ensures var (x', outcome) := Settle(x, pending, i, fragments, t.packet, answer);
      && Faithful(w, history, log, t.n, outcome)
      && SimulatorInv(w, history, Logged(log, t.n, outcome), t.n, c[1..], x')
  {
    OwnDispatchIsFaithful(w, history, log, served, t, answer);
    hide Mixes, Reassemble, SimulatorInv, RequestPackets, Settle, Record, SettlesApart, RequestInFlight, Increasing, InCache;
    hide Genuine, Waits, LastTag, ReplyFits;
    SettleCases(x, pending, i, fragments, t.packet, answer);
    var changed, rest := pending[i := Pending(t.packet.requestId, fragments)], pending[..i] + pending[i + 1..];
    if |fragments| == t.packet.count && Reassemble(fragments).Ok? {
      var reply := Reply(answer.kind, t.packet.opcode, answer.payload);
      SettleDispatched(w, history, log, served, c, x, t, changed, rest, fragments,
                       Dispatch(t.n, t.packet.opcode, history[t.n - 1].payload, reply));
    } else {
      SettleSilent(w, history, log, served, c, x, t, changed, rest, fragments);
    }
  }

  // The partial requests with room made for the one a packet belongs to.
  ghost predicate AdmitsApart(w: Wire, history: seq<Request>, log: seq<Dispatch>, x: Simulator, id: Word, pending: seq<Pending>) {
    && DistinctPending(pending) && Position(pending, id) < |pending|
    && (forall e :: e in pending ==> EntryInv(w, history, log, e) && (e.id != id ==> e in x.pending))
  }

  lemma Admitted(w: Wire, history: seq<Request>, log: seq<Dispatch>, served: nat, c: seq<Tagged>, x: Simulator, t: Tagged)
    requires SimulatorInv(w, history, log, served, c, x) && c != [] && c[0] == t
    requires Waits(history, log, served, t.n) && RequestInFlight(w, history, t) && !InCache(x.cache, t.packet.requestId)
    ensures RequestPackets(w, history, t.n) != []
    ensures var id, pending := t.packet.requestId, Admit(x.pending, t.packet.requestId);
      && AdmitsApart(w, history, log, x, id, pending)
      && !Mixes(pending[Position(pending, id)].fragments, RequestPackets(w, history, t.n))
  {
    RequestPacketFacts(w, history, t);
    var id, pending := t.packet.requestId, Admit(x.pending, t.packet.requestId);
    AdmitKeeps(x.pending, id);
    assert ClearAt(w, history, c, x, t.n);
    hide Mixes, DistinctPending;
    forall e | e in pending
      ensures EntryInv(w, history, log, e)
    {
      assert e in x.pending || e == Pending(id, []);
    }
  }

  lemma StoredApart(w: Wire, history: seq<Request>, log: seq<Dispatch>, x: Simulator, t: Tagged, pending: seq<Pending>)
    requires AdmitsApart(w, history, log, x, t.packet.requestId, pending) && RequestInFlight(w, history, t) && !InLog(log, t.n)
    ensures var id, i := t.packet.requestId, Position(pending, t.packet.requestId);
      var fragments := Store(pending[i].fragments, t.packet);
      SettlesApart(w, history, log, x, id, pending[i := Pending(id, fragments)], pending[..i] + pending[i + 1..], fragments)
  {
    hide EntryInv, RequestInFlight, Store, FragmentsFor, DistinctPending;
    var id, i := t.packet.requestId, Position(pending, t.packet.requestId);
    var fragments := Store(pending[i].fragments, t.packet);
    EntryStores(w, history, log, pending[i], t);
    SettleKeepsOthers(pending, i, Pending(id, fragments));
  }

  lemma AcceptOutcome(w: Wire, history: seq<Request>, log: seq<Dispatch>, served: nat, c: seq<Tagged>,
                      x: Simulator, t: Tagged, answer: Answer)
    requires w.Valid() && SimulatorInv(w, history, log, served, c, x) && c != [] && c[0] == t && Increasing(log)
    requires forall i :: 0 <= i < |log| ==> log[i].n <= LastTag(log)
    requires Waits(history, log, served, t.n) && |history| <= LastTag(log) + 0x7FFE
    requires RequestInFlight(w, history, t) && ReplyFits(w, answer) && !InCache(x.cache, t.packet.requestId)
    ensures var (x', outcome) := Accept(x, t.packet, answer);
      && Faithful(w, history, log, t.n, outcome)
      && SimulatorInv(w, history, Logged(log, t.n, outcome), t.n, c[1..], x')
  {
    hide Mixes, EntryInv, Reassemble, Store, Admit, SimulatorInv, RequestPackets, Settle, SettlesApart;
    hide RequestInFlight, Increasing, Waits, InCache, Faithful, DistinctPending;
    var id, pending := t.packet.requestId, Admit(x.pending, t.packet.requestId);
    var i := Position(pending, id);
    Admitted(w, history, log, served, c, x, t);
    NotYetInLog(history, log, served, t.n);
    StoredOutcome(w, history, log, pending[i], t);
    StoredApart(w, history, log, x, t, pending);
    SettleOutcome(w, history, log, served, c, x, t, answer, pending, i, Store(pending[i].fragments, t.packet));
  }

  lemma NotYetInLog(history: seq<Request>, log: seq<Dispatch>, served: nat, k: nat)
    requires Waits(history, log, served, k) && forall i :: 0 <= i < |log| ==> log[i].n <= LastTag(log)
    ensures !InLog(log, k)
  {
  }

  lemma NothingMixes(whole: seq<Packet>)
    requires whole != []
    ensures !Mixes([], whole)
  {
  }

  lemma WaitsFits(history: seq<Request>, log: seq<Dispatch>, served: nat, k: nat)
    requires Waits(history, log, served, k)
    ensures LastTag(log) < k <= |history| && Fits(history[k - 1])
  {
  }

  // A packet that changes nothing at the simulator.
  lemma UnchangedKeeps(w: Wire, history: seq<Request>, log: seq<Dispatch>, served: nat, c: seq<Tagged>, x: Simulator, n: nat)
    requires SimulatorInv(w, history, log, served, c, x) && c != [] && c[0].n == n && served <= n
    ensures SimulatorInv(w, history, log, n, c[1..], x)
  {
    hide ClearAt, PendingInv, Newest, CacheOf, DistinctCache;
    forall k: nat | Waits(history, log, n, k)
      ensures ClearAt(w, history, c[1..], x, k)
    {
      assert Waits(history, log, served, k);
      StillClear(w, history, c, x, k);
    }
  }

  // Which branch the simulator takes.
  lemma SimulatorBranch(x: Simulator, p: Packet, answer: Answer)
    requires p.kind == REQUEST && p.sessionId == x.sessionId
    ensures InCache(x.cache, p.requestId) ==>
      HandleSimulator(x, p, answer) == (x, Resend(Lookup(x.cache, p.requestId)))
    ensures !InCache(x.cache, p.requestId) && (x.last.Some? ==> RequestIsNewer(p.requestId, x.last.value)) ==>
      HandleSimulator(x, p, answer) == Accept(x, p, answer)
  {
    hide InCache, Lookup, Accept, RequestIsNewer;
  }

  lemma LastIsId(w: Wire, history: seq<Request>, log: seq<Dispatch>, served: nat, c: seq<Tagged>, x: Simulator)
    requires SimulatorInv(w, history, log, served, c, x)
    ensures x.sessionId == w.sessionId && x.last == LastId(w, log)
    ensures log != [] ==>
      && InCache(x.cache, WireId(w.base, LastTag(log)))
      && Lookup(x.cache, WireId(w.base, LastTag(log))) == log[|log| - 1].reply
  {
    hide ClearAt, PendingInv, Newest, CacheOf, DistinctCache, InCache, Lookup;
    if log != [] {
      NewestIsCached(w, log, x.cache);
    }
  }

  lemma SimulatorOutcome(w: Wire, history: seq<Request>, log: seq<Dispatch>, served: nat, c: seq<Tagged>,
                         x: Simulator, t: Tagged, answer: Answer)
    requires w.Valid() && SimulatorInv(w, history, log, served, c, x) && c != [] && c[0] == t && Increasing(log)
    requires forall i :: 0 <= i < |log| ==> log[i].n <= LastTag(log)
    requires RequestInFlight(w, history, t) && ReplyFits(w, answer)
    requires LastTag(log) <= served <= t.n && |history| <= LastTag(log) + 0x7FFE
    ensures var (x', outcome) := HandleSimulator(x, t.packet, answer);
      && Faithful(w, history, log, t.n, outcome)
      && SimulatorInv(w, history, Logged(log, t.n, outcome), t.n, c[1..], x')
  {
    RequestPacketFacts(w, history, t);
    FlightFits(w, history, t);
    LastIsId(w, history, log, served, c, x);
    SimulatorBranch(x, t.packet, answer);
    UnchangedKeeps(w, history, log, served, c, x, t.n);
    if t.n > LastTag(log) {
      assert Waits(history, log, served, t.n);
      assert ClearAt(w, history, c, x, t.n);
      LaterLooksNewer(w, log, t.n);
      hide SimulatorInv, HandleSimulator, Accept, RequestInFlight, RequestPackets, ClearAt, Increasing, InCache, Lookup;
      hide RequestIsNewer, Waits;
      if InCache(x.cache, t.packet.requestId) {
        NotListened(w, history, c, x, t.n);
      } else {
        AcceptOutcome(w, history, log, served, c, x, t, answer);
      }
    } else {
      hide SimulatorInv, HandleSimulator, RequestInFlight, RequestPackets, Increasing, InCache, Lookup;
    }
  }

  lemma NotListened(w: Wire, history: seq<Request>, c: seq<Tagged>, x: Simulator, k: nat)
    requires 1 <= k <= |history| && ClearAt(w, history, c, x, k) && InCache(x.cache, WireId(w.base, k))
    ensures Lookup(x.cache, WireId(w.base, k)).opcode != history[k - 1].opcode
  {
    hide Mixes;
    var id := WireId(w.base, k);
    assert Cached(id, Lookup(x.cache, id)) in x.cache;
  }

  /** A packet served by the simulator. */
  lemma SimulatorServes(s: System, x: Simulator, answer: Answer)
    requires Inv(s) && Enabled(s, Serve(answer)) && s.endpoint == AtSimulator(x)
    ensures Inv(ServeStep(s, answer))
  {
    var t := s.toServer[0];
    ServedRequests(s.wire, s.history, s.served, s.toServer);
    AnswersBelow(s);
    SimulatorOutcome(s.wire, s.history, s.log, s.served, s.toServer, x, t, answer);
    var (x', outcome) := HandleSimulator(x, t.packet, answer);
    ServeKeepsRest(s, AtSimulator(x'), outcome);
  }

  // --- The bridge receives a packet ---

  // A packet that matches the exchange in progress belongs to it, not to an earlier use of the identifier.
  lemma MatchingIsCurrent(s: System)
    requires OutsideInv(s) && s.active && s.toClient != []
    requires Matches(s.requestId, s.history[|s.history| - 1].opcode, s.wire.sessionId, s.toClient[0].packet)
    ensures s.toClient[0].n == |s.history|
    ensures Carries(s.wire, s.log, Tagged(|s.history|, s.toClient[0].packet))
  {
    var t := s.toClient[0];
    assert ReplyInFlight(s.wire, s.history, s.log, t);
    AnswersBelow(s);
    if Carries(s.wire, s.log, t) {
      var i :| 0 <= i < |s.log| && s.log[i].n == t.n && t.packet in ReplyPackets(s.wire, t.n, s.log[i].reply);
      ReplyPacketFacts(s.wire, s.history, s.log[i], t.packet);
    }
    if t.n < |s.history| {
      NearIdsDiffer(s.wire.base, t.n, |s.history|);
    }
  }

  lemma ReplyPacketFacts(w: Wire, history: seq<Request>, d: Dispatch, p: Packet)
    requires w.Valid() && Genuine(w, history, d) && p in ReplyPackets(w, d.n, d.reply)
    ensures p.Valid() && p.kind == d.reply.kind && p.requestId == WireId(w.base, d.n)
    ensures p.count == |ReplyPackets(w, d.n, d.reply)| && p == ReplyPackets(w, d.n, d.reply)[p.index]
  {
    FragmentsAreAlike(w.replySize, d.reply.kind, d.reply.opcode, w.sessionId, WireId(w.base, d.n), d.reply.payload);
  }

  // The answer to the request in progress is recorded.
  lemma AnswerRecorded(s: System, n: nat, results: seq<Returned>)
    requires AnswersInv(s.answers, s.results, s.log) && InLog(s.log, n) && LastAnswer(s.answers) < n
    requires results == s.results
      || exists payload :: Replied(s.log, n, payload) && results == s.results + [Returned(n, payload)]
    ensures AnswersInv(s.answers + [n], results, s.log)
  {
  }

  lemma RepliesLeft(w: Wire, history: seq<Request>, log: seq<Dispatch>, oldest: nat, served: nat, c: seq<Tagged>)
    requires c != [] && ReplyChannelInv(w, history, log, oldest, served, c)
    ensures ReplyChannelInv(w, history, log, oldest, served, c[1..])
    ensures ReplyChannelInv(w, history, log, c[0].n, served, c[1..])
  {
  }

  // Storing one more fragment of a message in a set of its fragments.
  lemma StorePart(values: seq<Packet>, p: Packet, whole: seq<Packet>)
    requires PartOf(values, whole) && p.index < |whole| && p == whole[p.index]
    ensures PartOf(Store(values, p), whole)
  {
  }

  // What the bridge has collected of one reply, the new packet included.
  lemma CollectsOwn(s: System, received: seq<Packet>, i: nat)
    requires OutsideInv(s) && s.active && s.toClient != []
    requires i < |s.log| && s.log[i].n == |s.history| && s.log[i].reply.kind == RESPONSE
    requires s.toClient[0].packet in ReplyPackets(s.wire, |s.history|, s.log[i].reply)
    requires received == Store(s.received, s.toClient[0].packet)
    ensures Collected(s.wire, |s.history|, s.log, received, i)
    ensures |received| == s.toClient[0].packet.count ==> Reassemble(received) == Ok(s.log[i].reply.payload)
  {
    var n, d := |s.history|, s.log[i];
    ReplyPacketFacts(s.wire, s.history, d, s.toClient[0].packet);
    var whole := ReplyPackets(s.wire, n, d.reply);
    if s.received != [] {
      var j :| Collected(s.wire, n, s.log, s.received, j);
      assert j == i;
    }
    StorePart(s.received, s.toClient[0].packet, whole);
    ReassembleFragments(received, s.wire.replySize, d.reply.kind, d.reply.opcode, s.wire.sessionId,
                        WireId(s.wire.base, n), d.reply.payload);
  }

  // The exchange ended with an answer: an error raised, or a payload returned.
  lemma EndedKeepsInv(s: System, s': System, n: nat)
    requires OutsideInv(s) && s.active && s.toClient != [] && n == |s.history|
    requires s.toClient[0].n == n && InLog(s.log, n)
    requires s' == s.(toClient := s.toClient[1..], active := false, received := s'.received,
                      answers := s.answers + [n], results := s'.results)
    requires s'.results == s.results
      || exists payload :: Replied(s.log, n, payload) && s'.results == s.results + [Returned(n, payload)]
    ensures OutsideInv(s')
  {
    RepliesLeft(s.wire, s.history, s.log, LastAnswer(s.answers), s.served, s.toClient);
    AnswerRecorded(s, n, s'.results);
  }

  lemma ContinuesKeepsInv(s: System, s': System)
    requires OutsideInv(s) && s.active && s.toClient != []
    requires s' == s.(toClient := s.toClient[1..], received := s'.received)
    requires ReceivedInv(s.wire, |s.history|, s.log, s'.received)
    ensures OutsideInv(s')
  {
    RepliesLeft(s.wire, s.history, s.log, LastAnswer(s.answers), s.served, s.toClient);
  }

  // A fragment of the reply is kept while others are missing; with the last one the payload is returned.
  lemma FragmentVerdict(s: System, stored: seq<Packet>, payload: bytes)
    requires s.toClient != [] && s.history != []
    requires stored == Store(s.received, s.toClient[0].packet)
    requires Matches(s.requestId, s.history[|s.history| - 1].opcode, s.wire.sessionId, s.toClient[0].packet)
    requires s.toClient[0].packet.kind == RESPONSE
    requires |stored| == s.toClient[0].packet.count ==> Reassemble(stored) == Ok(payload)
    ensures ReceiveStep(s) ==
      if |stored| == s.toClient[0].packet.count
      then s.(toClient := s.toClient[1..], active := false, answers := s.answers + [|s.history|],
              results := s.results + [Returned(|s.history|, payload)])
      else s.(toClient := s.toClient[1..], received := stored)
  {
    hide Matches, Store, Reassemble;
  }

  lemma FragmentKeepsOutside(s: System, i: nat)
    requires OutsideInv(s) && s.active && s.toClient != [] && s.toClient[0].n == |s.history|
    requires i < |s.log| && s.log[i].n == |s.history| && s.log[i].reply.kind == RESPONSE
    requires s.toClient[0].packet.kind == RESPONSE
    requires s.toClient[0].packet in ReplyPackets(s.wire, |s.history|, s.log[i].reply)
    requires Matches(s.requestId, s.history[|s.history| - 1].opcode, s.wire.sessionId, s.toClient[0].packet)
    ensures OutsideInv(ReceiveStep(s))
  {
    hide ReplyPackets, Collected, Consider, Store, Reassemble, Matches, LogInv, AnswersInv, RequestChannelInv,
      ReplyChannelInv, ReceiveStep;
    var n, p, payload := |s.history|, s.toClient[0].packet, s.log[i].reply.payload;
    var stored := Store(s.received, p);
    CollectsOwn(s, stored, i);
    FragmentVerdict(s, stored, payload);
    if |stored| == p.count {
      assert Replied(s.log, n, payload) && InLog(s.log, n);
      EndedKeepsInv(s, ReceiveStep(s), n);
    } else {
      ContinuesKeepsInv(s, ReceiveStep(s));
    }
  }

  // Which packets the bridge ignores, and what raises.
  lemma OtherVerdicts(s: System)
    requires s.toClient != [] && s.history != []
    ensures var p := s.toClient[0].packet;
      var mine := Matches(s.requestId, s.history[|s.history| - 1].opcode, s.wire.sessionId, p);
      && (!mine ==> ReceiveStep(s) == s.(toClient := s.toClient[1..]))
      && (mine && p.kind == ERROR ==>
            ReceiveStep(s) == s.(toClient := s.toClient[1..], active := false, answers := s.answers + [|s.history|]))
  {
    hide Matches, Store, Reassemble;
  }

  lemma ReceiveKeepsOutside(s: System)
    requires OutsideInv(s) && s.active && s.toClient != []
    ensures OutsideInv(ReceiveStep(s))
  {
    var n, p := |s.history|, s.toClient[0].packet;
    OtherVerdicts(s);
    if !Matches(s.requestId, s.history[n - 1].opcode, s.wire.sessionId, p) {
      ContinuesKeepsInv(s, ReceiveStep(s));
    } else {
      MatchingIsCurrent(s);
      assert s.wire.replySize > 0;
      var i :| 0 <= i < |s.log| && s.log[i].n == n && p in ReplyPackets(s.wire, n, s.log[i].reply);
      ReplyPacketFacts(s.wire, s.history, s.log[i], p);
      hide ReceiveStep, ReplyPackets, Matches, AnswersInv, RequestChannelInv, ReplyChannelInv, ReceivedInv;
      if p.kind == ERROR {
        assert InLog(s.log, n);
        EndedKeepsInv(s, ReceiveStep(s), n);
      } else {
        FragmentKeepsOutside(s, i);
      }
    }
  }

  lemma ReceiveTouches(s: System)
    requires s.toClient != [] && s.history != []
    ensures var s' := ReceiveStep(s);
      && s'.wire == s.wire && s'.history == s.history && s'.log == s.log && s'.served == s.served
      && s'.holding == s.holding && s'.endpoint == s.endpoint && s'.toServer == s.toServer
  {
  }

  /** The bridge takes a packet: it ignores it, keeps a fragment, raises, or returns the reply. */
  lemma ReceiveKeepsInv(s: System)
    requires OutsideInv(s) && EndpointInv(s) && s.active && s.toClient != []
    ensures OutsideInv(ReceiveStep(s)) && EndpointInv(ReceiveStep(s))
  {
    hide OutsideInv, ReceiveStep, SimulatorInv, AgentInv;
    ReceiveKeepsOutside(s);
    ActiveHasHistory(s);
    ReceiveTouches(s);
  }

  lemma ActiveHasHistory(s: System)
    requires OutsideInv(s) && s.active
    ensures s.history != []
  {
  }

  // --- Whole runs ---

  lemma StepKeepsInv(s: System, e: Event)
    requires Inv(s) && Enabled(s, e) && (e.Issue? ==> MayIssue(s, e.request))
    ensures Inv(Step(s, e))
  {
    match e
    case Issue(request) => IssueKeepsInv(s, request);
    case Transmit => TransmitKeepsInv(s);
    case Timeout => TimeoutKeepsInv(s);
    case Serve(answer) =>
      match s.endpoint {
        case AtSimulator(x) => SimulatorServes(s, x, answer);
        case AtAgent(a) => AgentServes(s, a, answer);
      }
    case Receive => ReceiveKeepsInv(s);
    case _ => ChannelStepKeepsInv(s, e);
  }

  lemma TimeoutKeepsInv(s: System)
    requires Inv(s)
    ensures Inv(s.(active := false))
  {
  }

  lemma {:induction false} RunKeepsInv(s: System, events: seq<Event>)
    requires Inv(s) && Legal(s, events)
    ensures Inv(Run(s, events))
    decreases |events|
  {
    if events != [] {
      StepKeepsInv(s, events[0]);
      RunKeepsInv(Step(s, events[0]), events[1..]);
    }
  }

  // Each request at most once, in the order of issue, with its own operation and bytes.
  ghost predicate DispatchedOnceInOrder(s: System) {
    && (forall i, j :: 0 <= i < j < |s.log| ==> s.log[i].n < s.log[j].n)
    && (forall i :: 0 <= i < |s.log| ==>
          var d := s.log[i];
          1 <= d.n <= |s.history| && s.history[d.n - 1] == Request(d.opcode, d.payload))
  }

  // Every payload handed back is the reply of the dispatch of the request it was returned for.
  ghost predicate ReturnsOwnReplies(s: System) {
    forall k :: 0 <= k < |s.results| ==> Replied(s.log, s.results[k].n, s.results[k].payload)
  }

  // Every error raised and every payload handed back was sent in reply to the request it answered.
  ghost predicate AnsweredByOwn(s: System) {
    forall i :: 0 <= i < |s.answers| ==> InLog(s.log, s.answers[i])
  }

  ghost predicate Safe(s: System) {
    DispatchedOnceInOrder(s) && AnsweredByOwn(s) && ReturnsOwnReplies(s)
  }

  /**
   End to end, over every run a bridge can have with either target: each request is
   dispatched at most once, in order, and with its own operation and bytes; none is refused
   as a repetition; and whatever `_request` returned is the reply of that request's dispatch.
   */
  lemma StopAndWaitIsSafe(s: System, events: seq<Event>)
    requires Initial(s) && Legal(s, events)
    ensures DispatchedOnceInOrder(Run(s, events))
    ensures AnsweredByOwn(Run(s, events)) && ReturnsOwnReplies(Run(s, events))
    ensures Run(s, events).refusals == []
  {
    InitialInv(s);
    RunKeepsInv(s, events);
    InvIsSafe(Run(s, events));
  }

  lemma InvIsSafe(s: System)
    requires OutsideInv(s)
    ensures Safe(s) && s.refusals == []
  {
    forall i | 0 <= i < |s.log|
      ensures var d := s.log[i];
        1 <= d.n <= |s.history| && s.history[d.n - 1] == Request(d.opcode, d.payload)
    {
      assert Genuine(s.wire, s.history, s.log[i]);
    }
  }

  lemma ReturnMeans(s: System)
    requires s.toClient != [] && s.history != [] && ReceiveStep(s).results != s.results
    ensures var p := s.toClient[0].packet;
      && Matches(s.requestId, s.history[|s.history| - 1].opcode, s.wire.sessionId, p) && p.kind == RESPONSE
      && |Store(s.received, p)| == p.count && Reassemble(Store(s.received, p)).Ok?
      && ReceiveStep(s).results == s.results + [Returned(|s.history|, Reassemble(Store(s.received, p)).value)]
  {
  }

  lemma CurrentIsNewest(s: System, i: nat)
    requires LogInv(s) && i < |s.log| && s.log[i].n == |s.history|
    ensures i == |s.log| - 1
  {
    assert s.log[|s.log| - 1].n <= s.served;
  }

  /**
   The moment a payload is returned, its request is the newest one dispatched: nothing was
   dispatched between a caller's own request and its return.
   */
  lemma ReturnedIsNewestDispatch(s: System)
    requires OutsideInv(s) && s.active && s.toClient != []
    requires ReceiveStep(s).results != s.results
    ensures s.log != [] && s.log[|s.log| - 1].n == |s.history|
    ensures ReceiveStep(s).results == s.results + [Returned(|s.history|, s.log[|s.log| - 1].reply.payload)]
  {
    var n, p := |s.history|, s.toClient[0].packet;
    ReturnMeans(s);
    MatchingIsCurrent(s);
    var i :| 0 <= i < |s.log| && s.log[i].n == n && p in ReplyPackets(s.wire, n, s.log[i].reply);
    ReplyPacketFacts(s.wire, s.history, s.log[i], p);
    CurrentIsNewest(s, i);
    CollectsOwn(s, Store(s.received, p), i);
  }
}
