/**
 Patience alone is not enough at the simulator. Two runs of a patient bridge, each losing no
 order, in which an identifier comes round while the simulator still holds something under
 it: a cached reply, which is then returned to the wrong caller, and one fragment of an
 abandoned request, which is then dispatched together with a fragment of the new one.
 */
module LinkRefutations {
  import opened Bytes
  import opened Wrappers
  import opened Packets
  import opened RequestIds
  import opened Sessions
  import opened Link
  import opened LinkPaths
  import opened LinkSafety

  const Probe := Request(PING, [])

  // Between exchanges, with nothing under way.
  ghost predicate Quiet(s: System) {
    !s.active && s.toServer == [] && s.toClient == [] && s.endpoint.AtSimulator?
    && s.wire.Valid() && s.wire.replySize == MAX_FRAGMENT_PAYLOAD && s.wire.replyLimit == MAX_FRAGMENTS
    && s.requestId == WireId(s.wire.base, |s.history|)
    && s.endpoint.simulator.sessionId == s.wire.sessionId
  }

  lemma ProbeIsOnePacket(w: Wire, history: seq<Request>, n: nat)
    requires 1 <= n <= |history| && history[n - 1] == Probe
    ensures RequestPackets(w, history, n) == [Packet(REQUEST, PING, w.sessionId, WireId(w.base, n), 0, 1, [])]
  {
    assert Slice(MAX_FRAGMENT_PAYLOAD, Probe.payload, 0) == [];
  }

  lemma SmallReplyIsOnePacket(w: Wire, n: nat, reply: Reply)
    requires w.replySize == MAX_FRAGMENT_PAYLOAD && |reply.payload| <= 1
    ensures ReplyPackets(w, n, reply) == [Packet(reply.kind, reply.opcode, w.sessionId, WireId(w.base, n), 0, 1, reply.payload)]
  {
    assert Slice(MAX_FRAGMENT_PAYLOAD, reply.payload, 0) == reply.payload;
  }

  lemma OnePacketReassembles(p: Packet)
    requires p.index == 0 && p.count == 1
    ensures Store([], p) == [p] && Reassemble([p]) == Ok(p.payload)
  {
    assert Holds([p], 0);
    assert JoinFound([p], 0) == [];
    assert Find([p], 0) == p;
    assert JoinFound([p], 1) == p.payload;
  }

  /** `k` probes in a row of which nothing arrives. */
  lemma {:induction false} Unanswered(s: System, k: nat) returns (t: System)
    requires Quiet(s) && |s.history| + k - LastAnswer(s.answers) <= 0x7FFE
    ensures Reaches(true, s, t) && Quiet(t)
    ensures |t.history| == |s.history| + k && t.history[..|s.history|] == s.history
    ensures t.wire == s.wire && t.answers == s.answers && t.results == s.results
    ensures t.endpoint == s.endpoint && t.log == s.log
  {
    if k == 0 {
      ReachesItself(true, s);
      t := s;
    } else {
      var r := Unanswered(s, k - 1);
      ReachesStep(true, s, r, Issue(Probe));
      var r1 := Step(r, Issue(Probe));
      ReachesStep(true, s, r1, Timeout);
      t := Step(r1, Timeout);
      assert t.history == r.history + [Probe];
    }
  }

  // The bridge after a probe was answered with a packet of this payload, whoever it was meant for.
  ghost predicate ProbeReturned(s: System, t: System, payload: bytes) {
    && Quiet(t) && t.wire == s.wire
    && t.history == s.history + [Probe]
    && t.answers == s.answers + [|s.history| + 1]
    && t.results == s.results + [Returned(|s.history| + 1, payload)]
  }

  lemma ProbeSent(s: System) returns (t: System)
    requires Quiet(s) && Patient(s)
    ensures Reaches(true, s, t)
    ensures t == s.(history := s.history + [Probe], requestId := WireId(s.wire.base, |s.history| + 1), active := true,
                    received := [], toServer := t.toServer)
    ensures t.toServer == [Tagged(|s.history| + 1,
      Packet(REQUEST, PING, s.wire.sessionId, WireId(s.wire.base, |s.history| + 1), 0, 1, []))]
  {
    ReachesOne(true, s, Issue(Probe));
    var s1 := Step(s, Issue(Probe));
    ReachesStep(true, s, s1, Transmit);
    t := Step(s1, Transmit);
    ProbeIsOnePacket(s1.wire, s1.history, |s1.history|);
    assert t.toServer == TagAll(|s1.history|, RequestPackets(s1.wire, s1.history, |s1.history|));
  }

  lemma ProbeReceived(s: System, s3: System, payload: bytes)
    requires s.requestId == WireId(s.wire.base, |s.history|) && s3.wire == s.wire
    requires s3.active && s3.received == [] && s3.toServer == [] && s3.endpoint.AtSimulator?
    requires s3.endpoint.simulator.sessionId == s3.wire.sessionId
    requires s3.wire.Valid() && s3.wire.replySize == MAX_FRAGMENT_PAYLOAD && s3.wire.replyLimit == MAX_FRAGMENTS
    requires s3.history == s.history + [Probe] && s3.requestId == WireId(s.wire.base, |s.history| + 1)
    requires s3.answers == s.answers && s3.results == s.results
    requires s3.toClient == [Tagged(|s3.history|,
      Packet(RESPONSE, PING, s3.wire.sessionId, s3.requestId, 0, 1, payload))]
    ensures ProbeReturned(s, Step(s3, Receive), payload)
    ensures Step(s3, Receive).endpoint == s3.endpoint && Step(s3, Receive).log == s3.log
  {
    OnePacketReassembles(s3.toClient[0].packet);
  }

  /** A probe answered by its own dispatch. */
  lemma ProbeAnswered(s: System, value: bytes) returns (t: System)
    requires Quiet(s) && Patient(s) && |value| <= 1
    requires var x, id := s.endpoint.simulator, WireId(s.wire.base, |s.history| + 1);
      && !InCache(x.cache, id) && (x.last.Some? ==> RequestIsNewer(id, x.last.value))
      && |x.pending| < PENDING_LIMIT && forall i :: 0 <= i < |x.pending| ==> x.pending[i].id != id
    ensures Reaches(true, s, t) && ProbeReturned(s, t, value)
    ensures var x, id := s.endpoint.simulator, WireId(s.wire.base, |s.history| + 1);
      t.endpoint == AtSimulator(Record(x, id, Reply(RESPONSE, PING, value)))
    ensures |t.log| == |s.log| + 1 && t.log[|s.log|].n == |s.history| + 1 && t.log[..|s.log|] == s.log
  {
    var s2 := ProbeSent(s);
    t := ProbeServed(s, s2, value);
    ReachesBoth(true, s, s2, t);
  }

  // The rest of it, from the probe on its way.
  lemma ProbeServed(s: System, s2: System, value: bytes) returns (t: System)
    requires Quiet(s) && |value| <= 1
    requires s2 == s.(history := s.history + [Probe], requestId := WireId(s.wire.base, |s.history| + 1), active := true,
                      received := [], toServer := s2.toServer)
    requires s2.toServer == [Tagged(|s.history| + 1,
      Packet(REQUEST, PING, s.wire.sessionId, WireId(s.wire.base, |s.history| + 1), 0, 1, []))]
    requires var x, id := s.endpoint.simulator, WireId(s.wire.base, |s.history| + 1);
      && !InCache(x.cache, id) && (x.last.Some? ==> RequestIsNewer(id, x.last.value))
      && |x.pending| < PENDING_LIMIT && forall i :: 0 <= i < |x.pending| ==> x.pending[i].id != id
    ensures Reaches(true, s2, t) && ProbeReturned(s, t, value)
    ensures var x, id := s.endpoint.simulator, WireId(s.wire.base, |s.history| + 1);
      t.endpoint == AtSimulator(Record(x, id, Reply(RESPONSE, PING, value)))
    ensures |t.log| == |s.log| + 1 && t.log[|s.log|].n == |s.history| + 1 && t.log[..|s.log|] == s.log
  {
    assert FragmentCount(MAX_FRAGMENT_PAYLOAD, |value|) == 1;
    hide Record, RequestIsNewer, InCache, Fragment, FragmentCount, WireId, Reaches;
    var x, p, answer := s.endpoint.simulator, s2.toServer[0].packet, Answer(RESPONSE, value, map[]);
    var reply := Reply(RESPONSE, PING, value);
    SmallReplyIsOnePacket(s.wire, |s.history| + 1, reply);
    FreshProbe(x, p, answer);
    ReachesOne(true, s2, Serve(answer));
    var s3 := Step(s2, Serve(answer));
    assert s3.toClient == TagAll(|s.history| + 1, ReplyPackets(s.wire, |s.history| + 1, reply));
    ProbeReceived(s, s3, value);
    ReachesStep(true, s2, s3, Receive);
    t := Step(s3, Receive);
  }

  lemma FreshProbe(x: Simulator, p: Packet, answer: Answer)
    requires p.kind == REQUEST && p.sessionId == x.sessionId && p.index == 0 && p.count == 1
    requires !InCache(x.cache, p.requestId) && (x.last.Some? ==> RequestIsNewer(p.requestId, x.last.value))
    requires |x.pending| < PENDING_LIMIT && forall i :: 0 <= i < |x.pending| ==> x.pending[i].id != p.requestId
    ensures HandleSimulator(x, p, answer)
      == (Record(x, p.requestId, Reply(answer.kind, p.opcode, answer.payload)),
          Dispatched(p.opcode, p.payload, Reply(answer.kind, p.opcode, answer.payload)))
  {
    OnePacketReassembles(p);
    assert Position(x.pending, p.requestId) == |x.pending|;
    var pending := x.pending + [Pending(p.requestId, [])];
    assert Admit(x.pending, p.requestId) == pending;
    assert Position(pending, p.requestId) == |x.pending|;
    assert pending[..|x.pending|] + pending[|x.pending| + 1..] == x.pending;
  }

  /** A probe answered from the cache, whatever the cached reply was for. */
  lemma ProbeAnsweredFromCache(s: System, value: bytes) returns (t: System)
    requires Quiet(s) && Patient(s) && |value| <= 1
    requires var x, id := s.endpoint.simulator, WireId(s.wire.base, |s.history| + 1);
      InCache(x.cache, id) && Lookup(x.cache, id) == Reply(RESPONSE, PING, value)
    ensures Reaches(true, s, t) && ProbeReturned(s, t, value) && t.log == s.log
  {
    var s2 := ProbeSent(s);
    t := ProbeResent(s, s2, value);
    ReachesBoth(true, s, s2, t);
  }

  lemma ProbeResent(s: System, s2: System, value: bytes) returns (t: System)
    requires Quiet(s) && |value| <= 1
    requires s2 == s.(history := s.history + [Probe], requestId := WireId(s.wire.base, |s.history| + 1), active := true,
                      received := [], toServer := s2.toServer)
    requires s2.toServer == [Tagged(|s.history| + 1,
      Packet(REQUEST, PING, s.wire.sessionId, WireId(s.wire.base, |s.history| + 1), 0, 1, []))]
    requires var x, id := s.endpoint.simulator, WireId(s.wire.base, |s.history| + 1);
      InCache(x.cache, id) && Lookup(x.cache, id) == Reply(RESPONSE, PING, value)
    ensures Reaches(true, s2, t) && ProbeReturned(s, t, value) && t.log == s.log
  {
    var answer, reply := Answer(RESPONSE, [], map[]), Reply(RESPONSE, PING, value);
    assert FragmentCount(MAX_FRAGMENT_PAYLOAD, |answer.payload|) == 1;
    hide Record, RequestIsNewer, InCache, Lookup, Fragment, FragmentCount, WireId, Reaches;
    SmallReplyIsOnePacket(s.wire, |s.history| + 1, reply);
    ReachesOne(true, s2, Serve(answer));
    var s3 := Step(s2, Serve(answer));
    assert s3.toClient == TagAll(|s.history| + 1, ReplyPackets(s.wire, |s.history| + 1, reply));
    ProbeReceived(s, s3, value);
    ReachesStep(true, s2, s3, Receive);
    t := Step(s3, Receive);
  }

  // A simulator that answered the requests `m` and cached their replies.
  ghost predicate Answered3(s: System, m: seq<nat>, replies: seq<Reply>) {
    && |m| == |replies| == |s.log| <= 3
    && (forall i :: 0 <= i < |m| ==> s.log[i].n == m[i])
    && s.endpoint.AtSimulator?
    && var x := s.endpoint.simulator;
      && x.pending == []
      && x.cache == seq(|m|, i requires 0 <= i < |m| => Cached(WireId(s.wire.base, m[i]), replies[i]))
      && x.last == if m == [] then None else Some(WireId(s.wire.base, m[|m| - 1]))
  }

  lemma AnswerNext(s: System, m: seq<nat>, replies: seq<Reply>, value: bytes) returns (t: System)
    requires Quiet(s) && Patient(s) && |value| <= 1 && Answered3(s, m, replies) && |m| < 3
    requires forall i :: 0 <= i < |m| ==> |s.history| + 1 - 65535 < m[i] <= |s.history|
    requires m != [] ==> |s.history| + 1 - m[|m| - 1] <= 0x7FFE
    ensures Reaches(true, s, t) && ProbeReturned(s, t, value)
    ensures Answered3(t, m + [|s.history| + 1], replies + [Reply(RESPONSE, PING, value)])
  {
    var n, x := |s.history| + 1, s.endpoint.simulator;
    forall i | 0 <= i < |m|
      ensures x.cache[i].id != WireId(s.wire.base, n)
    {
      NearIdsDiffer(s.wire.base, m[i], n);
    }
    if m != [] {
      NewerWithinHalfRange(s.wire.base, m[|m| - 1], n);
    }
    t := ProbeAnswered(s, value);
    var reply := Reply(RESPONSE, PING, value);
    var m' := m + [n];
    var replies' := replies + [reply];
    assert x.cache + [Cached(WireId(s.wire.base, n), reply)]
      == seq(|m'|, i requires 0 <= i < |m'| => Cached(WireId(s.wire.base, m'[i]), replies'[i]));
  }

  // `k` lost probes and then an answered one.
  lemma AnswerLater(start: System, s: System, k: nat, m: seq<nat>, replies: seq<Reply>, value: bytes) returns (t: System)
    requires Reaches(true, start, s) && Quiet(s) && |value| <= 1 && Answered3(s, m, replies) && |m| < 3
    requires |s.history| + k + 1 - LastAnswer(s.answers) <= 0x7FFE
    requires forall i :: 0 <= i < |m| ==> |s.history| + k + 1 - 65535 < m[i] <= |s.history|
    requires m != [] ==> m[|m| - 1] == LastAnswer(s.answers)
    ensures Reaches(true, start, t) && Quiet(t) && t.wire == s.wire
    ensures |t.history| == |s.history| + k + 1 == LastAnswer(t.answers)
    ensures Answered3(t, m + [|t.history|], replies + [Reply(RESPONSE, PING, value)])
  {
    var u := Unanswered(s, k);
    assert Answered3(u, m, replies);
    t := AnswerNext(u, m, replies, value);
    ReachesBoth(true, start, s, u);
    ReachesBoth(true, start, u, t);
  }

  // With the reply of the first identifier still cached, its next use is handed that reply.
  lemma WrappedProbe(s: System, m: seq<nat>, replies: seq<Reply>, value: bytes) returns (t: System)
    requires Quiet(s) && Patient(s) && |value| <= 1 && Answered3(s, m, replies) && m != []
    requires replies[0] == Reply(RESPONSE, PING, value)
    requires |s.history| + 1 == m[0] + 65535 && forall i :: 0 <= i < |m| ==> m[i] <= |s.history|
    ensures Reaches(true, s, t) && !ReturnsOwnReplies(t)
  {
    var n, x := |s.history| + 1, s.endpoint.simulator;
    SameIdExactly(s.wire.base, m[0], n);
    assert x.cache[0] == Cached(WireId(s.wire.base, n), replies[0]);
    t := ProbeAnsweredFromCache(s, value);
    assert t.results[|t.results| - 1] == Returned(n, value);
    assert !Replied(t.log, n, value);
  }

  /**
   Three answers among the first 65535 requests leave the first reply cached; request 65536
   carries the first identifier again and is handed that reply.
   */
  lemma StaleReplyReturned(s: System)
    requires Initial(s) && Quiet(s)
    ensures exists t :: Reaches(true, s, t) && !ReturnsOwnReplies(t)
  {
    ReachesItself(true, s);
    var t1 := AnswerLater(s, s, 0, [], [], [1]);
    var m1, a1 := [] + [|t1.history|], [] + [Reply(RESPONSE, PING, [1])];
    var t2 := AnswerLater(s, t1, 0x7FFD, m1, a1, [2]);
    StaleFrom(s, t2, m1 + [|t2.history|], a1 + [Reply(RESPONSE, PING, [2])]);
  }

  lemma StaleFrom(start: System, s: System, m: seq<nat>, replies: seq<Reply>)
    requires Reaches(true, start, s) && Quiet(s) && Answered3(s, m, replies)
    requires m == [1, 0x7FFF] && replies[0] == Reply(RESPONSE, PING, [1])
    requires |s.history| == LastAnswer(s.answers) == m[1]
    ensures exists t :: Reaches(true, start, t) && !ReturnsOwnReplies(t)
  {
    var t3 := AnswerLater(start, s, 0x7FFD, m, replies, [3]);
    var m3, a3 := m + [|t3.history|], replies + [Reply(RESPONSE, PING, [3])];
    var u := Unanswered(t3, 2);
    ReachesBoth(true, start, t3, u);
    assert Answered3(u, m3, a3);
    var t := WrappedProbe(u, m3, a3, [1]);
    ReachesBoth(true, start, u, t);
  }

  // --- A fragment left behind ---

  function Fill(n: nat, b: byte): (r: bytes)
    ensures |r| == n && forall i :: 0 <= i < n ==> r[i] == b
  {
    seq(n, _ => b)
  }

  function LongRequest(b: byte): Request {
    Request(SEND_KEYS, Fill(2048, b))
  }

  function LongPacket(w: Wire, n: nat, b: byte, i: nat): Packet {
    Packet(REQUEST, SEND_KEYS, w.sessionId, WireId(w.base, n), i, 2, Fill(1024, b))
  }

  lemma LongIsTwoPackets(w: Wire, history: seq<Request>, n: nat, b: byte)
    requires 1 <= n <= |history| && history[n - 1] == LongRequest(b)
    ensures RequestPackets(w, history, n) == [LongPacket(w, n, b, 0), LongPacket(w, n, b, 1)]
  {
    var payload := LongRequest(b).payload;
    assert Slice(MAX_FRAGMENT_PAYLOAD, payload, 0) == payload[0..1024] == Fill(1024, b);
    assert Slice(MAX_FRAGMENT_PAYLOAD, payload, 1) == payload[1024..2048] == Fill(1024, b);
  }

  lemma LongSent(s: System, b: byte) returns (t: System)
    requires Quiet(s) && Patient(s)
    ensures Reaches(true, s, t)
    ensures t == s.(history := s.history + [LongRequest(b)], requestId := WireId(s.wire.base, |s.history| + 1),
                    active := true, received := [], toServer := t.toServer)
    ensures t.toServer == [Tagged(|s.history| + 1, LongPacket(s.wire, |s.history| + 1, b, 0)),
                           Tagged(|s.history| + 1, LongPacket(s.wire, |s.history| + 1, b, 1))]
  {
    ReachesOne(true, s, Issue(LongRequest(b)));
    var s1 := Step(s, Issue(LongRequest(b)));
    ReachesStep(true, s, s1, Transmit);
    t := Step(s1, Transmit);
    LongIsTwoPackets(s1.wire, s1.history, |s1.history|, b);
    assert t.toServer == TagAll(|s1.history|, RequestPackets(s1.wire, s1.history, |s1.history|));
  }

  lemma FirstOfTwo(x: Simulator, p: Packet, answer: Answer)
    requires p.kind == REQUEST && p.sessionId == x.sessionId && p.count == 2
    requires x.last == None && x.cache == [] && x.pending == []
    ensures HandleSimulator(x, p, answer) == (x.(pending := [Pending(p.requestId, [p])]), Silent)
  {
    var empty := Pending(p.requestId, []);
    assert Store([], p) == [p];
    hide Store, Reassemble, Record, SimulatorRefusal, RequestIsNewer;
    assert Admit([], p.requestId) == [empty] && Position([empty], p.requestId) == 0;
    assert [empty][0 := Pending(p.requestId, [p])] == [Pending(p.requestId, [p])];
  }

  /** The first request loses its second fragment and is given up. */
  lemma HalfArrives(s: System) returns (t: System)
    requires Initial(s) && Quiet(s)
    ensures Reaches(true, s, t) && Quiet(t) && t.wire == s.wire && |t.history| == 1 && t.answers == [] && t.log == []
    ensures t.endpoint == AtSimulator(Simulator(s.wire.sessionId, None, [],
      [Pending(WireId(s.wire.base, 1), [LongPacket(s.wire, 1, 0, 0)])]))
  {
    var s2 := LongSent(s, 0);
    ReachesStep(true, s, s2, LoseRequest(1));
    var s3 := Step(s2, LoseRequest(1));
    assert s3.toServer == [s2.toServer[0]];
    var answer := Answer(RESPONSE, [], map[]);
    ReachesStep(true, s, s3, Serve(answer));
    var s4 := Step(s3, Serve(answer));
    FirstOfTwo(s.endpoint.simulator, LongPacket(s.wire, 1, 0, 0), answer);
    ReachesStep(true, s, s4, Timeout);
    t := Step(s4, Timeout);
  }

  // A fragment of request 1 is still pending; the newest reply is that of request `last`.
  ghost predicate LeftBehind(s: System, cached: seq<nat>) {
    && Quiet(s) && |s.log| == |cached| <= 3
    && LastAnswer(s.answers) == (if cached == [] then 0 else cached[|cached| - 1])
    && var x := s.endpoint.simulator;
      && x.pending == [Pending(WireId(s.wire.base, 1), [LongPacket(s.wire, 1, 0, 0)])]
      && |x.cache| == |cached|
      && (forall i :: 0 <= i < |cached| ==> x.cache[i].id == WireId(s.wire.base, cached[i]))
      && x.last == if cached == [] then None else Some(WireId(s.wire.base, cached[|cached| - 1]))
  }

  lemma Unnoticed(s: System, cached: seq<nat>, n: nat)
    requires LeftBehind(s, cached) && n - LastAnswer(s.answers) <= 0x7FFE
    requires forall i :: 0 <= i < |cached| ==> n - 65535 < cached[i] < n
    ensures var x, id := s.endpoint.simulator, WireId(s.wire.base, n);
      !InCache(x.cache, id) && (x.last.Some? ==> RequestIsNewer(id, x.last.value))
  {
    forall i | 0 <= i < |cached|
      ensures s.endpoint.simulator.cache[i].id != WireId(s.wire.base, n)
    {
      NearIdsDiffer(s.wire.base, cached[i], n);
    }
    if cached != [] {
      NewerWithinHalfRange(s.wire.base, cached[|cached| - 1], n);
    }
  }

  // `k` lost probes and an answered one pass by the fragment.
  lemma PassesBy(s: System, k: nat, cached: seq<nat>) returns (t: System)
    requires LeftBehind(s, cached) && |cached| < 3
    requires |s.history| + k + 1 - LastAnswer(s.answers) <= 0x7FFE
    requires 1 <= |s.history| && |s.history| + k + 1 < 65536
    requires forall i :: 0 <= i < |cached| ==> 1 <= cached[i] <= |s.history|
    ensures Reaches(true, s, t) && t.wire == s.wire && |t.history| == |s.history| + k + 1
    ensures LeftBehind(t, cached + [|t.history|])
  {
    var u := Unanswered(s, k);
    var n := |u.history| + 1;
    assert LeftBehind(u, cached);
    Unnoticed(u, cached, n);
    NearIdsDiffer(s.wire.base, 1, n);
    t := ProbeAnswered(u, []);
    ReachesBoth(true, s, u, t);
  }

  lemma AcceptsMixture(x: Simulator, left: Packet, p: Packet, answer: Answer)
    requires x.pending == [Pending(p.requestId, [left])] && x.sessionId == p.sessionId && p.kind == REQUEST
    requires left.SameMessage(p) && left.index == 0 && p.index == 1 && p.count == 2
    requires !InCache(x.cache, p.requestId) && (x.last.Some? ==> RequestIsNewer(p.requestId, x.last.value))
    ensures HandleSimulator(x, p, answer).1
      == Dispatched(p.opcode, left.payload + p.payload, Reply(answer.kind, p.opcode, answer.payload))
  {
    assert Admit(x.pending, p.requestId) == x.pending && Position(x.pending, p.requestId) == 0;
    assert Store([], p) == [p];
    assert [left][1..] == [];
    assert Store([left], p) == [left, p];
    MixtureReassembles(left, p);
  }

  lemma MixtureServed(s: System, left: Packet, answer: Answer)
    requires Enabled(s, Serve(answer)) && s.endpoint.AtSimulator?
    requires HandleSimulator(s.endpoint.simulator, s.toServer[0].packet, answer).1
      == Dispatched(s.toServer[0].packet.opcode, left.payload + s.toServer[0].packet.payload,
                    Reply(answer.kind, s.toServer[0].packet.opcode, answer.payload))
    ensures var t := ServeStep(s, answer);
      && t.history == s.history && |t.log| == |s.log| + 1
      && t.log[|s.log|].n == s.toServer[0].n && t.log[|s.log|].payload == left.payload + s.toServer[0].packet.payload
  {
  }

  // The first fragment of a request is lost on the way.
  lemma SecondHalfSent(s: System, b: byte) returns (t: System)
    requires Quiet(s) && Patient(s)
    ensures Reaches(true, s, t)
    ensures t == s.(history := s.history + [LongRequest(b)], requestId := WireId(s.wire.base, |s.history| + 1),
                    active := true, received := [],
                    toServer := [Tagged(|s.history| + 1, LongPacket(s.wire, |s.history| + 1, b, 1))])
  {
    var s2 := LongSent(s, b);
    ReachesStep(true, s, s2, LoseRequest(0));
    t := Step(s2, LoseRequest(0));
    assert t.toServer == [s2.toServer[1]];
  }

  // The other fragment of a request under the same identifier completes the abandoned one.
  lemma CompletesOld(s: System, cached: seq<nat>) returns (t: System)
    requires LeftBehind(s, cached) && |s.history| + 1 == 65536 && Patient(s)
    requires forall i :: 0 <= i < |cached| ==> 1 < cached[i] <= |s.history|
    ensures Reaches(true, s, t) && !DispatchedOnceInOrder(t)
  {
    var n, answer := |s.history| + 1, Answer(RESPONSE, [], map[]);
    var left, p := LongPacket(s.wire, n, 0, 0), LongPacket(s.wire, n, 1, 1);
    MixtureExpected(s, cached, n, answer);
    var s3 := SecondHalfSent(s, 1);
    hide LeftBehind, ServeStep, HandleSimulator, DispatchedOnceInOrder, Reaches, Patient, LastAnswer;
    ReachesStep(true, s, s3, Serve(answer));
    t := Step(s3, Serve(answer));
    MixtureServed(s3, left, answer);
    MixedLog(s, t, n, left, p);
  }

  lemma MixtureExpected(s: System, cached: seq<nat>, n: nat, answer: Answer)
    requires LeftBehind(s, cached) && n == |s.history| + 1 == 65536 && Patient(s)
    requires forall i :: 0 <= i < |cached| ==> 1 < cached[i] <= |s.history|
    ensures var left, p := LongPacket(s.wire, n, 0, 0), LongPacket(s.wire, n, 1, 1);
      HandleSimulator(s.endpoint.simulator, p, answer).1
        == Dispatched(p.opcode, left.payload + p.payload, Reply(answer.kind, p.opcode, answer.payload))
  {
    SameIdExactly(s.wire.base, 1, n);
    Unnoticed(s, cached, n);
    hide HandleSimulator, InCache, RequestIsNewer, LastAnswer, Patient;
    AcceptsMixture(s.endpoint.simulator, LongPacket(s.wire, n, 0, 0), LongPacket(s.wire, n, 1, 1), answer);
  }

  lemma MixedLog(s: System, t: System, n: nat, left: Packet, p: Packet)
    requires n == |s.history| + 1 && t.history == s.history + [LongRequest(1)]
    requires left.payload == Fill(1024, 0)
    requires |t.log| == |s.log| + 1 && t.log[|s.log|].n == n && t.log[|s.log|].payload == left.payload + p.payload
    ensures !DispatchedOnceInOrder(t)
  {
    assert t.history[n - 1] == LongRequest(1);
    assert (left.payload + p.payload)[0] == 0 && LongRequest(1).payload[0] == 1;
  }

  lemma MixtureReassembles(left: Packet, p: Packet)
    requires left.SameMessage(p) && left.index == 0 && p.index == 1 && p.count == 2
    ensures Reassemble([left, p]) == Ok(left.payload + p.payload)
  {
    var values := [left, p];
    assert Holds(values, 0) && Holds(values, 1);
    assert Find(values, 0) == left && Find(values, 1) == p;
    assert JoinFound(values, 0) == [];
    assert JoinFound(values, 1) == left.payload;
  }

  /**
   A request of two fragments of which one arrived is given up; 65535 requests later its
   identifier comes round, and the old fragment is dispatched as part of the new request.
   */
  lemma FragmentsMixed(s: System)
    requires Initial(s) && Quiet(s)
    ensures exists t :: Reaches(true, s, t) && !DispatchedOnceInOrder(t)
  {
    var t0 := HalfArrives(s);
    var m0: seq<nat> := [];
    var t1 := PassesBy(t0, 0x7FFC, m0);
    var m1 := m0 + [|t1.history|];
    ReachesBoth(true, s, t0, t1);
    var t2 := PassesBy(t1, 0x7FFD, m1);
    var m2 := m1 + [|t2.history|];
    ReachesBoth(true, s, t1, t2);
    var u := Unanswered(t2, 3);
    ReachesBoth(true, s, t2, u);
    var t := CompletesOld(u, m2);
    ReachesBoth(true, s, u, t);
  }
}
