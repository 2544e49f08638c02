/**
 Exactly when the next exchange can go wrong: at a quiet state and for any request, what the target
 holds under the new identifier decides. Where it may mix with the request, or be taken for its
 reply, there is a run that dispatches other bytes or answers with another request's reply; where
 it may not, there is none.
 */
module LinkHazards {
  import opened Bytes
  import opened Wrappers
  import opened Packets
  import opened RequestIds
  import opened Sessions
  import opened Link
  import opened LinkKnowledge
  import opened LinkPaths
  import opened LinkSafety

  // Between exchanges, with nothing under way.
  ghost predicate Idle(s: System) {
    !s.active && s.toServer == [] && s.toClient == []
  }

  // A request in progress, nothing of it on its way.
  ghost predicate Underway(s: System) {
    && s.active && s.toServer == [] && s.history != [] && s.wire.Valid()
    && Fits(s.history[|s.history| - 1])
  }

  function Own(s: System): (whole: seq<Packet>)
    requires s.history != []
    ensures whole != []
  {
    RequestPackets(s.wire, s.history, |s.history|)
  }

  const Plain := Answer(RESPONSE, [], map[])

  // --- One packet of the request arrives, and no other ---

  lemma {:induction false} LoseAllBut(s: System, j: nat)
    requires j < |s.toServer|
    ensures Reaches(false, s, s.(toServer := [s.toServer[j]]))
    decreases |s.toServer|
  {
    hide Reaches;
    var c := s.toServer;
    if |c| == 1 {
      assert c == [c[j]];
      ReachesItself(false, s);
    } else {
      var k := if j > 0 then 0 else |c| - 1;
      ReachesOne(false, s, LoseRequest(k));
      var s' := Step(s, LoseRequest(k));
      var j' := if j > 0 then j - 1 else j;
      RemoveElements(c, k);
      LoseAllBut(s', j');
      ReachesBoth(false, s, s', s.(toServer := [c[j]]));
    }
  }

  // The state after packet `j` of the request in progress was served, out of one transmission.
  function Served1(s: System, j: nat): System
    requires Underway(s) && j < |Own(s)|
  {
    ServeStep(s.(toServer := [Tagged(|s.history|, Own(s)[j])]), Plain)
  }

  lemma Deliver(s: System, j: nat)
    requires Underway(s) && j < |Own(s)|
    ensures Reaches(false, s, Served1(s, j))
  {
    hide Reaches, ServeStep, RequestPackets;
    var n := |s.history|;
    ReachesOne(false, s, Transmit);
    var s1 := Step(s, Transmit);
    assert s1.toServer == TagAll(n, Own(s));
    LoseAllBut(s1, j);
    var s2 := s1.(toServer := [s1.toServer[j]]);
    ReachesBoth(false, s, s1, s2);
    assert s2 == s.(toServer := [Tagged(n, Own(s)[j])]);
    assert Enabled(s2, Serve(Plain));
    ReachesStep(false, s, s2, Serve(Plain));
  }

  // --- A message with a part that is not its own is another message ---

  // The first `n` of `count` places are taken, every one but the last in full.
  ghost predicate Filled(parts: map<nat, bytes>, n: nat, count: nat) {
    forall k :: 0 <= k < n ==> k in parts && (k + 1 < count ==> |parts[k]| == MAX_FRAGMENT_PAYLOAD)
  }

  lemma {:induction false} PartsOnTheWay(parts: map<nat, bytes>, count: nat, n: nat, i: nat)
    requires i < n <= count && Filled(parts, n, count)
    ensures |JoinParts(parts, n)| == (n - 1) * MAX_FRAGMENT_PAYLOAD + |parts[n - 1]|
    ensures |parts[n - 1]| <= MAX_FRAGMENT_PAYLOAD ==> Slice(MAX_FRAGMENT_PAYLOAD, JoinParts(parts, n), i) == parts[i]
  {
    hide Slice;
    var before, last := JoinParts(parts, n - 1), parts[n - 1];
    assert JoinParts(parts, n) == before + last;
    if n == 1 {
      assert before == [] && before + last == last;
    } else {
      PartsOnTheWay(parts, count, n - 1, if i < n - 1 then i else 0);
      Spread(n);
    }
    assert |before| == (n - 1) * MAX_FRAGMENT_PAYLOAD;
    if |last| <= MAX_FRAGMENT_PAYLOAD {
      SliceOfSum(before, last, n - 1, i);
    }
  }

  lemma Spread(n: nat)
    requires n > 1
    ensures (n - 2) * MAX_FRAGMENT_PAYLOAD + MAX_FRAGMENT_PAYLOAD == (n - 1) * MAX_FRAGMENT_PAYLOAD
  {
  }

  lemma SliceOfSum(before: bytes, last: bytes, n: nat, i: nat)
    requires |before| == n * MAX_FRAGMENT_PAYLOAD && |last| <= MAX_FRAGMENT_PAYLOAD && i <= n
    ensures Slice(MAX_FRAGMENT_PAYLOAD, before + last, i)
      == if i < n then Slice(MAX_FRAGMENT_PAYLOAD, before, i) else last
  {
  }

  // All places taken, one of them not by the request's own bytes.
  lemma OtherBytes(parts: map<nat, bytes>, w: Wire, id: Word, request: Request, i: nat)
    requires i < |FragmentsOf(w, id, request)| && Filled(parts, |FragmentsOf(w, id, request)|, |FragmentsOf(w, id, request)|)
    requires parts[i] != FragmentsOf(w, id, request)[i].payload
    ensures JoinParts(parts, |FragmentsOf(w, id, request)|) != request.payload
  {
    hide Slice;
    var whole := FragmentsOf(w, id, request);
    PartsOnTheWay(parts, |whole|, |whole|, i);
    assert whole[i].payload == Slice(MAX_FRAGMENT_PAYLOAD, request.payload, i);
    EnoughSlices(MAX_FRAGMENT_PAYLOAD, |request.payload|);
  }

  // A dispatch with other bytes than the request's is on record.
  lemma WrongDispatch(s: System, t: System, n: nat, payload: bytes)
    requires t.history == s.history && n == |s.history| > 0 && payload != s.history[n - 1].payload
    requires t.log != [] && t.log[|t.log| - 1].n == n && t.log[|t.log| - 1].payload == payload
    ensures !Safe(t)
  {
  }

  // --- The simulator: a foreign fragment ---

  lemma OwnFacts(s: System)
    requires Underway(s)
    ensures WholeMessage(Own(s))
    ensures forall i :: 0 <= i < |Own(s)| ==>
      var p := Own(s)[i];
      && p.kind == REQUEST && p.opcode == s.history[|s.history| - 1].opcode && p.sessionId == s.wire.sessionId
      && p.requestId == WireId(s.wire.base, |s.history|) && (i + 1 < |Own(s)| ==> |p.payload| == MAX_FRAGMENT_PAYLOAD)
  {
    var r := s.history[|s.history| - 1];
    FragmentsAreWhole(s.wire, WireId(s.wire.base, |s.history|), r);
    EnoughSlices(MAX_FRAGMENT_PAYLOAD, |r.payload|);
    forall i | 0 <= i < |Own(s)| && i + 1 < |Own(s)|
      ensures |Own(s)[i].payload| == MAX_FRAGMENT_PAYLOAD
    {
      FullSlice(r.payload, i, |Own(s)|);
    }
  }

  lemma FullSlice(payload: bytes, i: nat, count: nat)
    requires i + 1 < count == FragmentCount(MAX_FRAGMENT_PAYLOAD, |payload|)
    ensures |Slice(MAX_FRAGMENT_PAYLOAD, payload, i)| == MAX_FRAGMENT_PAYLOAD
  {
    EnoughSlices(MAX_FRAGMENT_PAYLOAD, |payload|);
  }

  // What is held is made of packets, and those with the request's header are full but for the last.
  ghost predicate Proper(held: seq<Packet>, whole: seq<Packet>)
    requires whole != []
  {
    && DistinctIndices(held)
    && forall f :: f in held ==>
         f.Valid() && (!Other(f, whole) && f.index + 1 < |whole| ==> |f.payload| == MAX_FRAGMENT_PAYLOAD)
  }

  // A request in progress that the simulator would take, with something held under its identifier.
  ghost predicate Takes(s: System, x: Simulator) {
    && Underway(s) && s.endpoint == AtSimulator(x) && x.sessionId == s.wire.sessionId
    && !InCache(x.cache, WireId(s.wire.base, |s.history|))
    && (x.last.Some? ==> RequestIsNewer(WireId(s.wire.base, |s.history|), x.last.value))
    && DistinctPending(x.pending)
  }

  function HeldOf(s: System, x: Simulator): seq<Packet> {
    FragmentsFor(x.pending, WireId(s.wire.base, |s.history|))
  }

  lemma AcceptShape(x: Simulator, p: Packet)
    requires DistinctPending(x.pending)
    ensures var fragments := Store(FragmentsFor(x.pending, p.requestId), p);
      var (x', outcome) := Accept(x, p, Plain);
      && (|fragments| != p.count ==>
            outcome == Silent && x' == x.(pending := x'.pending) && FragmentsFor(x'.pending, p.requestId) == fragments
            && DistinctPending(x'.pending))
      && (|fragments| == p.count && Reassemble(fragments).Ok? ==>
            outcome == Dispatched(p.opcode, Reassemble(fragments).value, Reply(RESPONSE, p.opcode, [])))
  {
    hide Store, Reassemble, Record;
    AdmitKeeps(x.pending, p.requestId);
    var pending := Admit(x.pending, p.requestId);
    var i := Position(pending, p.requestId);
    var fragments := Store(pending[i].fragments, p);
    SettleKeepsOthers(pending, i, Pending(p.requestId, fragments));
    SettleCases(x, pending, i, fragments, p, Plain);
  }

  // One more packet of the request at the simulator.
  lemma TakesOne(s: System, x: Simulator, j: nat)
    requires Takes(s, x) && j < |Own(s)|
    ensures var t, fragments := Served1(s, j), Store(HeldOf(s, x), Own(s)[j]);
      && t.history == s.history && t.wire == s.wire
      && (|fragments| != |Own(s)| ==>
            t.endpoint.AtSimulator? && Takes(t, t.endpoint.simulator) && HeldOf(t, t.endpoint.simulator) == fragments)
      && (|fragments| == |Own(s)| && Reassemble(fragments).Ok? ==>
            t.log != [] && t.log[|t.log| - 1].n == |s.history|
            && t.log[|t.log| - 1].payload == Reassemble(fragments).value)
  {
    OwnFacts(s);
    hide RequestPackets, Store, Reassemble, Accept, FragmentsFor, Emission, InCache, RequestIsNewer, Record, DistinctPending;
    hide WholeMessage, WireId;
    SimulatorBranch(x, Own(s)[j], Plain);
    AcceptShape(x, Own(s)[j]);
  }

  ghost function PartsFrom(fragments: seq<Packet>, count: nat): (parts: map<nat, bytes>)
    requires forall i :: 0 <= i < count ==> Holds(fragments, i)
    ensures forall i: nat :: i in parts <==> i < count
    ensures forall i: nat :: i < count ==> parts[i] == Find(fragments, i).payload
  {
    map i: nat | i < count :: Find(fragments, i).payload
  }

  lemma PartsFilled(fragments: seq<Packet>, whole: seq<Packet>)
    requires whole != [] && Proper(fragments, whole) && (forall f :: f in fragments ==> f.SameMessage(whole[0]))
    requires forall i :: 0 <= i < |whole| ==> Holds(fragments, i)
    ensures Filled(PartsFrom(fragments, |whole|), |whole|, |whole|)
  {
    var parts := PartsFrom(fragments, |whole|);
    forall k: nat | k < |whole|
      ensures k + 1 < |whole| ==> |parts[k]| == MAX_FRAGMENT_PAYLOAD
    {
      var f := Find(fragments, k);
      assert f in fragments && f.index == k && !Other(f, whole);
    }
  }

  lemma ForeignDiffers(f: Packet, whole: seq<Packet>)
    requires WholeMessage(whole) && f.Valid() && Foreign(f, whole)
    ensures f.index < |whole| && f.payload != whole[f.index].payload
  {
  }

  // A complete set of fragments with one header, one of them foreign, joins to other bytes.
  lemma MixtureJoins(fragments: seq<Packet>, w: Wire, id: Word, request: Request)
    requires Fits(request)
    requires var whole := FragmentsOf(w, id, request);
      && |fragments| == |whole| && Proper(fragments, whole)
      && (forall f :: f in fragments ==> f.SameMessage(whole[0]))
      && (exists f | f in fragments :: Foreign(f, whole))
    ensures Reassemble(fragments).Ok? && Reassemble(fragments).value != request.payload
  {
    var whole := FragmentsOf(w, id, request);
    FragmentsAreWhole(w, id, request);
    assert SameShape(fragments, |whole|);
    AllPresent(fragments, |whole|);
    AlikeReassemble(fragments, |whole|);
    var f :| f in fragments && Foreign(f, whole);
    ForeignDiffers(f, whole);
    PartsFilled(fragments, whole);
    FindsIt(fragments, f);
    hide FragmentsOf, Foreign, Reassemble, Proper, Filled, SameShape, WholeMessage;
    var parts := PartsFrom(fragments, |whole|);
    JoinFoundIsJoinParts(fragments, parts, |whole|);
    OtherBytes(parts, w, id, request, f.index);
  }

  lemma {:induction false} JoinFoundIsJoinParts(values: seq<Packet>, parts: map<nat, bytes>, n: nat)
    requires forall i: nat :: i < n ==> Holds(values, i) && i in parts && parts[i] == Find(values, i).payload
    ensures JoinFound(values, n) == JoinParts(parts, n)
  {
    hide Find, Holds;
    if n > 0 {
      JoinFoundIsJoinParts(values, parts, n - 1);
      assert n - 1 in parts;
    }
  }

  lemma FindsIt(values: seq<Packet>, f: Packet)
    requires DistinctIndices(values) && f in values
    ensures Holds(values, f.index) && Find(values, f.index) == f
  {
    var g := Find(values, f.index);
    var i :| 0 <= i < |values| && values[i] == f;
    var j :| 0 <= j < |values| && values[j] == g;
  }

  ghost function Others(held: seq<Packet>, whole: seq<Packet>): set<Packet>
    requires whole != []
  {
    set f | f in held && Other(f, whole)
  }

  // Storing a packet of the request keeps what is held proper, and every fragment at another place.
  lemma StoreProper(held: seq<Packet>, whole: seq<Packet>, j: nat)
    requires WholeMessage(whole) && j < |whole| && Proper(held, whole)
    requires forall i :: 0 <= i < |whole| && i + 1 < |whole| ==> |whole[i].payload| == MAX_FRAGMENT_PAYLOAD
    ensures Proper(Store(held, whole[j]), whole)
    ensures Others(Store(held, whole[j]), whole) <= Others(held, whole)
    ensures forall f :: f in held && f.index != j ==> f in Store(held, whole[j])
    ensures forall g :: g in Store(held, whole[j]) && Other(g, whole) ==> g in held && g.index != j
  {
    var p := whole[j];
    forall f | f in held
      ensures f.index != j ==> f in Store(held, p)
    {
      StoreKeeps(held, p, f);
    }
    forall g | g in Store(held, p)
      ensures g == p || (g in held && g.index != j)
    {
      StoreKeeps(held, p, g);
    }
  }

  lemma SizeBound(held: seq<Packet>, whole: seq<Packet>)
    requires WholeMessage(whole) && Proper(held, whole) && (forall g :: g in held && Other(g, whole) ==> g.index < |whole|)
    ensures |held| <= |whole|
    ensures |held| < |whole| ==> exists j :: 0 <= j < |whole| && j !in Indices(held)
    ensures |held| == |whole| ==> forall j :: 0 <= j < |whole| ==> j in Indices(held)
  {
    forall f | f in held
      ensures f.index < |whole|
    {
    }
    IndexCount(held);
    assert Indices(held) <= Below(|whole|);
    SubsetIsNoLarger(Indices(held), Below(|whole|));
    if |held| == |whole| {
      SubsetOfSameSize(Indices(held), Below(|whole|));
    } else {
      SomePlaceFree(Indices(held), |whole|);
    }
  }

  lemma {:induction false} SomePlaceFree(taken: set<nat>, n: nat)
    requires |taken| < n
    ensures exists j :: 0 <= j < n && j !in taken
  {
    if n - 1 in taken {
      SomePlaceFree(taken - {n - 1}, n - 1);
    }
  }

  // The place to fill next: of something with another header, else a free one, else any but the foreign one's.
  lemma NextPlace(held: seq<Packet>, whole: seq<Packet>) returns (f: Packet, j: nat)
    requires WholeMessage(whole) && Proper(held, whole) && Mixes(held, whole)
    ensures f in held && Foreign(f, whole) && j < |whole| && j != f.index
    ensures Others(held, whole) != {} ==> exists g :: g in Others(held, whole) && g.index == j
    ensures Others(held, whole) == {} && |held| < |whole| ==> j !in Indices(held)
  {
    SizeBound(held, whole);
    f :| f in held && Foreign(f, whole);
    if Others(held, whole) != {} {
      var g :| g in Others(held, whole);
      j := g.index;
      DifferentPlaces(held, f, g);
    } else if |held| < |whole| {
      j :| 0 <= j < |whole| && j !in Indices(held);
    } else {
      j := if f.index == 0 then 1 else 0;
    }
  }

  lemma DifferentPlaces(held: seq<Packet>, f: Packet, g: Packet)
    requires DistinctIndices(held) && f in held && g in held && f != g
    ensures f.index != g.index
  {
    var i :| 0 <= i < |held| && held[i] == f;
    var j :| 0 <= j < |held| && held[j] == g;
  }

  // With that place filled, the foreign fragment is still there, and either nothing else is foreign
  // to the header and the set is complete, or it still mixes and is nearer to that.
  lemma PlaceFilled(held: seq<Packet>, whole: seq<Packet>, f: Packet, j: nat)
    requires WholeMessage(whole) && Proper(held, whole) && Mixes(held, whole)
    requires forall i :: 0 <= i < |whole| && i + 1 < |whole| ==> |whole[i].payload| == MAX_FRAGMENT_PAYLOAD
    requires f in held && Foreign(f, whole) && j < |whole| && j != f.index
    requires Others(held, whole) != {} ==> exists g :: g in Others(held, whole) && g.index == j
    requires Others(held, whole) == {} && |held| < |whole| ==> j !in Indices(held)
    ensures var next := Store(held, whole[j]);
      && Proper(next, whole) && f in next && |next| <= |whole|
      && (|next| == |whole| ==> Others(next, whole) == {})
      && (|next| < |whole| ==> Mixes(next, whole))
      && (Others(next, whole) < Others(held, whole) || (Others(next, whole) == Others(held, whole) && |held| < |next|)
          || |next| == |whole|)
  {
    var next := Store(held, whole[j]);
    StoreProper(held, whole, j);
    SizeBound(held, whole);
    assert Indices(next) == Indices(held) + {j};
    if Others(held, whole) != {} {
      var g :| g in Others(held, whole) && g.index == j;
      assert j in Indices(held);
      assert g !in Others(next, whole);
      if |held| == |whole| {
        forall g' | g' in Others(held, whole)
          ensures g'.index == j
        {
        }
      }
    }
    SizeBound(next, whole);
  }

  lemma OwnStays(s: System, t: System)
    requires s.history != [] && t.history == s.history && t.wire == s.wire
    ensures Own(t) == Own(s)
  {
  }

  // The set is complete: what is dispatched is not the request.
  lemma MixtureCompletes(s: System, t: System, fragments: seq<Packet>, f: Packet)
    requires Underway(s) && t.history == s.history
    requires Proper(fragments, Own(s)) && |fragments| == |Own(s)| && Others(fragments, Own(s)) == {}
    requires f in fragments && Foreign(f, Own(s))
    requires Reassemble(fragments).Ok? ==>
      t.log != [] && t.log[|t.log| - 1].n == |s.history| && t.log[|t.log| - 1].payload == Reassemble(fragments).value
    ensures !Safe(t)
  {
    hide Proper, Foreign, Reassemble, Safe;
    NoOthers(fragments, Own(s));
    MixtureJoins(fragments, s.wire, WireId(s.wire.base, |s.history|), s.history[|s.history| - 1]);
    WrongDispatch(s, t, |s.history|, Reassemble(fragments).value);
  }

  // One packet of a request with which something mixes: dispatched together, or still mixing and nearer to it.
  lemma MixtureStep(s: System, x: Simulator) returns (t: System)
    requires Takes(s, x) && Proper(HeldOf(s, x), Own(s)) && Mixes(HeldOf(s, x), Own(s))
    ensures Reaches(false, s, t) && t.history == s.history && t.wire == s.wire
    ensures !Safe(t)
      || (t.endpoint.AtSimulator?
          && var x' := t.endpoint.simulator;
          && Takes(t, x') && Proper(HeldOf(t, x'), Own(s)) && Mixes(HeldOf(t, x'), Own(s))
          && |HeldOf(t, x')| <= |Own(s)|
          && (Others(HeldOf(t, x'), Own(s)) < Others(HeldOf(s, x), Own(s))
              || (Others(HeldOf(t, x'), Own(s)) == Others(HeldOf(s, x), Own(s)) && |HeldOf(s, x)| < |HeldOf(t, x')|)))
  {
    OwnFacts(s);
    var held, whole := HeldOf(s, x), Own(s);
    var f, j := NextPlace(held, whole);
    PlaceFilled(held, whole, f, j);
    Deliver(s, j);
    TakesOne(s, x, j);
    t := Served1(s, j);
    TakesIsUnderway(s, x);
    hide Takes, Underway, Proper, Mixes, Store, Served1, Reaches, Reassemble, RequestPackets, WholeMessage, Safe, FragmentsFor;
    if |Store(held, whole[j])| == |whole| {
      MixtureCompletes(s, t, Store(held, whole[j]), f);
    }
  }

  lemma TakesIsUnderway(s: System, x: Simulator)
    requires Takes(s, x)
    ensures Underway(s) && s.history != []
  {
  }

  /** Fragments that mix are dispatched together. */
  lemma {:induction false} MixtureDispatched(s: System, x: Simulator) returns (t: System)
    requires Takes(s, x) && Proper(HeldOf(s, x), Own(s)) && Mixes(HeldOf(s, x), Own(s)) && |HeldOf(s, x)| <= |Own(s)|
    ensures Reaches(false, s, t) && !Safe(t)
    decreases Others(HeldOf(s, x), Own(s)), |Own(s)| - |HeldOf(s, x)|
  {
    TakesIsUnderway(s, x);
    hide Takes, Underway, Proper, Mixes, Reaches, RequestPackets, Safe, FragmentsFor;
    t := MixtureStep(s, x);
    if Safe(t) {
      OwnStays(s, t);
      var t1 := t;
      t := MixtureDispatched(t1, t1.endpoint.simulator);
      ReachesBoth(false, s, t1, t);
    }
  }

  lemma NoOthers(held: seq<Packet>, whole: seq<Packet>)
    requires whole != [] && Others(held, whole) == {}
    ensures forall f :: f in held ==> f.SameMessage(whole[0])
  {
    forall f | f in held
      ensures f.SameMessage(whole[0])
    {
      assert f !in Others(held, whole);
    }
  }

  // --- The simulator: a cached reply ---

  // The rest of a reply to another request is on its way to the bridge, which takes it for its own.
  ghost predicate Misled(s: System, reply: Reply, k: nat) {
    && s.active && s.history != [] && s.wire.Valid() && s.requestId == WireId(s.wire.base, |s.history|)
    && reply.opcode == s.history[|s.history| - 1].opcode && reply.kind != REQUEST
    && FragmentCount(s.wire.replySize, |reply.payload|) <= MAX_FRAGMENTS
    && !InLog(s.log, |s.history|)
    && var whole := ReplyPackets(s.wire, |s.history|, reply);
    && k < |whole| && s.toClient == TagAll(|s.history|, whole[k..])
    && PartOf(s.received, whole) && |s.received| == k && forall v :: v in s.received ==> v.index < k
  }

  lemma WrongAnswer(s: System, t: System)
    requires t.answers == s.answers + [|s.history|] && t.log == s.log && !InLog(s.log, |s.history|)
    ensures !Safe(t)
  {
    assert t.answers[|s.answers|] == |s.history|;
  }

  lemma MisledPacket(s: System, reply: Reply, k: nat)
    requires Misled(s, reply, k)
    ensures var whole, p := ReplyPackets(s.wire, |s.history|, reply), s.toClient[0].packet;
      && s.toClient != [] && p == whole[k] && p.index == k && p.count == |whole| && p.kind == reply.kind
      && Matches(s.requestId, s.history[|s.history| - 1].opcode, s.wire.sessionId, p)
      && |Store(s.received, p)| == k + 1 && PartOf(Store(s.received, p), whole)
      && (k + 1 == |whole| ==> Reassemble(Store(s.received, p)) == Ok(reply.payload))
      && s.toClient[1..] == TagAll(|s.history|, whole[k + 1..])
      && forall v :: v in Store(s.received, p) ==> v.index < k + 1
  {
    var whole := ReplyPackets(s.wire, |s.history|, reply);
    assert s.toClient[0] == Tagged(|s.history|, whole[k]);
    var p := whole[k];
    assert p.index !in Indices(s.received);
    StorePart(s.received, p, whole);
    ReassembleFragments(Store(s.received, p), s.wire.replySize, reply.kind, reply.opcode, s.wire.sessionId,
                        WireId(s.wire.base, |s.history|), reply.payload);
  }

  lemma {:induction false} MisledToTheEnd(s: System, reply: Reply, k: nat) returns (t: System)
    requires Misled(s, reply, k)
    ensures Reaches(false, s, t) && !Safe(t)
    decreases |ReplyPackets(s.wire, |s.history|, reply)| - k
  {
    MisledPacket(s, reply, k);
    hide Matches, Store, Reassemble, ReplyPackets, Reaches, PartOf, Safe, InLog;
    ReachesOne(false, s, Receive);
    var t1 := Step(s, Receive);
    if reply.kind == ERROR || k + 1 == |ReplyPackets(s.wire, |s.history|, reply)| {
      t := t1;
      WrongAnswer(s, t);
    } else {
      assert t1 == s.(toClient := s.toClient[1..], received := Store(s.received, s.toClient[0].packet));
      t := MisledToTheEnd(t1, reply, k + 1);
      ReachesBoth(false, s, t1, t);
    }
  }

  /** A cached reply of this operation is returned, or raised, to the wrong caller. */
  lemma StaleAnswered(s: System, x: Simulator) returns (t: System)
    requires Underway(s) && s.endpoint == AtSimulator(x) && x.sessionId == s.wire.sessionId
    requires s.toClient == [] && s.received == [] && s.requestId == WireId(s.wire.base, |s.history|)
    requires InCache(x.cache, s.requestId) && !InLog(s.log, |s.history|)
    requires var reply := Lookup(x.cache, s.requestId);
      && reply.opcode == s.history[|s.history| - 1].opcode && reply.kind != REQUEST
      && FragmentCount(s.wire.replySize, |reply.payload|) <= MAX_FRAGMENTS
    ensures Reaches(false, s, t) && !Safe(t)
  {
    OwnFacts(s);
    var reply := Lookup(x.cache, s.requestId);
    SimulatorBranch(x, Own(s)[0], Plain);
    Deliver(s, 0);
    var t1 := Served1(s, 0);
    hide RequestPackets, Reaches, InCache, Lookup, HandleSimulator, Safe;
    var whole := ReplyPackets(s.wire, |s.history|, reply);
    assert t1.toClient == TagAll(|s.history|, whole) && whole[0..] == whole;
    assert Misled(t1, reply, 0);
    t := MisledToTheEnd(t1, reply, 0);
    ReachesBoth(false, s, t1, t);
  }

  // --- The agent: parts held ---

  // A request in progress that the agent would take, with parts of such a request held under its identifier.
  ghost predicate AgentTakes(s: System, a: Agent) {
    && Underway(s) && s.endpoint == AtAgent(a) && a.sessionId == s.wire.sessionId
    && s.history[|s.history| - 1].opcode != HELLO
    && a.last != Some(WireId(s.wire.base, |s.history|))
    && (a.last.Some? ==> RequestIsNewer(WireId(s.wire.base, |s.history|), a.last.value))
    && a.held.id == WireId(s.wire.base, |s.history|) && a.held.opcode == s.history[|s.history| - 1].opcode
    && a.held.count == |Own(s)|
  }

  // The part the request would not have is held, and every place up to `k`, but for two, is usable.
  ghost predicate Filling(s: System, a: Agent, i: nat, last: nat, k: nat) {
    && AgentTakes(s, a) && i < |Own(s)| && last < |Own(s)| && i != last && k <= |Own(s)|
    && Usable(a.held.parts, i, |Own(s)|) && a.held.parts[i] != Own(s)[i].payload
    && (forall j :: 0 <= j < k && j != last ==> Usable(a.held.parts, j, |Own(s)|))
    && (forall j :: 0 <= j < |Own(s)| ==> Storable(a.held, Own(s)[j]) || Usable(a.held.parts, j, |Own(s)|))
    && Storable(a.held, Own(s)[last])
  }

  // The agent with one more part stored.
  function Storing(a: Agent, p: Packet): Agent {
    a.(held := a.held.(parts := a.held.parts[p.index := p.payload]), reply := a.reply.(payload := []))
  }

  predicate Dispatches(a: Agent, count: nat) {
    Complete(a.held.parts, count) && Sessions.FullBeforeLast(a.held.parts, count)
  }

  lemma AgentTakesOne(s: System, a: Agent, j: nat)
    requires AgentTakes(s, a) && j < |Own(s)| && Storable(a.held, Own(s)[j])
    ensures var t, a' := Served1(s, j), Storing(a, Own(s)[j]);
      && t.history == s.history && t.wire == s.wire
      && (!Dispatches(a', |Own(s)|) ==> AgentTakes(t, a') && t.endpoint == AtAgent(a'))
      && (Dispatches(a', |Own(s)|) ==>
            t.log != [] && t.log[|t.log| - 1].n == |s.history|
            && t.log[|t.log| - 1].payload == JoinParts(a'.held.parts, |Own(s)|))
  {
    OwnFacts(s);
    hide RequestPackets, Storable, Complete, Sessions.FullBeforeLast, Emission, RequestIsNewer, JoinParts;
  }

  // A complete set of parts, one of them not the request's: what is dispatched is not the request.
  lemma PartsDispatched(s: System, t: System, a: Agent, i: nat)
    requires Underway(s) && t.history == s.history && i < |Own(s)| && Dispatches(a, |Own(s)|)
    requires a.held.parts[i] != Own(s)[i].payload
    requires t.log != [] && t.log[|t.log| - 1].n == |s.history|
    requires t.log[|t.log| - 1].payload == JoinParts(a.held.parts, |Own(s)|)
    ensures !Safe(t)
  {
    hide Safe, JoinParts;
    var n := |s.history|;
    assert Filled(a.held.parts, |Own(s)|, |Own(s)|);
    OtherBytes(a.held.parts, s.wire, WireId(s.wire.base, n), s.history[n - 1], i);
    WrongDispatch(s, t, n, JoinParts(a.held.parts, |Own(s)|));
  }

  // The next place: left as it is, or filled by a packet, which dispatches other bytes or goes on.
  lemma PlaceUsable(s: System, a: Agent, i: nat, last: nat, k: nat)
    requires Filling(s, a, i, last, k) && k < |Own(s)| && k != last && k != i && Storable(a.held, Own(s)[k])
    ensures var t, a' := Served1(s, k), Storing(a, Own(s)[k]);
      && t.history == s.history && t.wire == s.wire
      && (!Safe(t) || (Own(t) == Own(s) && Filling(t, a', i, last, k + 1)))
  {
    OwnFacts(s);
    AgentTakesOne(s, a, k);
    var t, a' := Served1(s, k), Storing(a, Own(s)[k]);
    hide Served1, Safe, RequestPackets, JoinParts, AgentTakes;
    if Dispatches(a', |Own(s)|) {
      FillingIsUnderway(s, a, i, last, k);
      PartsDispatched(s, t, a', i);
    } else {
      OwnStays(s, t);
      forall j | 0 <= j < |Own(s)|
        ensures Usable(a.held.parts, j, |Own(s)|) ==> Usable(a'.held.parts, j, |Own(s)|)
        ensures Storable(a.held, Own(s)[j]) ==> Storable(a'.held, Own(s)[j])
      {
      }
      assert Usable(a'.held.parts, k, |Own(s)|);
    }
  }

  lemma FillingIsUnderway(s: System, a: Agent, i: nat, last: nat, k: nat)
    requires Filling(s, a, i, last, k)
    ensures Underway(s) && AgentTakes(s, a)
  {
  }

  lemma UsableDispatches(a: Agent, count: nat)
    requires forall j :: 0 <= j < count ==> Usable(a.held.parts, j, count)
    ensures Dispatches(a, count)
  {
    forall j | 0 <= j < count
      ensures j in a.held.parts && (j + 1 < count ==> |a.held.parts[j]| == MAX_FRAGMENT_PAYLOAD)
    {
      assert Usable(a.held.parts, j, count);
    }
  }

  lemma LastPlace(s: System, a: Agent, i: nat, last: nat)
    requires s.history != [] && Filling(s, a, i, last, |Own(s)|)
    ensures !Safe(Served1(s, last))
  {
    OwnFacts(s);
    AgentTakesOne(s, a, last);
    var a' := Storing(a, Own(s)[last]);
    hide Served1, Safe, RequestPackets, JoinParts, AgentTakes;
    FillingIsUnderway(s, a, i, last, |Own(s)|);
    forall j | 0 <= j < |Own(s)|
      ensures Usable(a'.held.parts, j, |Own(s)|)
    {
      assert j != last ==> Usable(a.held.parts, j, |Own(s)|);
    }
    UsableDispatches(a', |Own(s)|);
    PartsDispatched(s, Served1(s, last), a', i);
  }

  // At a place that is usable or cannot be filled, there is nothing to do.
  lemma PlacePassed(s: System, a: Agent, i: nat, last: nat, k: nat)
    requires Filling(s, a, i, last, k) && k < |Own(s)| && (k == last || k == i || !Storable(a.held, Own(s)[k]))
    ensures Filling(s, a, i, last, k + 1)
  {
    hide AgentTakes, Storable, Usable;
  }

  /** Parts that mix are dispatched together. */
  lemma {:induction false} PartsMixed(s: System, a: Agent, i: nat, last: nat, k: nat) returns (t: System)
    requires Filling(s, a, i, last, k)
    ensures Reaches(false, s, t) && !Safe(t)
    decreases |Own(s)| - k
  {
    FillingIsUnderway(s, a, i, last, k);
    hide Filling, Served1, Reaches, Safe, RequestPackets, Storable, Underway;
    if k == |Own(s)| {
      LastPlace(s, a, i, last);
      Deliver(s, last);
      t := Served1(s, last);
    } else if k == last || k == i || !Storable(a.held, Own(s)[k]) {
      PlacePassed(s, a, i, last, k);
      t := PartsMixed(s, a, i, last, k + 1);
    } else {
      PlaceUsable(s, a, i, last, k);
      Deliver(s, k);
      t := Served1(s, k);
      if Safe(t) {
        var t1 := t;
        t := PartsMixed(t1, Storing(a, Own(s)[k]), i, last, k + 1);
        ReachesBoth(false, s, t1, t);
      }
    }
  }

  lemma HeldMixesAtAgent(s: System, a: Agent) returns (t: System)
    requires AgentTakes(s, a) && HeldMixes(a.held, Own(s))
    ensures Reaches(false, s, t) && !Safe(t)
  {
    OwnFacts(s);
    var whole := Own(s);
    var i :| 0 <= i < |whole| && Usable(a.held.parts, i, |whole|) && a.held.parts[i] != whole[i].payload;
    var last := if i == 0 then 1 else 0;
    hide Reaches, Safe;
    t := PartsMixed(s, a, i, last, 0);
  }

  // --- Exactly ---

  lemma {:induction false} PathKeepsInv(s: System, events: seq<Event>)
    requires Inv(s) && Path(false, s, events)
    ensures Inv(After(false, s, events))
    decreases |events|
  {
    hide Inv, Step, Enabled;
    if events != [] {
      StepKeepsInv(s, events[0]);
      PathKeepsInv(Step(s, events[0]), events[1..]);
    }
  }

  lemma ClearIsSafe(s: System, request: Request, t: System)
    requires Inv(s) && Enabled(s, Issue(request)) && MayIssue(s, request)
    requires Reaches(false, Step(s, Issue(request)), t)
    ensures Safe(t)
  {
    hide OutsideInv, EndpointInv, MayIssue;
    IssueKeepsInv(s, request);
    var s1 := Step(s, Issue(request));
    var events :| Path(false, s1, events) && After(false, s1, events) == t;
    PathKeepsInv(s1, events);
    InvIsSafe(t);
  }

  // What holds of the state in which the new request was just issued.
  lemma JustIssued(s: System, request: Request)
    requires Inv(s) && Idle(s) && Patient(s) && Enabled(s, Issue(request)) && Fits(request)
    ensures var s1 := Step(s, Issue(request));
      && Underway(s1) && s1.toClient == [] && s1.received == [] && s1.endpoint == s.endpoint && s1.log == s.log
      && s1.requestId == WireId(s1.wire.base, |s1.history|) && s1.history[|s1.history| - 1] == request
      && Own(s1) == FragmentsOf(s.wire, NextId(s.requestId), request)
      && LastTag(s.log) < |s1.history| <= LastTag(s.log) + 0x7FFE && !InLog(s.log, |s1.history|)
      && s1.wire == s.wire && s1.history == s.history + [request]
  {
    hide EndpointInv, RequestChannelInv, ReplyChannelInv, ReceivedInv;
    AnswersBelow(s);
  }

  lemma WireIsValid(s: System)
    requires Inv(s)
    ensures s.wire.Valid()
  {
    hide EndpointInv;
  }

  lemma CachedIsGenuine(s: System, x: Simulator, id: Word)
    requires Inv(s) && s.endpoint == AtSimulator(x) && InCache(x.cache, id)
    ensures Lookup(x.cache, id).kind != REQUEST
    ensures s.wire.replySize > 0 && FragmentCount(s.wire.replySize, |Lookup(x.cache, id).payload|) <= MAX_FRAGMENTS
  {
    hide SimulatorInv, RequestChannelInv, ReplyChannelInv, ReceivedInv, AnswersInv;
    CacheIsNewest(s.wire, s.history, s.log, s.served, s.toServer, x);
    NewestElements(CacheOf(s.wire.base, s.log), CACHE_LIMIT);
    var c := Cached(id, Lookup(x.cache, id));
    var i :| 0 <= i < |x.cache| && x.cache[i] == c;
    assert Genuine(s.wire, s.history, s.log[|s.log| - |x.cache| + i]);
  }

  lemma OnlyReply(cache: seq<Cached>, id: Word, opcode: Opcode)
    requires DistinctCache(cache)
    ensures HoldsReply(cache, id, opcode) <==> InCache(cache, id) && Lookup(cache, id).opcode == opcode
  {
    if InCache(cache, id) {
      var c := Cached(id, Lookup(cache, id));
      var i :| 0 <= i < |cache| && cache[i] == c;
      assert forall d :: d in cache && d.id == id ==> d == c;
    }
  }

  lemma HeldIsProper(s: System, x: Simulator, request: Request)
    requires Inv(s) && s.endpoint == AtSimulator(x) && Fits(request)
    ensures Proper(FragmentsFor(x.pending, NextId(s.requestId)), FragmentsOf(s.wire, NextId(s.requestId), request))
  {
    hide SimulatorInv, RequestChannelInv, ReplyChannelInv, ReceivedInv, AnswersInv, FragmentsFor;
    var id := NextId(s.requestId);
    var held, whole := FragmentsFor(x.pending, id), FragmentsOf(s.wire, id, request);
    CacheIsNewest(s.wire, s.history, s.log, s.served, s.toServer, x);
    HeldIsSourced(s.wire, s.history, s.log, x.pending, id);
    forall f | f in held && !Other(f, whole) && f.index + 1 < |whole|
      ensures |f.payload| == MAX_FRAGMENT_PAYLOAD
    {
      SourcedIsFull(s.wire, s.history, s.log, f);
    }
  }

  lemma SourcedIsFull(w: Wire, history: seq<Request>, log: seq<Dispatch>, f: Packet)
    requires Sourced(w, history, log, f)
    ensures f.index + 1 < f.count ==> |f.payload| == MAX_FRAGMENT_PAYLOAD
  {
    var m: nat :| FromRequest(w, history, log, f, m);
    RequestPacketFacts(w, history, Tagged(m, f));
    if f.index + 1 < f.count {
      FullSlice(history[m - 1].payload, f.index, f.count);
    }
  }

  lemma SimulatorTakes(s: System, s1: System, x: Simulator)
    requires Inv(s) && s.endpoint == AtSimulator(x) && s1.endpoint == s.endpoint && s1.wire == s.wire && Underway(s1)
    requires LastTag(s.log) < |s1.history| <= LastTag(s.log) + 0x7FFE
    requires !InCache(x.cache, WireId(s.wire.base, |s1.history|))
    ensures Takes(s1, x)
  {
    hide SimulatorInv, OutsideInv, Underway;
    WireIsValid(s);
    LaterLooksNewer(s.wire, s.log, |s1.history|);
    CacheIsNewest(s.wire, s.history, s.log, s.served, s.toServer, x);
  }

  lemma SimulatorGoesWrong(s: System, x: Simulator, request: Request) returns (t: System)
    requires Inv(s) && Idle(s) && Patient(s) && Enabled(s, Issue(request)) && Fits(request) && !Clear(s, request)
    requires s.endpoint == AtSimulator(x)
    ensures Reaches(false, Step(s, Issue(request)), t) && !Safe(t)
  {
    var s1, id := Step(s, Issue(request)), NextId(s.requestId);
    JustIssued(s, request);
    CacheIsNewest(s.wire, s.history, s.log, s.served, s.toServer, x);
    OnlyReply(x.cache, id, request.opcode);
    if InCache(x.cache, id) {
      CachedIsGenuine(s, x, id);
      hide Inv, Mixes, Reaches, Safe, Step, Underway, InCache, Lookup, HoldsReply, FragmentsFor, Patient, RequestPackets;
      t := StaleAnswered(s1, x);
    } else {
      HeldIsProper(s, x, request);
      SimulatorTakes(s, s1, x);
      OwnFacts(s1);
      assert Mixes(FragmentsFor(x.pending, id), FragmentsOf(s.wire, id, request));
      hide Inv, Reaches, Safe, Step, Underway, InCache, Lookup, HoldsReply, FragmentsFor, Patient, RequestPackets, Takes, Proper;
      SizeBound(HeldOf(s1, x), Own(s1));
      t := MixtureDispatched(s1, x);
    }
  }

  lemma AgentGoesWrong(s: System, a: Agent, request: Request) returns (t: System)
    requires Inv(s) && Idle(s) && Patient(s) && Enabled(s, Issue(request)) && Fits(request) && !Clear(s, request)
    requires s.endpoint == AtAgent(a)
    ensures Reaches(false, Step(s, Issue(request)), t) && !Safe(t)
  {
    var s1 := Step(s, Issue(request));
    JustIssued(s, request);
    WireIsValid(s);
    LaterLooksNewer(s.wire, s.log, |s1.history|);
    OwnFacts(s1);
    assert AgentTakes(s1, a);
    hide Inv, Reaches, Safe, Step, Underway, AgentTakes;
    t := HeldMixesAtAgent(s1, a);
  }

  /**
   At a quiet state, and for any request a patient bridge may issue: it may be issued if and only if
   no run of its exchange goes wrong, by dispatching other bytes or more than once, or by an answer
   that is not to it.
   */
  lemma ExactlyWhenSafe(s: System, request: Request)
    requires Inv(s) && Idle(s) && Patient(s) && Enabled(s, Issue(request))
    ensures MayIssue(s, request) <==> forall t :: Reaches(false, Step(s, Issue(request)), t) ==> Safe(t)
  {
    hide Inv, Clear, Reaches, Safe, Step, Patient, Fits;
    if MayIssue(s, request) {
      forall t | Reaches(false, Step(s, Issue(request)), t)
        ensures Safe(t)
      {
        ClearIsSafe(s, request, t);
      }
    } else {
      var t := GoesWrong(s, request);
    }
  }

  lemma GoesWrong(s: System, request: Request) returns (t: System)
    requires Inv(s) && Idle(s) && Patient(s) && Enabled(s, Issue(request)) && !MayIssue(s, request)
    ensures Reaches(false, Step(s, Issue(request)), t) && !Safe(t)
  {
    hide Inv, Clear, Reaches, Safe, Step, Patient;
    match s.endpoint
    case AtSimulator(x) => t := SimulatorGoesWrong(s, x, request);
    case AtAgent(a) => t := AgentGoesWrong(s, a, request);
  }

  // An agent that kept one part of a request of two from an earlier session.
  function CarriedOver(w: Wire): System {
    System(w, [], w.base, false, [], [], [], [], [],
           AtAgent(Agent(w.sessionId, None, Reply(RESPONSE, PING, []),
                         Held(NextId(w.base), SEND_KEYS, 2, map[0 := seq(MAX_FRAGMENT_PAYLOAD, i => 0)]))),
           0, 0, [], [])
  }

  function TwoPieces(): Request {
    Request(SEND_KEYS, seq(2 * MAX_FRAGMENT_PAYLOAD, i => 1))
  }

  lemma CarriedOverMixes(w: Wire)
    requires w.Valid()
    ensures !Clear(CarriedOver(w), TwoPieces())
  {
    hide Slice;
    var s, request := CarriedOver(w), TwoPieces();
    var held, whole := s.endpoint.agent.held, FragmentsOf(w, NextId(w.base), request);
    FullSlice(request.payload, 0, 2);
    assert |Slice(MAX_FRAGMENT_PAYLOAD, request.payload, 1)| <= MAX_FRAGMENT_PAYLOAD by {
      SliceSize(request.payload, 1);
    }
    assert whole[0].payload[0] == 1 by {
      SliceStart(request.payload);
    }
    assert Usable(held.parts, 0, 2) && held.parts[0][0] == 0;
    assert Storable(held, whole[0]) && Storable(held, whole[1]);
  }

  lemma SliceSize(payload: bytes, i: nat)
    ensures |Slice(MAX_FRAGMENT_PAYLOAD, payload, i)| <= MAX_FRAGMENT_PAYLOAD
  {
  }

  lemma SliceStart(payload: bytes)
    requires payload != []
    ensures Slice(MAX_FRAGMENT_PAYLOAD, payload, 0) != [] && Slice(MAX_FRAGMENT_PAYLOAD, payload, 0)[0] == payload[0]
  {
  }

  /**
   The agent's reassembly record outlives a handshake: in a session just agreed, the first request
   of a bridge can be dispatched with a part of a request of an earlier session.
   */
  lemma CarriedOverDispatched(w: Wire) returns (s: System, t: System)
    requires w.Valid()
    ensures Initial(s) && s.endpoint.AtAgent? && Enabled(s, Issue(TwoPieces())) && Patient(s)
    ensures Reaches(false, Step(s, Issue(TwoPieces())), t) && !Safe(t)
  {
    s := CarriedOver(w);
    CarriedOverMixes(w);
    InitialInv(s);
    hide Inv, Clear, Reaches, Safe, Step;
    t := GoesWrong(s, TwoPieces());
  }
}
