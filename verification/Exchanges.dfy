/**
 What an exchange of the bridge comes to: the verdict on everything that arrives, in order, and what
 that means when the matching responses are fragments of one reply.
 */
module Exchanges {
  import opened Bytes
  import opened Packets
  import opened Sessions
  import opened Wrappers

  datatype ExchangeError = Timeout | AgentError | Malformed | MessageTooLong

  // The verdict of a whole sequence of arrivals; an arrival that does not decode is None.
  function Listen(requestId: Word, opcode: Opcode, sessionId: Word, received: seq<Packet>, arrivals: seq<Option<Packet>>)
    : Verdict
    decreases |arrivals|
  {
    if arrivals == [] then Kept(received)
    else if arrivals[0].None? then Listen(requestId, opcode, sessionId, received, arrivals[1..])
    else match Consider(requestId, opcode, sessionId, received, arrivals[0].value)
      case Ignored => Listen(requestId, opcode, sessionId, received, arrivals[1..])
      case Kept(stored) => Listen(requestId, opcode, sessionId, stored, arrivals[1..])
      case verdict => verdict
  }

  function Flatten(arrivals: seq<seq<Option<Packet>>>): seq<Option<Packet>> {
    if arrivals == [] then [] else arrivals[0] + Flatten(arrivals[1..])
  }

  function Conclusion(v: Verdict): Result<bytes, ExchangeError> {
    match v
    case Returns(payload) => Ok(payload)
    case RaisesError => Err(AgentError)
    case RaisesMalformed => Err(Malformed)
    case _ => Err(Timeout)
  }

  lemma {:induction false} ListenOn(requestId: Word, opcode: Opcode, sessionId: Word, received: seq<Packet>,
                   first: seq<Option<Packet>>, second: seq<Option<Packet>>)
    ensures var v := Listen(requestId, opcode, sessionId, received, first);
      Listen(requestId, opcode, sessionId, received, first + second)
        == if v.Kept? then Listen(requestId, opcode, sessionId, v.received, second) else v
    ensures !Listen(requestId, opcode, sessionId, received, first).Ignored?
    decreases |first|
  {
    if first == [] {
      assert first + second == second;
    } else {
      assert (first + second)[1..] == first[1..] + second;
      if first[0].None? {
        ListenOn(requestId, opcode, sessionId, received, first[1..], second);
      } else {
        match Consider(requestId, opcode, sessionId, received, first[0].value)
        case Ignored => ListenOn(requestId, opcode, sessionId, received, first[1..], second);
        case Kept(stored) => ListenOn(requestId, opcode, sessionId, stored, first[1..], second);
        case _ =>
      }
    }
  }

  lemma {:induction false} FlattenSplit(arrivals: seq<seq<Option<Packet>>>, k: nat)
    requires k < |arrivals|
    ensures Flatten(arrivals[..k + 1]) == Flatten(arrivals[..k]) + arrivals[k]
  {
    if k == 0 {
      assert arrivals[..1] == [arrivals[0]] && arrivals[1..][..0] == [];
      assert Flatten([arrivals[0]]) == arrivals[0] + Flatten([arrivals[0]][1..]);
    } else {
      FlattenSplit(arrivals[1..], k - 1);
      assert arrivals[..k + 1][1..] == arrivals[1..][..k];
      assert arrivals[..k][1..] == arrivals[1..][..k - 1];
    }
  }

  lemma {:induction false} FlattenPrefix(arrivals: seq<seq<Option<Packet>>>, k: nat)
    requires k <= |arrivals|
    ensures Flatten(arrivals) == Flatten(arrivals[..k]) + Flatten(arrivals[k..])
    decreases k
  {
    if k == 0 {
      assert arrivals[0..] == arrivals;
    } else {
      FlattenPrefix(arrivals[1..], k - 1);
      assert arrivals[..k][1..] == arrivals[1..][..k - 1];
      assert arrivals[1..][k - 1..] == arrivals[k..];
    }
  }

  // --- What the result says ---

  // A packet for this exchange. A handshake does not know its session yet.
  predicate ForUs(expected: Packet, p: Packet) {
    && p.requestId == expected.requestId && p.opcode == expected.opcode
    && (expected.opcode == HELLO || p.sessionId == expected.sessionId)
  }

  // The error arrives for this exchange at this place.
  predicate ErrorAt(expected: Packet, all: seq<Option<Packet>>, k: nat) {
    k < |all| && all[k].Some? && ForUs(expected, all[k].value) && all[k].value.kind == ERROR
  }

  ghost predicate NoErrorBefore(expected: Packet, all: seq<Option<Packet>>, k: nat) {
    forall j :: 0 <= j < k ==> !ErrorAt(expected, all, j)
  }

  // Every fragment of the reply has arrived among the first so many.
  ghost predicate AllBy(whole: seq<Packet>, all: seq<Option<Packet>>, k: nat) {
    k <= |all| && forall i :: 0 <= i < |whole| ==> Some(whole[i]) in all[..k]
  }

  function ReplyTo(expected: Packet, session: Word, size: nat, payload: bytes): seq<Packet>
    requires size > 0
  {
    Fragment(size, RESPONSE, expected.opcode, session, expected.requestId, payload)
  }

  // Whatever arrives as a response to this exchange is a fragment of this reply.
  ghost predicate OneReply(expected: Packet, all: seq<Option<Packet>>, session: Word, size: nat, payload: bytes) {
    && 0 < size <= MAX_FRAGMENT_PAYLOAD && FragmentCount(size, |payload|) <= MAX_FRAGMENTS
    && (expected.opcode == HELLO || session == expected.sessionId)
    && forall k :: 0 <= k < |all| && all[k].Some? && ForUs(expected, all[k].value) && all[k].value.kind == RESPONSE ==>
         all[k].value in ReplyTo(expected, session, size, payload)
  }

  // Exactly when the reply is returned, an error is raised, or nothing has been decided.
  ghost predicate Decided(expected: Packet, all: seq<Option<Packet>>, whole: seq<Packet>, payload: bytes,
                          result: Result<bytes, ExchangeError>) {
    && (result == Ok(payload) <==> exists k :: AllBy(whole, all, k) && NoErrorBefore(expected, all, k))
    && (result == Err(AgentError) <==> exists k :: ErrorAt(expected, all, k) && !AllBy(whole, all, k))
    && (result == Err(Timeout) <==> !AllBy(whole, all, |all|) && NoErrorBefore(expected, all, |all|))
  }

  // With some of the fragments already received.
  ghost predicate FilledBy(received: seq<Packet>, whole: seq<Packet>, all: seq<Option<Packet>>, k: nat) {
    k <= |all| && forall i :: 0 <= i < |whole| ==> whole[i] in received || Some(whole[i]) in all[..k]
  }

  ghost predicate VerdictIs(expected: Packet, all: seq<Option<Packet>>, received: seq<Packet>, whole: seq<Packet>,
                            payload: bytes, v: Verdict) {
    && (v == Returns(payload) <==> exists k :: FilledBy(received, whole, all, k) && NoErrorBefore(expected, all, k))
    && (v == RaisesError <==> exists k :: ErrorAt(expected, all, k) && !FilledBy(received, whole, all, k))
    && (v.Kept? <==> !FilledBy(received, whole, all, |all|) && NoErrorBefore(expected, all, |all|))
  }

  // --- Why ---

  lemma PartByIndices(values: seq<Packet>, whole: seq<Packet>, i: nat)
    requires PartOf(values, whole) && i < |whole| && whole[i].index == i
    ensures whole[i] in values <==> i in Indices(values)
  {
    if i in Indices(values) {
      var v :| v in values && v.index == i;
    }
  }

  // A fragment of the message more.
  lemma StoreFills(received: seq<Packet>, whole: seq<Packet>, p: Packet)
    requires PartOf(received, whole) && p in whole && forall i :: 0 <= i < |whole| ==> whole[i].index == i
    ensures PartOf(Store(received, p), whole)
    ensures forall i :: 0 <= i < |whole| ==> (whole[i] in Store(received, p) <==> whole[i] in received || whole[i] == p)
  {
    hide Store, Indices;
    var stored := Store(received, p);
    forall i | 0 <= i < |whole|
      ensures whole[i] in stored <==> whole[i] in received || whole[i] == p
    {
      PartByIndices(received, whole, i);
      PartByIndices(stored, whole, i);
    }
  }

  lemma FullByCount(received: seq<Packet>, whole: seq<Packet>)
    requires PartOf(received, whole) && forall i :: 0 <= i < |whole| ==> whole[i].index == i
    ensures (|received| == |whole|) <==> forall i :: 0 <= i < |whole| ==> whole[i] in received
  {
    PartIsNoLarger(received, whole);
    if forall i :: 0 <= i < |whole| ==> whole[i] in received {
      forall i | 0 <= i < |whole|
        ensures i in Indices(received)
      {
        PartByIndices(received, whole, i);
      }
      AllCounted(received, |whole|);
    } else if |received| == |whole| {
      forall i | 0 <= i < |whole|
        ensures whole[i] in received
      {
        assert Holds(received, i);
        PartByIndices(received, whole, i);
        var v :| v in received && v.index == i;
        assert i in Indices(received);
      }
    }
  }

  lemma AllCounted(received: seq<Packet>, n: nat)
    requires DistinctIndices(received) && forall i :: 0 <= i < n ==> i in Indices(received)
    ensures |received| >= n
  {
    IndexCount(received);
    assert Below(n) <= Indices(received);
    SubsetIsNoLarger(Below(n), Indices(received));
  }

  // What holds of all the arrivals, told of the rest of them.
  lemma LaterFilled(received: seq<Packet>, more: seq<Packet>, whole: seq<Packet>, all: seq<Option<Packet>>, k: nat)
    requires all != [] && k < |all|
    requires forall i :: 0 <= i < |whole| ==> (whole[i] in more <==> whole[i] in received || all[0] == Some(whole[i]))
    ensures FilledBy(received, whole, all, k + 1) <==> FilledBy(more, whole, all[1..], k)
  {
    assert all[..k + 1] == [all[0]] + all[1..][..k];
    assert forall x :: x in all[..k + 1] <==> x == all[0] || x in all[1..][..k];
  }

  lemma VerdictLater(expected: Packet, all: seq<Option<Packet>>, received: seq<Packet>, more: seq<Packet>,
                     whole: seq<Packet>, payload: bytes, v: Verdict)
    requires all != [] && !ErrorAt(expected, all, 0) && !FilledBy(received, whole, all, 0)
    requires forall i :: 0 <= i < |whole| ==> (whole[i] in more <==> whole[i] in received || all[0] == Some(whole[i]))
    requires VerdictIs(expected, all[1..], more, whole, payload, v)
    ensures VerdictIs(expected, all, received, whole, payload, v)
  {
    hide FilledBy, NoErrorBefore, ErrorAt;
    forall k: nat | k < |all|
      ensures FilledBy(received, whole, all, k + 1) <==> FilledBy(more, whole, all[1..], k)
      ensures NoErrorBefore(expected, all, k + 1) <==> NoErrorBefore(expected, all[1..], k)
      ensures ErrorAt(expected, all, k + 1) <==> ErrorAt(expected, all[1..], k)
    {
      LaterFilled(received, more, whole, all, k);
      ErrorsLater(expected, all, k);
    }
    ExistsLater(expected, all, received, more, whole);
    var n := |all| - 1;
    assert FilledBy(received, whole, all, n + 1) <==> FilledBy(more, whole, all[1..], n);
    assert NoErrorBefore(expected, all, n + 1) <==> NoErrorBefore(expected, all[1..], n);
  }

  lemma ErrorsLater(expected: Packet, all: seq<Option<Packet>>, k: nat)
    requires all != [] && !ErrorAt(expected, all, 0) && k < |all|
    ensures NoErrorBefore(expected, all, k + 1) <==> NoErrorBefore(expected, all[1..], k)
    ensures ErrorAt(expected, all, k + 1) <==> ErrorAt(expected, all[1..], k)
  {
    forall j: nat | j < |all|
      ensures ErrorAt(expected, all, j + 1) <==> ErrorAt(expected, all[1..], j)
    {
    }
    if NoErrorBefore(expected, all, k + 1) {
      forall j | 0 <= j < k
        ensures !ErrorAt(expected, all[1..], j)
      {
        assert !ErrorAt(expected, all, j + 1);
      }
    }
    if NoErrorBefore(expected, all[1..], k) {
      forall j | 0 <= j < k + 1
        ensures !ErrorAt(expected, all, j)
      {
        if j > 0 {
          assert !ErrorAt(expected, all[1..], j - 1);
        }
      }
    }
  }

  lemma Bounds(expected: Packet, all: seq<Option<Packet>>, received: seq<Packet>, whole: seq<Packet>)
    ensures forall k: nat :: FilledBy(received, whole, all, k) ==> k <= |all|
    ensures forall k: nat :: ErrorAt(expected, all, k) ==> k < |all|
  {
  }

  lemma ExistsLater(expected: Packet, all: seq<Option<Packet>>, received: seq<Packet>, more: seq<Packet>,
                    whole: seq<Packet>)
    requires all != [] && !ErrorAt(expected, all, 0) && !FilledBy(received, whole, all, 0)
    requires forall k: nat :: k < |all| ==>
      && (FilledBy(received, whole, all, k + 1) <==> FilledBy(more, whole, all[1..], k))
      && (NoErrorBefore(expected, all, k + 1) <==> NoErrorBefore(expected, all[1..], k))
      && (ErrorAt(expected, all, k + 1) <==> ErrorAt(expected, all[1..], k))
    ensures (exists k :: FilledBy(received, whole, all, k) && NoErrorBefore(expected, all, k))
      <==> (exists k :: FilledBy(more, whole, all[1..], k) && NoErrorBefore(expected, all[1..], k))
    ensures (exists k :: ErrorAt(expected, all, k) && !FilledBy(received, whole, all, k))
      <==> (exists k :: ErrorAt(expected, all[1..], k) && !FilledBy(more, whole, all[1..], k))
  {
    hide FilledBy, NoErrorBefore, ErrorAt;
    Bounds(expected, all, received, whole);
    Bounds(expected, all[1..], more, whole);
    if k: nat :| FilledBy(received, whole, all, k) && NoErrorBefore(expected, all, k) {
      assert FilledBy(more, whole, all[1..], k - 1) && NoErrorBefore(expected, all[1..], k - 1);
    }
    if k: nat :| FilledBy(more, whole, all[1..], k) && NoErrorBefore(expected, all[1..], k) {
      assert FilledBy(received, whole, all, k + 1) && NoErrorBefore(expected, all, k + 1);
    }
    if k: nat :| ErrorAt(expected, all, k) && !FilledBy(received, whole, all, k) {
      assert ErrorAt(expected, all[1..], k - 1) && !FilledBy(more, whole, all[1..], k - 1);
    }
    if k: nat :| ErrorAt(expected, all[1..], k) && !FilledBy(more, whole, all[1..], k) {
      assert ErrorAt(expected, all, k + 1) && !FilledBy(received, whole, all, k + 1);
    }
  }

  lemma ReplyFacts(expected: Packet, session: Word, size: nat, payload: bytes)
    requires 0 < size <= MAX_FRAGMENT_PAYLOAD && FragmentCount(size, |payload|) <= MAX_FRAGMENTS
    ensures var whole := ReplyTo(expected, session, size, payload);
      && whole != [] && (forall i :: 0 <= i < |whole| ==> whole[i].index == i)
      && (forall p :: p in whole ==> p.count == |whole| && p.kind == RESPONSE)
  {
  }

  // One arrival: what is done with it.
  lemma ConsiderReply(expected: Packet, received: seq<Packet>, session: Word, size: nat, payload: bytes, p: Packet)
    requires 0 < size <= MAX_FRAGMENT_PAYLOAD && FragmentCount(size, |payload|) <= MAX_FRAGMENTS
    requires var whole := ReplyTo(expected, session, size, payload);
      PartOf(received, whole) && (ForUs(expected, p) && p.kind == RESPONSE ==> p in whole)
    ensures var whole := ReplyTo(expected, session, size, payload);
      var v := Consider(expected.requestId, expected.opcode, expected.sessionId, received, p);
      && (!ForUs(expected, p) || p.kind == REQUEST ==> v == Ignored)
      && (ForUs(expected, p) && p.kind == ERROR ==> v == RaisesError)
      && (ForUs(expected, p) && p.kind == RESPONSE ==>
            && PartOf(Store(received, p), whole)
            && v == if |Store(received, p)| == |whole| then Returns(payload) else Kept(Store(received, p)))
  {
    hide Reassemble, Store, Fragment;
    var whole := ReplyTo(expected, session, size, payload);
    if ForUs(expected, p) && p.kind == RESPONSE {
      ReplyFacts(expected, session, size, payload);
      StoreFills(received, whole, p);
      ReassembleFragments(Store(received, p), size, RESPONSE, expected.opcode, session, expected.requestId, payload);
    }
  }

  lemma NotYetFilled(received: seq<Packet>, whole: seq<Packet>, all: seq<Option<Packet>>)
    requires PartOf(received, whole) && forall i :: 0 <= i < |whole| ==> whole[i].index == i
    ensures FilledBy(received, whole, all, 0) <==> |received| == |whole|
  {
    hide Indices;
    FullByCount(received, whole);
    assert all[..0] == [];
  }

  lemma ErrorDecides(expected: Packet, all: seq<Option<Packet>>, received: seq<Packet>, whole: seq<Packet>, payload: bytes)
    requires ErrorAt(expected, all, 0) && !FilledBy(received, whole, all, 0)
    ensures VerdictIs(expected, all, received, whole, payload, RaisesError)
  {
    hide FilledBy;
    assert !NoErrorBefore(expected, all, |all|);
  }

  lemma FilledDecides(expected: Packet, all: seq<Option<Packet>>, received: seq<Packet>, whole: seq<Packet>, payload: bytes)
    requires all != [] && !ErrorAt(expected, all, 0) && FilledBy(received, whole, all, 1)
    requires !FilledBy(received, whole, all, 0)
    ensures VerdictIs(expected, all, received, whole, payload, Returns(payload))
  {
    hide ForUs;
    assert NoErrorBefore(expected, all, 1);
    forall k: nat | 1 <= k <= |all|
      ensures FilledBy(received, whole, all, k)
    {
      assert forall x :: x in all[..1] ==> x in all[..k];
    }
  }

  lemma {:induction false} ListenDecides(expected: Packet, all: seq<Option<Packet>>, received: seq<Packet>,
                                         session: Word, size: nat, payload: bytes)
    requires OneReply(expected, all, session, size, payload)
    requires PartOf(received, ReplyTo(expected, session, size, payload))
    requires |received| < |ReplyTo(expected, session, size, payload)|
    ensures VerdictIs(expected, all, received, ReplyTo(expected, session, size, payload), payload,
                      Listen(expected.requestId, expected.opcode, expected.sessionId, received, all))
    decreases |all|
  {
    hide ReplyTo, Consider, Store, Indices, VerdictIs, FilledBy, PartOf;
    var whole := ReplyTo(expected, session, size, payload);
    ReplyFacts(expected, session, size, payload);
    NotYetFilled(received, whole, all);
    if all == [] {
      NothingDecided(expected, received, whole, payload);
    } else {
      assert OneReply(expected, all[1..], session, size, payload) by { ReplyOfRest(expected, all, session, size, payload); }
      if all[0].None? {
        ListenDecides(expected, all[1..], received, session, size, payload);
        VerdictLater(expected, all, received, received, whole, payload,
                     Listen(expected.requestId, expected.opcode, expected.sessionId, received, all[1..]));
      } else {
        ArrivalDecides(expected, all, received, session, size, payload);
      }
    }
  }

  lemma NothingDecided(expected: Packet, received: seq<Packet>, whole: seq<Packet>, payload: bytes)
    requires !FilledBy(received, whole, [], 0)
    ensures VerdictIs(expected, [], received, whole, payload, Kept(received))
  {
  }

  lemma ReplyOfRest(expected: Packet, all: seq<Option<Packet>>, session: Word, size: nat, payload: bytes)
    requires all != [] && OneReply(expected, all, session, size, payload)
    ensures OneReply(expected, all[1..], session, size, payload)
  {
    hide ReplyTo, ForUs;
  }

  lemma ArrivalDecides(expected: Packet, all: seq<Option<Packet>>, received: seq<Packet>,
                       session: Word, size: nat, payload: bytes)
    requires all != [] && all[0].Some? && OneReply(expected, all, session, size, payload)
    requires OneReply(expected, all[1..], session, size, payload)
    requires PartOf(received, ReplyTo(expected, session, size, payload))
    requires |received| < |ReplyTo(expected, session, size, payload)|
    ensures VerdictIs(expected, all, received, ReplyTo(expected, session, size, payload), payload,
                      Listen(expected.requestId, expected.opcode, expected.sessionId, received, all))
    decreases |all|, 0
  {
    hide ReplyTo, Consider, Store, Indices, VerdictIs, FilledBy, PartOf, ForUs;
    var whole, p, rest := ReplyTo(expected, session, size, payload), all[0].value, all[1..];
    ReplyFacts(expected, session, size, payload);
    NotYetFilled(received, whole, all);
    ConsiderReply(expected, received, session, size, payload, p);
    if ForUs(expected, p) && p.kind == ERROR {
      ErrorDecides(expected, all, received, whole, payload);
    } else if ForUs(expected, p) && p.kind == RESPONSE {
      var stored := Store(received, p);
      StoreFills(received, whole, p);
      if |stored| == |whole| {
        FilledAtOnce(received, whole, all, stored);
        FilledDecides(expected, all, received, whole, payload);
      } else {
        PartIsNoLarger(stored, whole);
        ListenDecides(expected, rest, stored, session, size, payload);
        VerdictLater(expected, all, received, stored, whole, payload,
                     Listen(expected.requestId, expected.opcode, expected.sessionId, stored, rest));
      }
    } else {
      ListenDecides(expected, rest, received, session, size, payload);
      NotOfReply(expected, session, size, payload, p);
      VerdictLater(expected, all, received, received, whole, payload,
                   Listen(expected.requestId, expected.opcode, expected.sessionId, received, rest));
    }
  }

  lemma FilledAtOnce(received: seq<Packet>, whole: seq<Packet>, all: seq<Option<Packet>>, stored: seq<Packet>)
    requires all != [] && PartOf(stored, whole) && |stored| == |whole|
    requires forall i :: 0 <= i < |whole| ==> whole[i].index == i
    requires forall i :: 0 <= i < |whole| ==> (whole[i] in stored <==> whole[i] in received || Some(whole[i]) == all[0])
    ensures FilledBy(received, whole, all, 1)
  {
    FullByCount(stored, whole);
    assert all[..1] == [all[0]];
  }

  lemma NotOfReply(expected: Packet, session: Word, size: nat, payload: bytes, p: Packet)
    requires 0 < size && (expected.opcode == HELLO || session == expected.sessionId)
    requires !ForUs(expected, p) || p.kind != RESPONSE
    ensures p !in ReplyTo(expected, session, size, payload)
  {
  }

  /**
   When the matching responses are fragments of one reply, in any order, repeated, some perhaps
   missing: the reply is returned exactly when all of them arrive before an error for this exchange;
   an error is raised exactly when one arrives first; and nothing is decided exactly when neither does.
   */
  lemma ExchangeDecides(expected: Packet, all: seq<Option<Packet>>, session: Word, size: nat, payload: bytes)
    requires OneReply(expected, all, session, size, payload)
    ensures Decided(expected, all, ReplyTo(expected, session, size, payload), payload,
                    Conclusion(Listen(expected.requestId, expected.opcode, expected.sessionId, [], all)))
  {
    hide Listen, ReplyTo, FilledBy, AllBy, NoErrorBefore, ErrorAt;
    var whole := ReplyTo(expected, session, size, payload);
    var v := Listen(expected.requestId, expected.opcode, expected.sessionId, [], all);
    ReplyFacts(expected, session, size, payload);
    ListenDecides(expected, all, [], session, size, payload);
    ListenOn(expected.requestId, expected.opcode, expected.sessionId, [], all, []);
    forall k: nat
      ensures FilledBy([], whole, all, k) <==> AllBy(whole, all, k)
    {
      FilledFromNothing(whole, all, k);
    }
  }

  lemma FilledFromNothing(whole: seq<Packet>, all: seq<Option<Packet>>, k: nat)
    ensures FilledBy([], whole, all, k) <==> AllBy(whole, all, k)
  {
  }
}
