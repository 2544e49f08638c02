/**
 The DOS agent's reassembly of a request: fragments copied to their place in one fixed
 buffer, their lengths in an array, and a 32-bit mask of the indices received.
 */
module RequestAssembly {
  import opened Buffers
  import opened Bytes
  import opened Wrappers
  import opened Packets
  import opened Sessions
  import BiosKeys

  // --- Bit masks ---

  function Pow2(n: nat): (r: nat)
    ensures r >= 1
  {
    if n == 0 then 1 else 2 * Pow2(n - 1)
  }

  function TestBit(mask: nat, i: nat): bool {
    if i == 0 then mask % 2 == 1 else TestBit(mask / 2, i - 1)
  }

  // `mask | 1 << i`
  function SetBit(mask: nat, i: nat): nat {
    if i == 0 then 2 * (mask / 2) + 1 else 2 * SetBit(mask / 2, i - 1) + mask % 2
  }

  lemma {:induction false} TestSetBit(mask: nat, i: nat, j: nat)
    ensures TestBit(SetBit(mask, i), j) <==> i == j || TestBit(mask, j)
  {
    var r := SetBit(mask, i);
    if i == 0 {
      assert r / 2 == mask / 2;
    } else {
      assert r / 2 == SetBit(mask / 2, i - 1) && r % 2 == mask % 2;
      if j > 0 {
        TestSetBit(mask / 2, i - 1, j - 1);
      }
    }
  }

  lemma SetBits(mask: nat, i: nat)
    ensures forall j: nat :: TestBit(SetBit(mask, i), j) <==> i == j || TestBit(mask, j)
  {
    forall j: nat
      ensures TestBit(SetBit(mask, i), j) <==> i == j || TestBit(mask, j)
    {
      TestSetBit(mask, i, j);
    }
  }

  lemma {:induction false} SetBitBound(mask: nat, i: nat, n: nat)
    requires mask < Pow2(n) && i < n
    ensures SetBit(mask, i) < Pow2(n)
  {
    assert Pow2(n) == 2 * Pow2(n - 1);
    var half := mask / 2;
    assert half < Pow2(n - 1);
    if i > 0 {
      SetBitBound(half, i - 1, n - 1);
    }
  }

  lemma {:induction false} OnesBits(ones: nat, n: nat, j: nat)
    requires ones == Pow2(n) - 1
    ensures TestBit(ones, j) <==> j < n
  {
    if n == 0 {
      NoBit(ones, j);
    } else {
      assert ones == 2 * (Pow2(n - 1) - 1) + 1;
      assert ones / 2 == Pow2(n - 1) - 1;
      if j > 0 {
        OnesBits(ones / 2, n - 1, j - 1);
      }
    }
  }

  lemma {:induction false} NoBit(mask: nat, i: nat)
    requires mask == 0
    ensures !TestBit(mask, i)
  {
    if i > 0 {
      NoBit(mask / 2, i - 1);
    }
  }

  lemma {:induction false} SameBits(a: nat, b: nat, width: nat)
    requires a < Pow2(width) && b < Pow2(width)
    requires forall i: nat :: i < width ==> TestBit(a, i) == TestBit(b, i)
    ensures a == b
  {
    if width > 0 {
      forall i: nat | i < width - 1
        ensures TestBit(a / 2, i) == TestBit(b / 2, i)
      {
        assert TestBit(a, i + 1) == TestBit(b, i + 1);
      }
      SameBits(a / 2, b / 2, width - 1);
      assert TestBit(a, 0) == TestBit(b, 0);
    }
  }

  ghost predicate HasAll(mask: nat, n: nat) {
    forall i: nat :: i < n ==> TestBit(mask, i)
  }

  /** A mask without bits from `n` up is the mask of the `n` lowest bits exactly when it has them all. */
  lemma AllBits(mask: nat, n: nat, width: nat)
    requires n <= width && mask < Pow2(width)
    requires forall i: nat :: n <= i < width ==> !TestBit(mask, i)
    ensures mask == Pow2(n) - 1 <==> HasAll(mask, n)
  {
    var ones := Pow2(n) - 1;
    forall i: nat
      ensures TestBit(ones, i) <==> i < n
    {
      OnesBits(ones, n, i);
    }
    if HasAll(mask, n) {
      Pow2Grows(n, width);
      SameBits(mask, ones, width);
    }
  }

  lemma {:induction false} Pow2Grows(n: nat, m: nat)
    requires n <= m
    ensures Pow2(n) <= Pow2(m)
  {
    if n < m {
      Pow2Grows(n, m - 1);
    }
  }

  lemma {:induction false} NoBits(mask: nat, n: nat)
    requires mask == 0
    ensures forall i: nat :: i < n ==> !TestBit(mask, i)
  {
    if n > 0 {
      NoBits(mask, n - 1);
      NoBit(mask, n - 1);
    }
  }

  // --- The buffer ---

  // The lengths recorded for the indices in the mask keep their bytes inside the buffer.
  ghost predicate Inside(buffer: bytes, lengths: seq<nat>, mask: nat) {
    && |buffer| == REQUEST_BUFFER_SIZE && |lengths| == MAX_FRAGMENTS
    && forall i: nat :: i < |lengths| && TestBit(mask, i) ==>
         lengths[i] <= MAX_FRAGMENT_PAYLOAD && i * MAX_FRAGMENT_PAYLOAD + lengths[i] <= |buffer|
  }

  ghost function PartsIn(buffer: bytes, lengths: seq<nat>, mask: nat): (parts: map<nat, bytes>)
    requires Inside(buffer, lengths, mask)
    ensures forall i: nat :: i in parts <==> i < |lengths| && TestBit(mask, i)
    ensures forall i: nat :: i in parts ==>
      parts[i] == buffer[i * MAX_FRAGMENT_PAYLOAD..i * MAX_FRAGMENT_PAYLOAD + lengths[i]] && |parts[i]| == lengths[i]
  {
    map i: nat | i < |lengths| && TestBit(mask, i) ::
      buffer[i * MAX_FRAGMENT_PAYLOAD..i * MAX_FRAGMENT_PAYLOAD + lengths[i]]
  }

  lemma WrittenElsewhere(buffer: bytes, start: nat, payload: bytes, from: nat, to: nat)
    requires start + |payload| <= |buffer| && from <= to <= |buffer|
    requires to <= start || start + |payload| <= from
    ensures Written(buffer, start, payload)[from..to] == buffer[from..to]
  {
    var r := Written(buffer, start, payload);
    forall k | from <= k < to
      ensures r[k] == buffer[k]
    {
      if start + |payload| <= k {
        assert r[k] == buffer[start + |payload|..][k - (start + |payload|)];
      }
    }
  }

  lemma WrittenHere(buffer: bytes, start: nat, payload: bytes)
    requires start + |payload| <= |buffer|
    ensures Written(buffer, start, payload)[start..start + |payload|] == payload
  {
  }

  // Writing one part changes that part and no other.
  lemma PartPlaced(buffer: bytes, lengths: seq<nat>, mask: nat, index: nat, payload: bytes)
    requires Inside(buffer, lengths, mask) && index < |lengths| && |payload| <= MAX_FRAGMENT_PAYLOAD
    requires index * MAX_FRAGMENT_PAYLOAD + |payload| <= |buffer|
    ensures var buffer' := Written(buffer, index * MAX_FRAGMENT_PAYLOAD, payload);
      var lengths' := lengths[index := |payload|];
      && Inside(buffer', lengths', SetBit(mask, index))
      && PartsIn(buffer', lengths', SetBit(mask, index)) == PartsIn(buffer, lengths, mask)[index := payload]
  {
    SetBits(mask, index);
    var start := index * MAX_FRAGMENT_PAYLOAD;
    var buffer' := Written(buffer, start, payload);
    var lengths' := lengths[index := |payload|];
    var parts, parts' := PartsIn(buffer, lengths, mask), PartsIn(buffer', lengths', SetBit(mask, index));
    assert parts'[index] == payload by {
      WrittenHere(buffer, start, payload);
    }
    hide Written, TestBit, SetBit;
    forall i | i in parts && i != index
      ensures i in parts' && parts'[i] == parts[i]
    {
      var from, to := i * MAX_FRAGMENT_PAYLOAD, i * MAX_FRAGMENT_PAYLOAD + lengths[i];
      WrittenElsewhere(buffer, start, payload, from, to);
    }
  }

  ghost predicate AllFull(lengths: seq<nat>, count: nat) {
    count <= |lengths| && forall i :: 0 <= i < count - 1 ==> lengths[i] == MAX_FRAGMENT_PAYLOAD
  }

  lemma PartsAreFull(buffer: bytes, lengths: seq<nat>, mask: nat, count: nat)
    requires Inside(buffer, lengths, mask) && HasAll(mask, count) && 1 <= count <= |lengths|
    ensures var parts := PartsIn(buffer, lengths, mask);
      Complete(parts, count) && (FullBeforeLast(parts, count) <==> AllFull(lengths, count))
  {
    var parts := PartsIn(buffer, lengths, mask);
    assert forall i: nat :: i < count ==> TestBit(mask, i) && i in parts && |parts[i]| == lengths[i];
  }

  // With all the bits below `count` and full parts before the last, the request is one run of bytes.
  lemma PartsRun(buffer: bytes, lengths: seq<nat>, mask: nat, count: nat, length: nat)
    requires Inside(buffer, lengths, mask) && HasAll(mask, count) && 1 <= count <= |lengths| && AllFull(lengths, count)
    requires length == (count - 1) * MAX_FRAGMENT_PAYLOAD + lengths[count - 1]
    ensures Complete(PartsIn(buffer, lengths, mask), count)
    ensures length <= |buffer| && JoinParts(PartsIn(buffer, lengths, mask), count) == buffer[..length]
  {
    PartsAreFull(buffer, lengths, mask, count);
    var parts := PartsIn(buffer, lengths, mask);
    assert forall i: nat :: i < count ==> TestBit(mask, i) && i in parts && |parts[i]| == lengths[i];
    Contiguous(parts, buffer, count);
  }

  class Assembly {
    const buffer: array<byte>
    const lengths: array<nat>
    var mask: nat
    var id: Word
    var count: nat
    var opcode: int

    ghost predicate Valid()
      reads this, buffer, lengths
    {
      && buffer.Length == REQUEST_BUFFER_SIZE && lengths.Length == MAX_FRAGMENTS
      && mask < Pow2(lengths.Length)
      && Inside(buffer[..], lengths[..], mask)
      && forall i: nat :: i < lengths.Length && TestBit(mask, i) ==> i < count
    }

    ghost function Parts(): map<nat, bytes>
      requires Valid()
      reads this, buffer, lengths
    {
      PartsIn(buffer[..], lengths[..], mask)
    }

    ghost function State(): Held
      requires Valid()
      reads this, buffer, lengths
    {
      Held(id, opcode, count, Parts())
    }

    constructor ()
      ensures Valid() && fresh(buffer) && fresh(lengths)
      ensures State() == Held(0, 0, 0, map[])
    {
      buffer := new byte[REQUEST_BUFFER_SIZE];
      lengths := new nat[MAX_FRAGMENTS];
      mask := 0;
      id := 0;
      count := 0;
      opcode := 0;
      new;
      NoBits(mask, lengths.Length);
      Pow2Grows(0, lengths.Length);
      assert Parts() == map[];
    }

    // A packet with a new identifier starts the record afresh.
    method Restart(p: Packet)
      requires Valid()
      modifies this, lengths
      ensures Valid() && State() == HoldFor(old(State()), p)
    {
      if p.requestId != id {
        id := p.requestId;
        count := p.count;
        opcode := p.opcode;
        mask := 0;
        for i := 0 to lengths.Length
          modifies lengths
        {
          lengths[i] := 0;
        }
        NoBits(mask, lengths.Length);
        Pow2Grows(0, lengths.Length);
        assert Parts() == map[];
      }
    }

    // Copies the payload to its place and records it.
    method Place(p: Packet)
      requires Valid() && p.Valid() && Storable(State(), p)
      modifies this`mask, buffer, lengths
      ensures Valid() && State() == old(State()).(parts := old(Parts())[p.index := p.payload])
    {
      hide Written, SetBit, Pow2, Inside;
      PartPlaced(buffer[..], lengths[..], mask, p.index, p.payload);
      SetBitBound(mask, p.index, lengths.Length);
      SetBits(mask, p.index);
      CopyTo(buffer, p.index * MAX_FRAGMENT_PAYLOAD, p.payload);
      lengths[p.index] := |p.payload|;
      mask := SetBit(mask, p.index);
      assert lengths[..] == old(lengths[..])[p.index := |p.payload|];
    }

    // `request_fragment_mask == expected_mask`
    method AllReceived() returns (all: bool)
      requires Valid() && 1 <= count <= MAX_FRAGMENTS
      ensures all <==> Sessions.Complete(Parts(), count)
      ensures all <==> HasAll(mask, count)
    {
      var expected := Pow2(count) - 1;
      AllBits(mask, count, lengths.Length);
      all := mask == expected;
      assert Sessions.Complete(Parts(), count) ==> HasAll(mask, count) by {
        if Sessions.Complete(Parts(), count) {
          assert forall i: nat :: i < count ==> i in Parts();
        }
      }
    }

    method FullLengths() returns (full: bool)
      requires lengths.Length == MAX_FRAGMENTS && 1 <= count <= MAX_FRAGMENTS
      ensures full <==> AllFull(lengths[..], count)
    {
      var index := 0;
      while index + 1 < count
        invariant index < count
        invariant forall i :: 0 <= i < index ==> lengths[i] == MAX_FRAGMENT_PAYLOAD
      {
        if lengths[index] != MAX_FRAGMENT_PAYLOAD {
          assert lengths[..][index] != MAX_FRAGMENT_PAYLOAD;
          return false;
        }
        index := index + 1;
      }
      full := true;
    }

    // Whether every fragment is there and all but the last are full; if so, the request's length.
    method Measure() returns (complete: bool, length: nat)
      requires Valid() && 1 <= count <= MAX_FRAGMENTS
      ensures complete <==> Sessions.Complete(Parts(), count) && FullBeforeLast(Parts(), count)
      ensures complete ==> length <= REQUEST_BUFFER_SIZE && buffer[..length] == JoinParts(Parts(), count)
    {
      length := 0;
      complete := AllReceived();
      if !complete {
        return;
      }
      PartsAreFull(buffer[..], lengths[..], mask, count);
      complete := FullLengths();
      if !complete {
        return;
      }
      length := (count - 1) * MAX_FRAGMENT_PAYLOAD + lengths[count - 1];
      PartsRun(buffer[..], lengths[..], mask, count, length);
      assert buffer[..][..length] == buffer[..length];
    }

    /**
     Lines 722 to 752 of `process_datagram`: what is held becomes what the packet step says, and
     the request is complete exactly when that step dispatches, with those bytes in the buffer.
     */
    method Collect(p: Packet) returns (complete: bool, length: nat)
      requires Valid() && p.Valid()
      modifies this, buffer, lengths
      ensures Valid()
      ensures var held := HoldFor(old(State()), p);
        var parts := held.parts[p.index := p.payload];
        && State() == (if Storable(held, p) then held.(parts := parts) else held)
        && (complete <==> Storable(held, p) && Sessions.Complete(parts, p.count) && FullBeforeLast(parts, p.count))
        && (complete ==> length <= REQUEST_BUFFER_SIZE && buffer[..length] == JoinParts(parts, p.count))
    {
      Restart(p);
      if p.count != count || p.opcode != opcode
        || p.index * MAX_FRAGMENT_PAYLOAD + |p.payload| > REQUEST_BUFFER_SIZE {
        return false, 0;
      }
      Place(p);
      complete, length := Measure();
    }
  }

  // Full parts followed by a last one lie in the buffer as one run of bytes.
  lemma {:induction false} Contiguous(parts: map<nat, bytes>, buffer: bytes, n: nat)
    requires n >= 1
    requires forall i :: 0 <= i < n ==>
      i in parts && i * MAX_FRAGMENT_PAYLOAD + |parts[i]| <= |buffer|
      && parts[i] == buffer[i * MAX_FRAGMENT_PAYLOAD..i * MAX_FRAGMENT_PAYLOAD + |parts[i]|]
    requires forall i :: 0 <= i < n - 1 ==> |parts[i]| == MAX_FRAGMENT_PAYLOAD
    ensures JoinParts(parts, n) == buffer[..(n - 1) * MAX_FRAGMENT_PAYLOAD + |parts[n - 1]|]
  {
    if n == 1 {
      assert JoinParts(parts, 0) == [];
    } else {
      Contiguous(parts, buffer, n - 1);
      var m := (n - 1) * MAX_FRAGMENT_PAYLOAD;
      assert buffer[..m] + buffer[m..m + |parts[n - 1]|] == buffer[..m + |parts[n - 1]|];
    }
  }

  // --- Any order, any duplicates ---

  // The packets of one request, as they arrive.
  function Arrivals(whole: seq<Packet>, order: seq<nat>): seq<Packet>
    requires forall k :: 0 <= k < |order| ==> order[k] < |whole|
  {
    seq(|order|, k requires 0 <= k < |order| => whole[order[k]])
  }

  // The agent after a sequence of packets, and what each of them led to.
  function HandleAll(a: Agent, packets: seq<Packet>, answer: Answer): (Agent, seq<Outcome>) {
    if packets == [] then (a, [])
    else
      var (a1, outcomes) := HandleAll(a, packets[..|packets| - 1], answer);
      var (a2, outcome) := HandleAgent(a1, packets[|packets| - 1], answer);
      (a2, outcomes + [outcome])
  }

  ghost predicate AllSeen(order: seq<nat>, n: nat) {
    forall i :: 0 <= i < n ==> i in order
  }

  // What the agent holds after some of a request's packets, before the last distinct one.
  ghost predicate PartlyHeld(a: Agent, a0: Agent, whole: seq<Packet>, order: seq<nat>) {
    && a.sessionId == a0.sessionId && a.last == a0.last
    && if order == [] then a == a0 else HeldSoFar(a.held, whole, order)
  }

  // The packets of a request the agent is ready for.
  ghost predicate ReadyFor(a: Agent, whole: seq<Packet>, payload: bytes) {
    && |payload| <= REQUEST_BUFFER_SIZE && whole != [] && whole[0].opcode != HELLO
    && whole == Fragment(MAX_FRAGMENT_PAYLOAD, REQUEST, whole[0].opcode, a.sessionId, whole[0].requestId, payload)
    && a.held.id != whole[0].requestId
    && (a.last.Some? ==> RequestIds.RequestIsNewer(whole[0].requestId, a.last.value))
  }

  import RequestIds

  lemma FragmentsFit(whole: seq<Packet>, a: Agent, payload: bytes)
    requires ReadyFor(a, whole, payload)
    ensures |whole| <= 5
    ensures forall i :: 0 <= i < |whole| ==>
      && whole[i] == Packet(REQUEST, whole[0].opcode, a.sessionId, whole[0].requestId, i, |whole|, Slice(MAX_FRAGMENT_PAYLOAD, payload, i))
      && i * MAX_FRAGMENT_PAYLOAD + |whole[i].payload| <= REQUEST_BUFFER_SIZE
      && (i + 1 < |whole| ==> |whole[i].payload| == MAX_FRAGMENT_PAYLOAD)
  {
    EnoughSlices(MAX_FRAGMENT_PAYLOAD, |payload|);
    var n := |whole|;
    forall i | 0 <= i < n
      ensures i * MAX_FRAGMENT_PAYLOAD + |Slice(MAX_FRAGMENT_PAYLOAD, payload, i)| <= REQUEST_BUFFER_SIZE
      ensures i + 1 < n ==> |Slice(MAX_FRAGMENT_PAYLOAD, payload, i)| == MAX_FRAGMENT_PAYLOAD
    {
      if i + 1 < n {
        assert (i + 1) * MAX_FRAGMENT_PAYLOAD <= (n - 1) * MAX_FRAGMENT_PAYLOAD;
      }
    }
  }

  lemma {:induction false} JoinPayloads(parts: map<nat, bytes>, whole: seq<Packet>, payload: bytes, n: nat)
    requires n <= |whole|
    requires forall i :: 0 <= i < |whole| ==> whole[i].payload == Slice(MAX_FRAGMENT_PAYLOAD, payload, i)
    requires forall i :: 0 <= i < n ==> i in parts && parts[i] == whole[i].payload
    ensures JoinParts(parts, n) == JoinSlices(MAX_FRAGMENT_PAYLOAD, payload, n)
  {
    if n > 0 {
      JoinPayloads(parts, whole, payload, n - 1);
    }
  }

  lemma NotNewerThanItself(id: Word)
    ensures !RequestIds.RequestIsNewer(id, id)
  {
  }

  lemma ReadyAccepts(a: Agent, a0: Agent, whole: seq<Packet>, payload: bytes, i: nat, answer: Answer)
    requires ReadyFor(a0, whole, payload) && i < |whole|
    requires a.sessionId == a0.sessionId && a.last == a0.last
    ensures HandleAgent(a, whole[i], answer) == Sessions.Collect(a, HoldFor(a.held, whole[i]), whole[i], answer)
  {
    FragmentsFit(whole, a0, payload);
    NotNewerThanItself(whole[i].requestId);
  }

  // What is held for the request when one of its packets is looked at.
  ghost predicate HeldSoFar(held: Held, whole: seq<Packet>, order: seq<nat>) {
    && whole != []
    && held.id == whole[0].requestId && held.opcode == whole[0].opcode && held.count == |whole|
    && (forall i :: i in held.parts <==> i in order)
    && (forall i :: i in held.parts ==> i < |whole| && held.parts[i] == whole[i].payload)
  }

  lemma CollectsOneMore(a: Agent, a0: Agent, held: Held, whole: seq<Packet>, payload: bytes, order: seq<nat>, i: nat, answer: Answer)
    requires ReadyFor(a0, whole, payload) && HeldSoFar(held, whole, order) && i < |whole|
    requires forall k :: 0 <= k < |order| ==> order[k] < |whole|
    ensures var (a', outcome) := Sessions.Collect(a, held, whole[i], answer);
      if AllSeen(order + [i], |whole|) then
        && outcome == Dispatched(whole[0].opcode, payload, Reply(answer.kind, whole[0].opcode, answer.payload))
        && a'.last == Some(whole[0].requestId) && a'.sessionId == a.sessionId
        && a'.reply == Reply(answer.kind, whole[0].opcode, answer.payload)
      else
        outcome == Silent && HeldSoFar(a'.held, whole, order + [i]) && a'.last == a.last && a'.sessionId == a.sessionId
  {
    FragmentsFit(whole, a0, payload);
    var p := whole[i];
    var parts := held.parts[i := p.payload];
    assert forall j :: j in parts <==> j in order + [i];
    assert Complete(parts, |whole|) <==> AllSeen(order + [i], |whole|);
    if Complete(parts, |whole|) {
      JoinPayloads(parts, whole, payload, |whole|);
      JoinAllSlices(MAX_FRAGMENT_PAYLOAD, payload);
      assert FullBeforeLast(parts, |whole|);
    }
  }

  // One more packet of a request not yet complete.
  lemma OneMore(a: Agent, a0: Agent, whole: seq<Packet>, payload: bytes, order: seq<nat>, i: nat, answer: Answer)
    requires ReadyFor(a0, whole, payload) && PartlyHeld(a, a0, whole, order)
    requires i < |whole| && forall k :: 0 <= k < |order| ==> order[k] < |whole|
    ensures var (a', outcome) := HandleAgent(a, whole[i], answer);
      if AllSeen(order + [i], |whole|) then
        && outcome == Dispatched(whole[0].opcode, payload, Reply(answer.kind, whole[0].opcode, answer.payload))
        && a'.last == Some(whole[0].requestId) && a'.sessionId == a0.sessionId
        && a'.reply == Reply(answer.kind, whole[0].opcode, answer.payload)
      else
        outcome == Silent && PartlyHeld(a', a0, whole, order + [i])
  {
    ReadyAccepts(a, a0, whole, payload, i, answer);
    FragmentsFit(whole, a0, payload);
    var held := HoldFor(a.held, whole[i]);
    assert HeldSoFar(held, whole, order);
    CollectsOneMore(a, a0, held, whole, payload, order, i, answer);
  }

  // The first position at which every index has been seen, if there is one.
  function FirstComplete(order: seq<nat>, n: nat): nat {
    if order == [] then 0
    else
      var k := FirstComplete(order[..|order| - 1], n);
      if k < |order| - 1 then k
      else if forall i | 0 <= i < n :: i in order then |order| - 1
      else |order|
  }

  lemma FirstCompleteStep(init: seq<nat>, i: nat, n: nat)
    ensures var order := init + [i];
      var first := FirstComplete(init, n);
      FirstComplete(order, n) == if first < |init| then first else if AllSeen(order, n) then |init| else |order|
  {
    var order := init + [i];
    assert order[..|order| - 1] == init;
  }

  // The outcome a packet in position `k` should have.
  function OutcomeAt(k: nat, first: nat, opcode: Opcode, payload: bytes, reply: Reply): Outcome {
    if k < first then Silent else if k == first then Dispatched(opcode, payload, reply) else Resend(reply)
  }

  lemma Repeated(a: Agent, p: Packet, answer: Answer)
    requires p.kind == REQUEST && p.opcode != HELLO && p.sessionId == a.sessionId && a.last == Some(p.requestId)
    ensures HandleAgent(a, p, answer) == (a, Resend(a.reply))
  {
  }

  // What the agent has done with a request's packets in this order.
  ghost predicate HandledRight(a: Agent, a': Agent, outcomes: seq<Outcome>, whole: seq<Packet>, payload: bytes,
                               order: seq<nat>, answer: Answer)
    requires whole != []
  {
    var first := FirstComplete(order, |whole|);
    var reply := Reply(answer.kind, whole[0].opcode, answer.payload);
    && |outcomes| == |order|
    && (forall k :: 0 <= k < |order| ==> outcomes[k] == OutcomeAt(k, first, whole[0].opcode, payload, reply))
    && first <= |order|
    && (first < |order| <==> AllSeen(order, |whole|))
    && (first == |order| ==> PartlyHeld(a', a, whole, order))
    && (first < |order| ==> a'.last == Some(whole[0].requestId) && a'.reply == reply && a'.sessionId == a.sessionId)
  }

  lemma NextHandledRight(a: Agent, a1: Agent, outcomes: seq<Outcome>, whole: seq<Packet>, payload: bytes,
                         init: seq<nat>, i: nat, answer: Answer)
    requires ReadyFor(a, whole, payload) && i < |whole|
    requires forall k :: 0 <= k < |init| ==> init[k] < |whole|
    requires HandledRight(a, a1, outcomes, whole, payload, init, answer)
    ensures var (a2, outcome) := HandleAgent(a1, whole[i], answer);
      HandledRight(a, a2, outcomes + [outcome], whole, payload, init + [i], answer)
  {
    FirstCompleteStep(init, i, |whole|);
    if FirstComplete(init, |whole|) == |init| {
      OneMore(a1, a, whole, payload, init, i, answer);
    } else {
      FragmentsFit(whole, a, payload);
      Repeated(a1, whole[i], answer);
      assert AllSeen(init + [i], |whole|);
    }
  }

  /**
   Fragments of one request of at most 4229 bytes, in any order and with any duplicates: the
   agent dispatches exactly when the last distinct fragment arrives, with the request's bytes;
   every packet before is silent and every packet after repeats the reply.
   */
  lemma {:induction false} AnyOrderAnyDuplicates(a: Agent, whole: seq<Packet>, payload: bytes, order: seq<nat>, answer: Answer)
    requires ReadyFor(a, whole, payload)
    requires forall k :: 0 <= k < |order| ==> order[k] < |whole|
    ensures var (a', outcomes) := HandleAll(a, Arrivals(whole, order), answer);
      HandledRight(a, a', outcomes, whole, payload, order, answer)
  {
    var packets := Arrivals(whole, order);
    if order == [] {
      assert 0 !in order;
    } else {
      var init, i := order[..|order| - 1], order[|order| - 1];
      assert order == init + [i];
      AnyOrderAnyDuplicates(a, whole, payload, init, answer);
      var (a1, outcomes) := HandleAll(a, Arrivals(whole, init), answer);
      assert packets[..|packets| - 1] == Arrivals(whole, init);
      assert packets[|packets| - 1] == whole[i];
      NextHandledRight(a, a1, outcomes, whole, payload, init, i, answer);
    }
  }

  /** The largest request a key injection may send is exactly the buffer. */
  lemma LargestKeyRequest(p: bytes)
    requires BiosKeys.KeysWellFormed(p)
    ensures |p| <= REQUEST_BUFFER_SIZE
    ensures |p| == REQUEST_BUFFER_SIZE <==>
      |BiosKeys.KeysOf(p).text| == 4096 && |BiosKeys.KeysOf(p).keys| == 128
  {
    hide GetU16, Value;
  }

  /** There is a valid key request that fills the buffer. */
  lemma LargestKeyRequestExists() returns (p: bytes)
    ensures BiosKeys.KeysWellFormed(p) && |p| == REQUEST_BUFFER_SIZE
  {
    hide GetU16, Value, PutU16, Low;
    p := PutU16(4096) + [Low(128)] + PutU16(0) + seq(4224, i => 0);
    U16RoundTrip(4096);
    U16RoundTrip(0);
    LowInverse(128);
    assert p[..2] == PutU16(4096) && p[3..5] == PutU16(0);
  }
}
