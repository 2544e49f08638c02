/**
 Packets, and how a message is cut into fragments and put together again
 (`fragment_message` and `reassemble_packets`).
 */
module Packets {
  import opened Bytes
  import opened Wrappers

  const MAX_FRAGMENT_PAYLOAD := 1024
  // The agent's request buffer.
  const REQUEST_BUFFER_SIZE := 4229
  const MAX_FRAGMENTS := 32
  const MAX_MESSAGE_SIZE := 32768

  datatype Kind = REQUEST | RESPONSE | ERROR

  type Opcode = x: int | 1 <= x <= 18 witness 1

  const HELLO: Opcode := 1
  const GET_STATUS: Opcode := 2
  const GET_CAPABILITIES: Opcode := 3
  const CAPTURE_TEXT_SCREEN: Opcode := 4
  const SEND_KEYS: Opcode := 5
  const PING: Opcode := 6
  const CANCEL: Opcode := 7
  const FILE_READ_BEGIN: Opcode := 8
  const FILE_READ_BLOCK: Opcode := 9
  const FILE_READ_END: Opcode := 10
  const FILE_WRITE_BEGIN: Opcode := 11
  const FILE_WRITE_BLOCK: Opcode := 12
  const FILE_WRITE_COMMIT: Opcode := 13
  const FILE_ABORT: Opcode := 14
  const GRAPHICS_BEGIN: Opcode := 15
  const GRAPHICS_BLOCK: Opcode := 16
  const GRAPHICS_END: Opcode := 17
  const GET_DIAGNOSTICS: Opcode := 18

  datatype Packet = Packet(
    kind: Kind,
    opcode: Opcode,
    sessionId: Word,
    requestId: Word,
    index: nat,
    count: nat,
    payload: bytes)
  {
    // What the constructor of a packet insists on.
    predicate Valid() {
      1 <= count <= MAX_FRAGMENTS && index < count && |payload| <= MAX_FRAGMENT_PAYLOAD
    }

    predicate SameMessage(other: Packet) {
      kind == other.kind && opcode == other.opcode && sessionId == other.sessionId
      && requestId == other.requestId && count == other.count
    }
  }

  datatype ReassemblyError = Empty | IdentityMismatch | MissingOrDuplicate

  // The number of fragments of a message: an empty one still takes a packet.
  function FragmentCount(size: nat, length: nat): (n: nat)
    requires size > 0
    ensures n >= 1
  {
    Max(1, (length + size - 1) / size)
  }

  function Slice(size: nat, payload: bytes, i: nat): bytes {
    payload[Min(i * size, |payload|)..Min(i * size + size, |payload|)]
  }

  /** A message cut into packets of at most `size` payload bytes. */
  function Fragment(size: nat, kind: Kind, opcode: Opcode, sessionId: Word, requestId: Word, payload: bytes)
    : (r: seq<Packet>)
    requires size > 0
    ensures |r| == FragmentCount(size, |payload|)
  {
    var n := FragmentCount(size, |payload|);
    seq(n, i requires 0 <= i < n => Packet(kind, opcode, sessionId, requestId, i, n, Slice(size, payload, i)))
  }

  function JoinSlices(size: nat, payload: bytes, n: nat): bytes {
    if n == 0 then [] else JoinSlices(size, payload, n - 1) + Slice(size, payload, n - 1)
  }

  lemma {:induction false} JoinSlicesIsPrefix(size: nat, payload: bytes, n: nat)
    ensures JoinSlices(size, payload, n) == payload[..Min(n * size, |payload|)]
  {
    if n > 0 {
      JoinSlicesIsPrefix(size, payload, n - 1);
      assert (n - 1) * size + size == n * size;
    }
  }

  lemma EnoughSlices(size: nat, length: nat)
    requires size > 0
    ensures FragmentCount(size, length) * size >= length
    ensures length > 0 ==> (FragmentCount(size, length) - 1) * size < length
  {
    var q := (length + size - 1) / size;
    assert q * size + (length + size - 1) % size == length + size - 1;
    assert (q - 1) * size == q * size - size;
    if length == 0 {
      assert length + size - 1 < size;
    }
  }

  ghost predicate DistinctIndices(values: seq<Packet>) {
    forall i, j :: 0 <= i < j < |values| ==> values[i].index != values[j].index
  }

  predicate Distinct(values: seq<Packet>)
    ensures Distinct(values) <==> DistinctIndices(values)
  {
    forall i | 0 <= i < |values| :: forall j | i < j < |values| :: values[i].index != values[j].index
  }

  ghost function Indices(values: seq<Packet>): set<nat> {
    set v | v in values :: v.index
  }

  lemma {:induction false} IndexCount(values: seq<Packet>)
    requires DistinctIndices(values)
    ensures |Indices(values)| == |values|
  {
    if values != [] {
      var last := values[|values| - 1];
      var init := values[..|values| - 1];
      IndexCount(init);
      assert values == init + [last];
      assert Indices(values) == Indices(init) + {last.index};
      assert last.index !in Indices(init);
    }
  }

  ghost function Below(n: nat): (r: set<nat>)
    ensures |r| == n
    ensures forall i: nat :: i in r <==> i < n
  {
    if n == 0 then {} else Below(n - 1) + {n - 1}
  }

  predicate Holds(values: seq<Packet>, i: int) {
    exists v :: v in values && v.index == i
  }

  // As many distinct indices below `count` as there are values: every index occurs.
  lemma AllPresent(values: seq<Packet>, count: nat)
    requires DistinctIndices(values) && |values| == count
    requires forall v :: v in values ==> v.index < count
    ensures forall i :: 0 <= i < count ==> Holds(values, i)
  {
    IndexCount(values);
    assert Indices(values) <= Below(count);
    SubsetOfSameSize(Indices(values), Below(count));
    forall i | 0 <= i < count
      ensures Holds(values, i)
    {
      assert i in Below(count);
      assert i in Indices(values);
    }
  }

  lemma {:induction false} SubsetOfSameSize(a: set<nat>, b: set<nat>)
    requires a <= b && |a| == |b|
    ensures a == b
  {
    if a != b {
      var x :| x in b && x !in a;
      SubsetIsNoLarger(a, b - {x});
    }
  }

  lemma {:induction false} SubsetIsNoLarger(a: set<nat>, b: set<nat>)
    requires a <= b
    ensures |a| <= |b|
  {
    if a != {} {
      var x :| x in a;
      SubsetIsNoLarger(a - {x}, b - {x});
    }
  }

  function Find(values: seq<Packet>, i: nat): (v: Packet)
    requires Holds(values, i)
    ensures v in values && v.index == i
  {
    if values[0].index == i then values[0] else Find(values[1..], i)
  }

  function JoinFound(values: seq<Packet>, n: nat): bytes
    requires forall i :: 0 <= i < n ==> Holds(values, i)
  {
    if n == 0 then [] else JoinFound(values, n - 1) + Find(values, n - 1).payload
  }

  /** The values of a fragment dictionary, put together or rejected. */
  function Reassemble(values: seq<Packet>): (r: Result<bytes, ReassemblyError>) {
    if values == [] then Err(Empty)
    else if exists v | v in values :: !v.SameMessage(values[0]) then Err(IdentityMismatch)
    else if !Distinct(values) || |values| != values[0].count then Err(MissingOrDuplicate)
    else if exists i | 0 <= i < values[0].count :: !Holds(values, i) then Err(MissingOrDuplicate)
    else Ok(JoinFound(values, values[0].count))
  }

  // Counting is enough for packets their constructor accepted: no index can be missing.
  lemma CountingIsEnough(values: seq<Packet>)
    requires values != [] && forall v :: v in values ==> v.Valid() && v.SameMessage(values[0])
    ensures Reassemble(values).Ok? <==> DistinctIndices(values) && |values| == values[0].count
  {
    if DistinctIndices(values) && |values| == values[0].count {
      AllPresent(values, values[0].count);
    }
  }

  lemma IndicesCons(first: Packet, rest: seq<Packet>)
    ensures Indices([first] + rest) == {first.index} + Indices(rest)
  {
  }

  lemma DistinctCons(values: seq<Packet>, p: Packet)
    requires values != [] && values[0].index == p.index
    ensures DistinctIndices(values) ==> DistinctIndices([p] + values[1..])
  {
  }

  lemma DistinctTail(values: seq<Packet>)
    requires values != [] && DistinctIndices(values)
    ensures DistinctIndices(values[1..])
  {
  }

  /** Recording a fragment in the dictionary: an index keeps its place and takes the new value. */
  function Store(values: seq<Packet>, p: Packet): (r: seq<Packet>)
    ensures forall v :: v in r ==> v == p || v in values
    ensures p in r
    ensures Indices(r) == Indices(values) + {p.index}
    ensures DistinctIndices(values) ==> DistinctIndices(r)
    ensures |r| == if p.index in Indices(values) then |values| else |values| + 1
  {
    hide Indices, DistinctIndices;
    if values == [] then
      OneIsDistinct(p);
      [p]
    else
      assert values == [values[0]] + values[1..];
      IndicesCons(values[0], values[1..]);
      if values[0].index == p.index then
        IndicesCons(p, values[1..]);
        DistinctCons(values, p);
        [p] + values[1..]
      else
        var rest := Store(values[1..], p);
        IndicesCons(values[0], rest);
        assert DistinctIndices(values) ==> DistinctIndices([values[0]] + rest) by {
          if DistinctIndices(values) {
            DistinctTail(values);
            StillDistinct(values, rest, p);
          }
        }
        [values[0]] + rest
  }

  lemma OneIsDistinct(p: Packet)
    ensures DistinctIndices([p]) && Indices([p]) == {p.index} && Indices([]) == {}
  {
  }

  lemma StillDistinct(values: seq<Packet>, rest: seq<Packet>, p: Packet)
    requires values != [] && values[0].index != p.index
    requires DistinctIndices(values) && DistinctIndices(rest)
    requires Indices(rest) == Indices(values[1..]) + {p.index}
    ensures DistinctIndices([values[0]] + rest)
  {
    forall j | 0 <= j < |rest|
      ensures rest[j].index != values[0].index
    {
      assert rest[j].index in Indices(rest);
      if rest[j].index != p.index {
        var v :| v in values[1..] && v.index == rest[j].index;
        var k :| 0 <= k < |values| - 1 && values[1..][k] == v;
        assert values[k + 1].index != values[0].index;
      }
    }
  }

  // The values are packets of one fragmented message, each index at most once.
  ghost predicate PartOf(values: seq<Packet>, whole: seq<Packet>) {
    DistinctIndices(values)
    && forall v :: v in values ==> v.index < |whole| && v == whole[v.index]
  }

  lemma {:induction false} JoinFoundIsJoinSlices(values: seq<Packet>, whole: seq<Packet>, size: nat, payload: bytes, n: nat)
    requires PartOf(values, whole) && n <= |whole|
    requires forall i :: 0 <= i < |whole| ==> whole[i].payload == Slice(size, payload, i)
    requires forall i :: 0 <= i < n ==> Holds(values, i)
    ensures JoinFound(values, n) == JoinSlices(size, payload, n)
  {
    if n > 0 {
      JoinFoundIsJoinSlices(values, whole, size, payload, n - 1);
      assert Find(values, n - 1) == whole[n - 1];
    }
  }

  lemma FragmentsAreAlike(size: nat, kind: Kind, opcode: Opcode, sessionId: Word, requestId: Word, payload: bytes)
    requires 0 < size <= MAX_FRAGMENT_PAYLOAD
    requires FragmentCount(size, |payload|) <= MAX_FRAGMENTS
    ensures forall p :: p in Fragment(size, kind, opcode, sessionId, requestId, payload) ==>
      p.Valid() && p.count == FragmentCount(size, |payload|)
      && p.kind == kind && p.opcode == opcode && p.sessionId == sessionId && p.requestId == requestId
  {
    var whole := Fragment(size, kind, opcode, sessionId, requestId, payload);
    forall p | p in whole
      ensures p.Valid()
    {
      var i :| 0 <= i < |whole| && p == whole[i];
      assert |Slice(size, payload, i)| <= size;
    }
  }

  lemma PartIsNoLarger(values: seq<Packet>, whole: seq<Packet>)
    requires PartOf(values, whole)
    ensures |values| <= |whole|
    ensures |values| == |whole| ==> forall i :: 0 <= i < |whole| ==> Holds(values, i)
  {
    IndexCount(values);
    assert Indices(values) <= Below(|whole|);
    SubsetIsNoLarger(Indices(values), Below(|whole|));
    if |values| == |whole| {
      AllPresent(values, |whole|);
    }
  }

  // All the slices of a message join to it.
  lemma JoinAllSlices(size: nat, payload: bytes)
    requires size > 0
    ensures JoinSlices(size, payload, FragmentCount(size, |payload|)) == payload
  {
    JoinSlicesIsPrefix(size, payload, FragmentCount(size, |payload|));
    EnoughSlices(size, |payload|);
    assert payload[..|payload|] == payload;
  }

  ghost predicate SameShape(values: seq<Packet>, count: nat) {
    (forall v :: v in values ==> v.count == count)
    && forall v, w :: v in values && w in values ==> v.SameMessage(w)
  }

  // Packets of one message reassemble when there are as many as they say, at every index.
  lemma AlikeReassemble(values: seq<Packet>, count: nat)
    requires DistinctIndices(values) && SameShape(values, count) && count > 0
    requires |values| == count ==> forall i :: 0 <= i < count ==> Holds(values, i)
    ensures |values| == count ==> Reassemble(values) == Ok(JoinFound(values, count))
    ensures |values| != count ==> Reassemble(values).Err?
  {
    hide JoinFound;
    if values != [] {
      assert values[0] in values;
    }
  }

  /** Distinct fragments of one message, in any order, reassemble exactly when none is missing, and to the message. */
  lemma ReassembleFragments(values: seq<Packet>, size: nat, kind: Kind, opcode: Opcode,
                            sessionId: Word, requestId: Word, payload: bytes)
    requires 0 < size <= MAX_FRAGMENT_PAYLOAD
    requires FragmentCount(size, |payload|) <= MAX_FRAGMENTS
    requires PartOf(values, Fragment(size, kind, opcode, sessionId, requestId, payload))
    ensures |values| <= FragmentCount(size, |payload|)
    ensures |values| == FragmentCount(size, |payload|) ==> Reassemble(values) == Ok(payload)
    ensures |values| != FragmentCount(size, |payload|) ==> Reassemble(values).Err?
  {
    var whole := Fragment(size, kind, opcode, sessionId, requestId, payload);
    FragmentsAreAlike(size, kind, opcode, sessionId, requestId, payload);
    assert forall v :: v in values ==> v in whole && v.count == |whole|;
    assert SameShape(values, |whole|);
    PartIsNoLarger(values, whole);
    AlikeReassemble(values, |whole|);
    hide Reassemble, Fragment, FragmentCount, SameShape;
    if |values| == |whole| {
      SlicesOf(size, kind, opcode, sessionId, requestId, payload);
      JoinFoundIsJoinSlices(values, whole, size, payload, |whole|);
      JoinAllSlices(size, payload);
    }
  }

  lemma SlicesOf(size: nat, kind: Kind, opcode: Opcode, sessionId: Word, requestId: Word, payload: bytes)
    requires size > 0
    ensures var whole := Fragment(size, kind, opcode, sessionId, requestId, payload);
      forall i :: 0 <= i < |whole| ==> whole[i].payload == Slice(size, payload, i)
  {
  }
}
