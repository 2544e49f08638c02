/**
 The receive upcall of the packet driver and its one buffer: the driver asks for the buffer,
 copies a frame into it, and reports it complete; the agent reads it and releases it.
 */
module ReceiveSlot {
  import opened Bytes

  const MAX_FRAME := 1518

  // `granted` is the driver's side of the contract: it was given the buffer and has not yet
  // reported the frame.
  datatype Receiver = Receiver(
    buffer: bytes,
    ready: bool,
    length: nat,
    allocations: Word,
    completions: Word,
    drops: Word,
    granted: bool)

  function Next(n: Word): Word {
    (n + 1) % 0x1_0000
  }

  datatype Event =
    | Allocate(size: nat)
    | Copy(at: nat, data: bytes)
    | Complete(size: nat)
    | Release

  // The driver makes one upcall after the other, and writes only into a buffer it was given.
  predicate Possible(r: Receiver, e: Event) {
    match e
    case Allocate(_) => !r.granted
    case Copy(at, data) => r.granted && at + |data| <= |r.buffer|
    case Complete(size) => r.granted && size <= |r.buffer|
    case Release => true
  }

  predicate Refused(r: Receiver, size: nat) {
    r.ready || size > MAX_FRAME
  }

  function Step(r: Receiver, e: Event): Receiver
    requires Possible(r, e)
  {
    match e
    case Allocate(size) =>
      var asked := r.(allocations := Next(r.allocations));
      if Refused(r, size) then asked.(drops := Next(r.drops)) else asked.(granted := true)
    case Copy(at, data) =>
      r.(buffer := r.buffer[..at] + data + r.buffer[at + |data|..])
    case Complete(size) =>
      r.(completions := Next(r.completions), length := size, ready := true, granted := false)
    case Release => r.(ready := false)
  }

  // While a frame waits, the driver has no claim on the buffer.
  ghost predicate Inv(r: Receiver) {
    |r.buffer| == MAX_FRAME && r.length <= MAX_FRAME && !(r.ready && r.granted)
  }

  ghost predicate Runs(r: Receiver, es: seq<Event>, r': Receiver)
    decreases |es|
  {
    if es == [] then r == r'
    else Possible(r, es[0]) && Runs(Step(r, es[0]), es[1..], r')
  }

  /**
   Whatever the driver does meanwhile, a complete frame stays in the buffer as it is until the
   agent releases it, and every frame offered in that time is counted as dropped.
   */
  lemma {:induction false} WaitingFrameUnchanged(r: Receiver, es: seq<Event>, r': Receiver)
    requires Inv(r) && r.ready && Runs(r, es, r') && Release !in es
    ensures Inv(r') && r'.ready && r'.buffer == r.buffer && r'.length == r.length
    ensures r'.completions == r.completions
    ensures (r'.allocations - r.allocations - (r'.drops - r.drops)) % 0x1_0000 == 0
    decreases |es|
  {
    if es != [] {
      assert es[0].Allocate?;
      WaitingFrameUnchanged(Step(r, es[0]), es[1..], r');
      SameCount(r.allocations, r.drops, r'.allocations, r'.drops);
    }
  }

  lemma SameCount(a: Word, d: Word, a': int, d': int)
    requires (a' - Next(a) - (d' - Next(d))) % 0x1_0000 == 0
    ensures (a' - a - (d' - d)) % 0x1_0000 == 0
  {
  }

  lemma {:induction false} RunKeeps(r: Receiver, es: seq<Event>, r': Receiver)
    requires Inv(r) && Runs(r, es, r')
    ensures Inv(r')
    decreases |es|
  {
    if es != [] {
      RunKeeps(Step(r, es[0]), es[1..], r');
    }
  }

  // --- The upcall itself ---

  class PacketReceiver {
    const buffer: array<byte>
    var ready: bool
    var length: nat
    var allocations: Word
    var completions: Word
    var drops: Word
    // The driver's side of the contract.
    ghost var granted: bool

    ghost function State(): Receiver
      reads this, buffer
    {
      Receiver(buffer[..], ready, length, allocations, completions, drops, granted)
    }

    constructor ()
      ensures Inv(State()) && !ready && !granted && fresh(buffer)
    {
      buffer := new byte[MAX_FRAME](i => 0);
      ready, length, allocations, completions, drops := false, 0, 0, 0, 0;
      granted := false;
    }

    // The first upcall: the buffer, or a refusal that counts as a drop.
    method AllocateBuffer(size: nat) returns (given: bool)
      requires Inv(State()) && Possible(State(), Allocate(size))
      modifies this`allocations, this`drops, this`granted
      ensures Inv(State()) && State() == Step(old(State()), Allocate(size)) && given == granted
    {
      allocations := Next(allocations);
      if ready || size > MAX_FRAME {
        drops := Next(drops);
        return false;
      }
      granted := true;
      return true;
    }

    // The second upcall: a whole frame is in the buffer.
    method CompleteFrame(size: nat)
      requires Inv(State()) && Possible(State(), Complete(size))
      modifies this`completions, this`length, this`ready, this`granted
      ensures Inv(State()) && State() == Step(old(State()), Complete(size))
    {
      completions := Next(completions);
      length := size;
      ready := true;
      granted := false;
    }

    // `dm_packet_release_receive`
    method ReleaseFrame()
      requires Inv(State())
      modifies this`ready
      ensures Inv(State()) && State() == Step(old(State()), Release)
    {
      ready := false;
    }
  }
}
