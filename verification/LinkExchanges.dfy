/**
 The bridge of the packet link is the exchange of the program: whatever happens on the channel and at
 the target meanwhile, what it returns is what the retry loop makes of the packets it took.
 */
module LinkExchanges {
  import opened Bytes
  import opened Exchanges
  import opened Link
  import opened LinkPaths
  import opened Packets
  import opened RequestIds
  import opened Sessions
  import opened Wrappers

  // The packets the bridge takes from the channel, in order.
  ghost function Taken(s: System, events: seq<Event>): seq<Option<Packet>>
    requires Path(false, s, events)
    decreases |events|
  {
    if events == [] then []
    else (if events[0].Receive? then [Some(s.toClient[0].packet)] else []) + Taken(Step(s, events[0]), events[1..])
  }

  // What an exchange in progress makes of more packets.
  ghost function Outcome(s: System, all: seq<Option<Packet>>): Result<bytes, ExchangeError>
    requires s.history != []
  {
    Conclusion(Listen(s.requestId, s.history[|s.history| - 1].opcode, s.wire.sessionId, s.received, all))
  }

  lemma OtherEvents(s: System, e: Event)
    requires Enabled(s, e) && !e.Issue? && !e.Receive? && !e.Timeout?
    ensures var t := Step(s, e);
      && t.history == s.history && t.requestId == s.requestId && t.wire == s.wire && t.received == s.received
      && t.active == s.active && t.results == s.results
  {
    hide Handle, Emission, RequestPackets, Consider;
  }

  // Once the exchange is over, nothing more is taken.
  lemma {:induction false} OverIsOver(s: System, events: seq<Event>)
    requires Path(false, s, events) && !s.active
    ensures Taken(s, events) == [] && After(false, s, events).results == s.results
    decreases |events|
  {
    hide Step;
    if events != [] {
      assert !events[0].Receive? && !events[0].Timeout?;
      OtherEvents(s, events[0]);
      OverIsOver(Step(s, events[0]), events[1..]);
    }
  }

  /**
   Over every run of one exchange: its result is on record exactly when the retry loop returns it,
   under the number of its request, and with the bytes the loop returns.
   */
  lemma {:induction false} ReturnedIsOutcome(s: System, events: seq<Event>)
    requires Path(false, s, events) && s.active && s.history != []
    ensures var outcome := Outcome(s, Taken(s, events));
      After(false, s, events).results
      == s.results + if outcome.Ok? then [Returned(|s.history|, outcome.value)] else []
    decreases |events|
  {
    hide Step;
    if events != [] {
      var e, t := events[0], Step(s, events[0]);
      if e.Receive? {
        ReceiveDecides(s, events);
      } else if e.Timeout? {
        TimedOut(s);
        OverIsOver(t, events[1..]);
      } else {
        OtherEvents(s, e);
        ReturnedIsOutcome(t, events[1..]);
        assert Taken(s, events) == Taken(t, events[1..]);
      }
    }
  }

  lemma TimedOut(s: System)
    requires Enabled(s, Event.Timeout)
    ensures !Step(s, Event.Timeout).active && Step(s, Event.Timeout).results == s.results
  {
  }

  lemma ReceiveDecides(s: System, events: seq<Event>)
    requires Path(false, s, events) && s.active && s.history != [] && events != [] && events[0].Receive?
    ensures var outcome := Outcome(s, Taken(s, events));
      After(false, s, events).results
      == s.results + if outcome.Ok? then [Returned(|s.history|, outcome.value)] else []
    decreases |events|, 0
  {
    hide Consider, Path, After, Taken;
    Unfolded(s, events);
    var t, p := Step(s, Receive), s.toClient[0].packet;
    var rest := Taken(t, events[1..]);
    assert ([Some(p)] + rest)[1..] == rest;
    if t.active {
      ReturnedIsOutcome(t, events[1..]);
    } else {
      OverIsOver(t, events[1..]);
    }
  }

  lemma Unfolded(s: System, events: seq<Event>)
    requires Path(false, s, events) && events != []
    ensures Enabled(s, events[0]) && Path(false, Step(s, events[0]), events[1..])
    ensures After(false, s, events) == After(false, Step(s, events[0]), events[1..])
    ensures Taken(s, events)
      == (if events[0].Receive? then [Some(s.toClient[0].packet)] else []) + Taken(Step(s, events[0]), events[1..])
  {
    hide Step;
  }
}
