/**
 Whole lives of the resident agent: runs of the worker from any interrupt, and frames that arrive
 in between whenever the receive slot is free. What the screen shows may change from run to run,
 but for a picture that is being captured. A frame that comes during a run comes before or after
 it, since the worker looks at the slot once and empties it last.
 */
module ResidentRuns {
  import opened AgentTransfers
  import opened Bytes
  import opened DosFiles
  import opened PacketCodec
  import opened Packets
  import opened ResidentReplies
  import opened ResidentSafety
  import opened ResidentWorker
  import opened TransferSafety
  import opened Wrappers

  // The agent, and its setup with the picture video memory last showed.
  datatype Host = Host(setup: Setup, resident: Resident)

  datatype Event = Work(moment: Moment) | Arrive(frame: Frame)

  ghost predicate Up(h: Host) {
    Good(h.setup, h.resident) && h.resident.enabled
  }

  // The setup as a run finds it: with the picture shown now.
  function Seen(setup: Setup, m: Moment): Setup {
    setup.(picture := m.machine.picture)
  }

  ghost predicate Possible(h: Host, e: Event) {
    match e
    case Work(m) =>
      && Seen(h.setup, m).Valid() && m.Valid(Seen(h.setup, m))
      && (h.resident.world.t.kind == ReadScreen ==> m.machine.picture == h.setup.picture)
    case Arrive(_) => h.resident.slot.None?
  }

  lemma SeenIsGood(h: Host, m: Moment)
    requires Up(h) && Possible(h, Work(m))
    ensures Good(Seen(h.setup, m), h.resident)
  {
    hide Checksums.Crc32, Timed;
  }

  // What a run does to the reply, and what it hands to `process_request`.
  function RunEffect(h: Host, m: Moment): Effect
    requires Up(h) && Possible(h, Work(m))
  {
    hide WorkEffect, Good;
    SeenIsGood(h, m);
    WorkEffect(Seen(h.setup, m), h.resident, m)
  }

  function RunDispatches(h: Host, m: Moment): Option<(int, bytes)>
    requires Up(h) && Possible(h, Work(m))
  {
    hide Dispatches, Good;
    SeenIsGood(h, m);
    Dispatches(Seen(h.setup, m), h.resident, m)
  }

  lemma ArrivalIsGood(h: Host, frame: Frame)
    requires Up(h)
    ensures Good(h.setup, h.resident.(slot := Some(frame)))
  {
    hide Inv;
  }

  function Happens(h: Host, e: Event): (h': Host)
    requires Up(h) && Possible(h, e)
    ensures Up(h')
  {
    hide Worker, Good;
    match e
    case Work(m) =>
      SeenIsGood(h, m);
      GoodParts(Seen(h.setup, m), h.resident);
      WorkerTimed(Seen(h.setup, m), h.resident, m);
      Host(Seen(h.setup, m), Worker(Seen(h.setup, m), h.resident, m))
    case Arrive(frame) =>
      ArrivalIsGood(h, frame);
      h.(resident := h.resident.(slot := Some(frame)))
  }

  ghost predicate Legal(h: Host, es: seq<Event>)
    requires Up(h)
    decreases |es|
  {
    es == [] || (Possible(h, es[0]) && Legal(Happens(h, es[0]), es[1..]))
  }

  ghost function Run(h: Host, es: seq<Event>): (h': Host)
    requires Up(h) && Legal(h, es)
    ensures Up(h')
    decreases |es|
  {
    if es == [] then h else Run(Happens(h, es[0]), es[1..])
  }

  // How many of the events are runs of the worker, and how many of these come from the timer.
  function Works(es: seq<Event>): nat {
    if es == [] then 0 else (if es[0].Work? then 1 else 0) + Works(es[1..])
  }

  function TimerRuns(es: seq<Event>): (n: nat)
    ensures n <= Works(es)
  {
    if es == [] then 0 else (if es[0].Work? && !es[0].moment.dosIdle then 1 else 0) + TimerRuns(es[1..])
  }

  // --- From installation ---

  /** The state an installation leaves, from which every life starts. */
  lemma InstalledIsUp(setup: Setup, nobody: Peer, workspace: bytes, world: World)
    requires setup.Valid() && |workspace| == REQUEST_BUFFER_SIZE && world.keyboard.Valid()
    requires Inv(setup.picture, world.t, world.disk)
    ensures Up(Host(setup, Installed(nobody, workspace, world)))
  {
    hide Inv;
  }

  // --- The receive slot ---

  // The slot is occupied before and after every event.
  ghost predicate HeldThroughout(h: Host, es: seq<Event>)
    requires Up(h) && Legal(h, es)
    decreases |es|
  {
    h.resident.slot.Some? && (es == [] || HeldThroughout(Happens(h, es[0]), es[1..]))
  }

  lemma {:induction false} HeldIsUnchanged(h: Host, es: seq<Event>)
    requires Up(h) && Legal(h, es) && HeldThroughout(h, es)
    ensures Run(h, es).resident.slot == h.resident.slot
    ensures es != [] ==>
      && h.resident.session.active
      && Elapsed(h.resident.ticks, h.resident.session.activity) + TimerRuns(es) < SESSION_IDLE_TICKS
    decreases |es|
  {
    hide Worker, Shaped, Elapsed;
    if es != [] {
      var e, next := es[0], Happens(h, es[0]);
      assert HeldThroughout(next, es[1..]);
      SeenIsGood(h, e.moment);
      KeptStep(Seen(h.setup, e.moment), h.resident, e.moment);
      HeldIsUnchanged(next, es[1..]);
    }
  }

  /**
   From every reachable state, a frame held for an idle DOS stays as it is until it is let go, and
   it is let go within 546 runs of the worker from the timer, whatever the other runs meanwhile.
   */
  lemma HeldFrameIsLetGo(h: Host, es: seq<Event>)
    requires Up(h) && Legal(h, es) && TimerRuns(es) >= SESSION_IDLE_TICKS
    ensures !HeldThroughout(h, es)
  {
    hide Good, Happens, Possible;
    if HeldThroughout(h, es) {
      HeldIsUnchanged(h, es);
    }
  }

  // --- Where DOS is called ---

  // No run outside an idle DOS dispatches the end of a graphics capture against a file download.
  ghost predicate NeverThroughHole(h: Host, es: seq<Event>)
    requires Up(h) && Legal(h, es)
    decreases |es|
  {
    es == [] || (NotThroughHole(h, es[0]) && NeverThroughHole(Happens(h, es[0]), es[1..]))
  }

  ghost predicate NotThroughHole(h: Host, e: Event)
    requires Up(h) && Possible(h, e)
  {
    match e
    case Arrive(_) => true
    case Work(m) => m.Inside() || !Hole(Prepare(h.resident, m).world.t, RunDispatches(h, m))
  }

  ghost predicate AllInside(calls: seq<Call>) {
    forall call :: call in calls ==> call.inside
  }

  lemma StepCalls(h: Host, e: Event)
    requires Up(h) && Possible(h, e)
    ensures var d, d' := h.resident.world.disk, Happens(h, e).resident.world.disk;
      && d.trace <= d'.trace
      && (AllInside(NewCalls(d, d')) <==> NotThroughHole(h, e))
  {
    hide Worker, Good, Dispatches, Prepare, Hole;
    if e.Work? {
      SeenIsGood(h, e.moment);
      CallsAreGated(Seen(h.setup, e.moment), h.resident, e.moment);
      var d, d' := h.resident.world.disk, Happens(h, e).resident.world.disk;
      if !e.moment.Inside() && !NotThroughHole(h, e) {
        assert NewCalls(d, d')[0] == Call(CLOSE, false);
      }
    }
  }

  /**
   Over every life of the agent, all its DOS calls are made inside an idle DOS with no critical
   error under way if and only if it never dispatches, outside of one, the end of a graphics
   capture that names a complete file download.
   */
  lemma {:induction false} DosIsSafe(h: Host, es: seq<Event>)
    requires Up(h) && Legal(h, es)
    ensures var d, d' := h.resident.world.disk, Run(h, es).resident.world.disk;
      && d.trace <= d'.trace
      && (AllInside(NewCalls(d, d')) <==> NeverThroughHole(h, es))
    decreases |es|
  {
    hide Happens, Up, Possible, NotThroughHole;
    if es != [] {
      var next := Happens(h, es[0]);
      StepCalls(h, es[0]);
      DosIsSafe(next, es[1..]);
      var a, b, c := h.resident.world.disk, next.resident.world.disk, Run(next, es[1..]).resident.world.disk;
      JoinCalls(a, b, c);
      assert forall call :: call in NewCalls(a, b) ==> call in NewCalls(a, c);
      assert forall call :: call in NewCalls(b, c) ==> call in NewCalls(a, c);
    }
  }

  // --- A reply goes out ---

  lemma StepSends(h: Host, e: Event)
    requires Up(h) && Possible(h, e) && Answering(h.resident) && (e.Work? ==> h.resident.outgoing.pending)
    requires Elapsed(h.resident.ticks, h.resident.session.activity) + TimerRuns([e]) < SESSION_IDLE_TICKS
    ensures var r, r' := h.resident, Happens(h, e).resident;
      && SameReply(r, r') && r'.session.active && Sendable(r)
      && r'.outgoing.next == r.outgoing.next + Works([e])
      && Elapsed(r'.ticks, r'.session.activity) == Elapsed(r.ticks, r.session.activity) + TimerRuns([e])
      && (e.Work? ==>
            r.outgoing.next < r.outgoing.count
            && r'.sent == r.sent + [Datagram(r.session.peer, Encode(ReplyFragments(r)[r.outgoing.next], r.session.key))]
            && r'.outgoing.pending == (r'.outgoing.next < r.outgoing.count))
      && (e.Arrive? ==> r'.sent == r.sent && r'.outgoing == r.outgoing)
  {
    hide Worker, Good, Elapsed, Encode, Fragment;
    ReplyIsSendable(h.setup, h.resident);
    if e.Work? {
      SeenIsGood(h, e.moment);
      FragmentGoesOut(Seen(h.setup, e.moment), h.resident, e.moment);
    }
  }

  lemma NoMail(peer: Peer, key: bytes, none: seq<Packet>)
    requires |key| == 16 && none == []
    ensures Mail(peer, key, none) == []
  {
  }

  /**
   While the session lasts, the next runs of the worker send the fragments of the reply one after
   the other, all of the same bytes, whatever arrives meanwhile; the bytes stay in the buffer.
   */
  lemma {:induction false} ReplyGoesOut(h: Host, es: seq<Event>)
    requires Up(h) && Legal(h, es) && Answering(h.resident) && (Works(es) > 0 ==> h.resident.outgoing.pending)
    requires h.resident.outgoing.next + Works(es) <= h.resident.outgoing.count
    requires Elapsed(h.resident.ticks, h.resident.session.activity) + TimerRuns(es) < SESSION_IDLE_TICKS
    ensures var r, r' := h.resident, Run(h, es).resident;
      && Sendable(r) && SameReply(r, r') && r'.session.active
      && r'.sent == r.sent + Mail(r.session.peer, r.session.key,
                                  ReplyFragments(r)[r.outgoing.next..r.outgoing.next + Works(es)])
      && r'.outgoing.next == r.outgoing.next + Works(es)
      && r'.outgoing.pending == (r.outgoing.pending && r'.outgoing.next < r.outgoing.count)
      && Elapsed(r'.ticks, r'.session.activity) == Elapsed(r.ticks, r.session.activity) + TimerRuns(es)
    decreases |es|
  {
    hide Happens, Good, Possible, Elapsed, Encode, Fragment, Mail;
    var r := h.resident;
    ReplyIsSendable(h.setup, r);
    var whole, next := ReplyFragments(r), r.outgoing.next;
    if es == [] {
      NoMail(r.session.peer, r.session.key, whole[next..next]);
    } else {
      var e, h' := es[0], Happens(h, es[0]);
      StepSends(h, e);
      assert ReplyFragments(h'.resident) == whole;
      ReplyGoesOut(h', es[1..]);
      if e.Work? {
        MailOne(r.session.peer, r.session.key, whole, next, next + Works(es));
      }
    }
  }

  // --- A repeated request is answered by the same datagrams ---

  ghost predicate Harmless(h: Host, e: Event)
    requires Up(h) && Possible(h, e)
  {
    match e
    case Arrive(_) => true
    case Work(m) => RunEffect(h, m) in {Nothing, Repeats}
  }

  // No run stores a fragment, or serves a refusal or a handshake.
  ghost predicate Calm(h: Host, es: seq<Event>)
    requires Up(h) && Legal(h, es)
    decreases |es|
  {
    es == [] || (Harmless(h, es[0]) && Calm(Happens(h, es[0]), es[1..]))
  }

  lemma StepKeepsReply(h: Host, e: Event)
    requires Up(h) && Possible(h, e) && Harmless(h, e) && h.resident.outgoing.opcode != CAPTURE_TEXT_SCREEN
    ensures var r, r' := h.resident, Happens(h, e).resident;
      && r'.outgoing.opcode == r.outgoing.opcode
      && (r'.session.active ==> r.session.active && SameReply(r, r'))
  {
    hide Worker, Good, WorkEffect;
    if e.Work? {
      SeenIsGood(h, e.moment);
      WorkKeepsReply(Seen(h.setup, e.moment), h.resident, e.moment);
    }
  }

  /**
   The reply stays in the buffer, and its record with it, until a run stores another fragment or
   serves a refusal or a handshake, or the session ends.
   */
  lemma {:induction false} ReplyStays(h: Host, es: seq<Event>)
    requires Up(h) && Legal(h, es) && Calm(h, es) && h.resident.outgoing.opcode != CAPTURE_TEXT_SCREEN
    ensures Run(h, es).resident.outgoing.opcode == h.resident.outgoing.opcode
    ensures Run(h, es).resident.session.active ==> h.resident.session.active && SameReply(h.resident, Run(h, es).resident)
    decreases |es|
  {
    hide Happens, Up, Possible, Harmless;
    if es != [] {
      StepKeepsReply(h, es[0]);
      ReplyStays(Happens(h, es[0]), es[1..]);
    }
  }

  lemma RepetitionStarts(h: Host, m: Moment)
    requires Up(h) && Possible(h, Work(m)) && h.resident.outgoing.opcode != CAPTURE_TEXT_SCREEN
    requires RunEffect(h, m) == Repeats
    ensures var r, r' := h.resident, Happens(h, Work(m)).resident;
      && r.session.active && r'.session.active && SameReply(r, r') && r'.sent == r.sent
      && r'.outgoing.next == 0 && r'.outgoing.pending == (r.outgoing.count != 0)
      && Elapsed(r'.ticks, r'.session.activity) == 0
  {
    hide Worker, Good, WorkEffect;
    SeenIsGood(h, m);
    WorkKeepsReply(Seen(h.setup, m), h.resident, m);
  }

  /**
   The datagrams sent after a repetition are those sent at first: from a reply about to go out,
   other than of the text screen, through its emission, any life in which no fragment is stored and
   no refusal or handshake is served, a repetition of the request, and the emission after it.
   */
  lemma RepetitionRepeats(h: Host, first: seq<Event>, between: seq<Event>, m: Moment, again: seq<Event>)
    requires Up(h) && Answering(h.resident) && h.resident.outgoing.next == 0 && h.resident.outgoing.pending
    requires Legal(h, first) && Works(first) == h.resident.outgoing.count
    requires Elapsed(h.resident.ticks, h.resident.session.activity) + TimerRuns(first) < SESSION_IDLE_TICKS
    requires Legal(Run(h, first), between) && Calm(Run(h, first), between)
    requires var h2 := Run(Run(h, first), between);
      Possible(h2, Work(m)) && RunEffect(h2, m) == Repeats && Legal(Happens(h2, Work(m)), again)
    requires Works(again) == h.resident.outgoing.count
    ensures var r, r1, h2 := h.resident, Run(h, first).resident, Run(Run(h, first), between);
      var r3 := Happens(h2, Work(m)).resident;
      && Sendable(r)
      && r1.sent == r.sent + Mail(r.session.peer, r.session.key, ReplyFragments(r))
      && r3.sent == h2.resident.sent
      && Run(Happens(h2, Work(m)), again).resident.sent == r3.sent + Mail(r.session.peer, r.session.key, ReplyFragments(r))
  {
    hide Good, Worker, Possible, Happens, Elapsed, RunEffect, Legal, Run, Calm, Mail, Fragment, Up;
    var r, h1 := h.resident, Run(h, first);
    var h2 := Run(h1, between);
    var h3 := Happens(h2, Work(m));
    ReplyIsSendable(h.setup, r) by { Unhidden(h); }
    ReplyGoesOut(h, first);
    ReplyStays(h1, between);
    RepetitionStarts(h2, m);
    assert ReplyFragments(h3.resident) == ReplyFragments(r);
    ReplyGoesOut(h3, again);
    assert ReplyFragments(r)[0..0 + |ReplyFragments(r)|] == ReplyFragments(r);
  }

  lemma Unhidden(h: Host)
    requires Up(h)
    ensures Good(h.setup, h.resident)
  {
  }

  /**
   A request dispatched by a run is answered by `Respond` applied to its bytes as received, and the
   next runs send exactly the fragments of that answer.
   */
  lemma AnswerGoesOut(h: Host, m: Moment, es: seq<Event>)
    requires Up(h) && Possible(h, Work(m)) && RunDispatches(h, m).Some?
    requires RunDispatches(h, m).value.0 != CAPTURE_TEXT_SCREEN
    requires Legal(Happens(h, Work(m)), es) && Works(es) == Happens(h, Work(m)).resident.outgoing.count
    ensures var (opcode, p), w := RunDispatches(h, m).value, Prepare(h.resident, m).world;
      && 1 <= opcode <= 18 && Sized(w.t) && Still(w.t, m.machine.picture) && w.keyboard.Valid()
      && var (w', answer) := Respond(h.setup.config, m.machine, w, opcode, p);
      var r, r1 := h.resident, Happens(h, Work(m)).resident;
      var whole := Fragment(RESPONSE_FRAGMENT_PAYLOAD, if answer.Error? then ERROR else RESPONSE, opcode, r.session.id,
                            r1.outgoing.id, AnswerBytes(answer));
      && r1.world == w' && r1.session.last == Some(r1.outgoing.id)
      && |r.session.key| == 16 && (forall f :: f in whole ==> f.Valid())
      && Run(Happens(h, Work(m)), es).resident.sent == r.sent + Mail(r.session.peer, r.session.key, whole)
  {
    hide Good, Worker, Legal, Run, Mail, Fragment, Respond, Dispatches, Prepare, AnswerBytes, Elapsed;
    var (opcode, p) := RunDispatches(h, m).value;
    SeenIsGood(h, m);
    DispatchDelivers(Seen(h.setup, m), h.resident, m);
    OnlyTextIsRead(h.setup.config, m.machine, Prepare(h.resident, m).world, opcode, p);
    var h1 := Happens(h, Work(m));
    AnswersAtOnce(h1, opcode, Respond(h.setup.config, m.machine, Prepare(h.resident, m).world, opcode, p).1);
    ReplyGoesOut(h1, es);
    assert ReplyFragments(h1.resident)[0..0 + |ReplyFragments(h1.resident)|] == ReplyFragments(h1.resident);
  }

  lemma AnswersAtOnce(h: Host, opcode: Opcode, answer: Answer)
    requires Up(h) && Delivers(h.resident, opcode, answer) && opcode != CAPTURE_TEXT_SCREEN && !answer.TextScreen?
    ensures var r := h.resident;
      && Answering(r) && Sendable(r) && r.outgoing.pending && r.outgoing.count <= MAX_RESPONSE_FRAGMENTS
      && Elapsed(r.ticks, r.session.activity) == 0
      && ReplyFragments(r) == Fragment(RESPONSE_FRAGMENT_PAYLOAD, if answer.Error? then ERROR else RESPONSE, opcode,
                                       r.session.id, r.outgoing.id, AnswerBytes(answer))
  {
    hide Good, Fragment, AnswerBytes;
    assert h.resident.outgoing.count > 0;
    ReplyIsSendable(h.setup, h.resident);
  }
}
