/**
 Transfers over the packet link: every run of bridge, channel and target in which one request is
 issued is one exchange as TransferClient sees it, whatever the server behind the target is.
 */
module LinkTransfers {
  import opened Bytes
  import opened Wrappers
  import opened Packets
  import opened Sessions
  import opened Link
  import opened LinkSafety
  import T = TransferSpec
  import C = TransferClient

  // What the bytes of requests ask for, and which replies those of a reply may be.
  datatype Language = Language(asks: Request -> T.Request, means: (Reply, T.Reply) -> bool)

  // The server behind the target, after each dispatch on record.
  ghost predicate Tracks(language: Language, log: seq<Dispatch>, servers: seq<T.Server>) {
    && |servers| == |log| + 1
    && (forall i :: 0 <= i <= |log| ==> T.Valid(servers[i]))
    && (forall i :: 0 <= i < |log| ==> Dispatched(language, log[i], servers[i], servers[i + 1]))
  }

  ghost predicate Dispatched(language: Language, d: Dispatch, before: T.Server, after: T.Server)
    requires T.Valid(before)
  {
    exists reply ::
      language.means(d.reply, reply)
      && T.Allowed(before, d.n, language.asks(Request(d.opcode, d.payload)), after, reply)
  }

  // The requests after number `first` up to number `last`.
  function Issued(language: Language, history: seq<Request>, first: nat, last: nat): (r: seq<C.Numbered>)
    requires first <= last <= |history|
    ensures |r| == last - first
  {
    seq(last - first, i requires 0 <= i < last - first =>
      C.Numbered(first + 1 + i, language.asks(history[first + i])))
  }

  // The part of the log from entry `i` up to entry `j` is of requests after `first` and up to `last`.
  ghost predicate Between(log: seq<Dispatch>, i: nat, j: nat, first: nat, last: nat) {
    i <= j <= |log| && forall k :: i <= k < j ==> first < log[k].n <= last
  }

  ghost predicate OwnRequests(history: seq<Request>, log: seq<Dispatch>) {
    forall i :: 0 <= i < |log| ==>
      1 <= log[i].n <= |history| && history[log[i].n - 1] == Request(log[i].opcode, log[i].payload)
  }

  // A stretch of the log is the requests of a stretch of the history, in order, some of them lost.
  lemma {:induction false} LogRuns(language: Language, history: seq<Request>, log: seq<Dispatch>, servers: seq<T.Server>,
                                   i: nat, j: nat, first: nat, last: nat)
    requires Increasing(log) && OwnRequests(history, log) && Tracks(language, log, servers)
    requires first <= last <= |history| && Between(log, i, j, first, last)
    ensures C.Runs(servers[i], Issued(language, history, first, last), servers[j])
    decreases last - first
  {
    hide T.Allowed, T.Valid;
    var queue := Issued(language, history, first, last);
    if first == last {
      assert i == j;
    } else {
      assert queue[1..] == Issued(language, history, first + 1, last);
      if i < j && log[i].n == first + 1 {
        assert Dispatched(language, log[i], servers[i], servers[i + 1]);
        assert C.Answers(servers[i], queue[0], servers[i + 1]);
        LogRuns(language, history, log, servers, i + 1, j, first + 1, last);
      } else {
        LogRuns(language, history, log, servers, i, j, first + 1, last);
      }
    }
  }

  // Nothing on record is ever changed: a run only adds to the history and to the log.
  lemma {:induction false} RecordsGrow(s: System, events: seq<Event>)
    requires Legal(s, events)
    ensures s.history <= Run(s, events).history && s.log <= Run(s, events).log
    decreases |events|
  {
    if events != [] {
      StepRecords(s, events[0]);
      RecordsGrow(Step(s, events[0]), events[1..]);
    }
  }

  lemma StepRecords(s: System, e: Event)
    requires Enabled(s, e)
    ensures s.history <= Step(s, e).history && s.log <= Step(s, e).log
  {
    hide Handle, Consider, Emission, RequestPackets, TagAll, Fits;
  }

  // Within the records of a system that keeps its invariant, each dispatch is of an issued request.
  lemma RecordsAreOwn(s: System)
    requires OutsideInv(s)
    ensures Increasing(s.log) && OwnRequests(s.history, s.log) && LastTag(s.log) <= |s.history|
    ensures ReturnsOwnReplies(s)
  {
    InvIsSafe(s);
  }

  // Where the log was cut: everything after the cut is of later requests.
  lemma LogStretch(history: seq<Request>, log: seq<Dispatch>, a: nat)
    requires Increasing(log) && OwnRequests(history, log) && a <= |log|
    ensures LastTag(log[..a]) <= LastTag(log) <= |history|
    ensures Between(log, a, |log|, LastTag(log[..a]), LastTag(log))
    ensures a < |log| ==>
      LastTag(log[..a]) < LastTag(log) && Between(log, a, |log| - 1, LastTag(log[..a]), LastTag(log) - 1)
  {
    if a > 0 {
      assert log[..a][a - 1] == log[a - 1];
    }
  }

  lemma IssuedSplits(language: Language, history: seq<Request>, was: seq<Request>, first: nat, middle: nat)
    requires was <= history && |history| == |was| + 1 && first <= middle <= |history| && first <= |was|
    ensures var queue := Issued(language, was, first, |was|) + [C.Numbered(|history|, language.asks(history[|was|]))];
      && queue == Issued(language, history, first, |history|)
      && queue[..middle - first] == Issued(language, history, first, middle)
      && queue[middle - first..] == Issued(language, history, middle, |history|)
    ensures Issued(language, was, first, |was|) == Issued(language, history, first, |was|)
  {
  }

  // The records from one request to the next are one exchange.
  lemma RecordsAreExchange(language: Language, was: seq<Request>, history: seq<Request>, log: seq<Dispatch>, a: nat,
                           servers: seq<T.Server>)
      returns (before: T.Server, r: Option<T.Reply>)
    requires Increasing(log) && OwnRequests(history, log) && Tracks(language, log, servers) && a <= |log|
    requires was <= history && |history| == |was| + 1 && LastTag(log[..a]) <= |was|
    ensures var first, last, n := LastTag(log[..a]), LastTag(log), |history|;
      && first <= last <= n
      && C.Exchanged(servers[a], Issued(language, was, first, n - 1), C.Numbered(n, language.asks(history[n - 1])),
                     servers[|log|], Issued(language, history, last, n), last - first, before, r)
      && (last == n ==> log != [] && r.Some? && language.means(log[|log| - 1].reply, r.value))
  {
    hide T.Allowed, T.Valid, C.Runs, Issued, Increasing;
    var first, last, n := LastTag(log[..a]), LastTag(log), |history|;
    LogStretch(history, log, a);
    IssuedSplits(language, history, was, first, last);
    LogRuns(language, history, log, servers, a, |log|, first, last);
    before, r := servers[0], None;
    if last == n {
      LogRuns(language, history, log, servers, a, |log| - 1, first, n - 1);
      var d := log[|log| - 1];
      assert Dispatched(language, d, servers[|log| - 1], servers[|log|]);
      var reply :|
        language.means(d.reply, reply)
        && T.Allowed(servers[|log| - 1], d.n, language.asks(Request(d.opcode, d.payload)), servers[|log|], reply);
      before, r := servers[|log| - 1], Some(reply);
    }
  }

  // A payload returned for the newest request is the reply of the newest dispatch.
  lemma ReturnedIsLast(log: seq<Dispatch>, n: nat, payload: bytes)
    requires Increasing(log) && LastTag(log) <= n && Replied(log, n, payload)
    ensures log != [] && LastTag(log) == n && log[|log| - 1].reply.payload == payload
  {
  }

  lemma TracksPrefix(language: Language, log: seq<Dispatch>, all: seq<Dispatch>, servers: seq<T.Server>)
    requires Tracks(language, all, servers) && log <= all
    ensures Tracks(language, log, servers[..|log| + 1])
  {
    hide Dispatched, T.Valid;
    var cut := servers[..|log| + 1];
    forall i | 0 <= i < |log|
      ensures Dispatched(language, log[i], cut[i], cut[i + 1])
    {
      assert Dispatched(language, all[i], servers[i], servers[i + 1]);
    }
  }

  // What becomes of the server between two states of a run, the second with one more request, is one
  // exchange of TransferClient; a payload returned for that request is the reply of the last dispatch.
  ghost predicate IsExchange(language: Language, servers: seq<T.Server>, s: System, t: System,
                             before: T.Server, r: Option<T.Reply>)
    requires |t.history| == |s.history| + 1 && LastTag(s.log) <= LastTag(t.log) <= |t.history|
    requires |s.log| <= |t.log| < |servers| && LastTag(s.log) < |t.history| && T.Valid(servers[|s.log|])
  {
    var n := |t.history|;
    && C.Exchanged(servers[|s.log|], Issued(language, s.history, LastTag(s.log), n - 1),
                   C.Numbered(n, language.asks(t.history[n - 1])),
                   servers[|t.log|], Issued(language, t.history, LastTag(t.log), n),
                   LastTag(t.log) - LastTag(s.log), before, r)
    && forall k :: 0 <= k < |t.results| && t.results[k].n == n ==>
         t.log != [] && r.Some? && language.means(t.log[|t.log| - 1].reply, r.value)
         && t.results[k].payload == t.log[|t.log| - 1].reply.payload
  }

  /**
   Over every run in which the bridge issues one request, what becomes of the server behind the
   target is one exchange of TransferClient: the requests left from before and the new one reach
   it in order or are lost, and a payload returned for the new one is the reply of its own
   dispatch, with nothing left on its way. The servers are those of all that is ever dispatched,
   so that the exchanges of a session follow one another.
   */
  lemma RunIsExchange(s: System, events: seq<Event>, language: Language, log: seq<Dispatch>, servers: seq<T.Server>)
      returns (before: T.Server, r: Option<T.Reply>)
    requires Inv(s) && Legal(s, events) && |Run(s, events).history| == |s.history| + 1
    requires Run(s, events).log <= log && Tracks(language, log, servers)
    ensures var t := Run(s, events);
      && |s.log| <= |t.log| && LastTag(s.log) <= LastTag(t.log) <= |t.history| && LastTag(s.log) < |t.history|
      && IsExchange(language, servers, s, t, before, r)
  {
    hide Inv, Run, Legal, C.Exchanged, Tracks, Issued, OwnRequests, Increasing, ReturnsOwnReplies, LastTag;
    var t := Run(s, events);
    RunKeepsInv(s, events);
    RecordsAreOwn(s) by { OutsideOf(s); }
    RecordsAreOwn(t) by { OutsideOf(t); }
    RecordsGrow(s, events);
    assert t.log[..|s.log|] == s.log;
    TracksPrefix(language, t.log, log, servers);
    TracksParts(language, log, servers);
    before, r := RecordsAreExchange(language, s.history, t.history, t.log, |s.log|, servers[..|t.log| + 1]);
    ReturnsAreLast(t);
  }

  lemma OutsideOf(s: System)
    requires Inv(s)
    ensures OutsideInv(s)
  {
  }

  lemma ReturnsAreLast(t: System)
    requires Increasing(t.log) && LastTag(t.log) <= |t.history| && ReturnsOwnReplies(t)
    ensures forall k :: 0 <= k < |t.results| && t.results[k].n == |t.history| ==>
      LastTag(t.log) == |t.history| && t.log != [] && t.results[k].payload == t.log[|t.log| - 1].reply.payload
  {
    forall k | 0 <= k < |t.results| && t.results[k].n == |t.history|
      ensures LastTag(t.log) == |t.history| && t.log != [] && t.results[k].payload == t.log[|t.log| - 1].reply.payload
    {
      ReturnedIsLast(t.log, |t.history|, t.results[k].payload);
    }
  }

  lemma TracksParts(language: Language, log: seq<Dispatch>, servers: seq<T.Server>)
    requires Tracks(language, log, servers)
    ensures |servers| == |log| + 1 && forall i :: 0 <= i <= |log| ==> T.Valid(servers[i])
  {
  }
}
