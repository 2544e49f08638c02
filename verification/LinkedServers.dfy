/**
 The agent and the simulator as the server behind the packet link: over every run, whatever each of
 them dispatches and answers is a history of one transfer server, so that every exchange of the
 bridge with either of them is one that TransferClient is proved correct for.
 */
module LinkedServers {
  import opened AgentServer
  import opened Bytes
  import opened DosPaths
  import opened Link
  import opened LinkSafety
  import opened LinkTransfers
  import opened Packets
  import opened Wrappers
  import A = AgentTransfers
  import C = TransferClient
  import Checksums
  import DosFiles
  import M = TransferMessages
  import PacketMac
  import R = ResidentReplies
  import ResidentSessions
  import S = TransferServer
  import Sessions
  import T = TransferSpec
  import TransferSafety
  import W = AgentAnswers

  // --- The agent ---

  // What the bytes of a request ask of the agent, which gives a name its own full name, and what
  // the bridge reads out of a reply.
  ghost function AgentLanguage(config: Config): Language {
    Language((request: Request) => M.Asked(M.Message(request.opcode, request.payload), W.Naming(config)),
             (reply: Sessions.Reply, says: T.Reply) => says == M.Read(reply.opcode, reply.kind, reply.payload))
  }

  // The machine and the agent's variables as a dispatched request finds them.
  datatype Turn = Turn(machine: R.Machine, world: R.World)

  ghost predicate Fit(turn: Turn) {
    && TransferSafety.Inv(turn.machine.picture, turn.world.t, turn.world.disk) && turn.world.keyboard.Valid()
    && (turn.machine.picture.Some? ==> W.Described(turn.machine.picture.value))
  }

  function Answered(config: Config, turn: Turn, d: Dispatch): (R.World, R.Answer)
    requires Fit(turn)
  {
    hide TransferSafety.Inv, R.Respond;
    TransferSafety.InvParts(turn.machine.picture, turn.world.t, turn.world.disk);
    R.Respond(config, turn.machine, turn.world, d.opcode, d.payload)
  }

  // The reply on record is the agent's answer.
  ghost predicate Recorded(config: Config, turn: Turn, d: Dispatch)
    requires Fit(turn)
  {
    ResidentSessions.Gives(Answered(config, turn, d).1, d.opcode, d.reply)
  }

  // From one request to the next: keys may be taken from the ring, DOS may become idle or busy, and
  // the screen may change, but for a picture that is being captured.
  predicate Follows(machine: R.Machine, left: R.World, turn: Turn) {
    && turn.world.t == left.t && turn.world.disk == left.disk.(inside := turn.world.disk.inside)
    && (left.t.kind == A.ReadScreen ==> turn.machine.picture == machine.picture)
  }

  // The dispatches on record are requests the agent served, one after the other.
  ghost predicate ServedByAgent(config: Config, log: seq<Dispatch>, turns: seq<Turn>) {
    && |turns| == |log| && (forall turn :: turn in turns ==> Fit(turn))
    && (forall i :: 0 <= i < |log| ==> Recorded(config, turns[i], log[i]))
    && forall i :: 0 < i < |log| ==>
         Follows(turns[i - 1].machine, Answered(config, turns[i - 1], log[i - 1]).0, turns[i])
  }

  lemma AbstractIsValid(picture: Option<A.Picture>, t: A.Transfer, disk: DosFiles.Disk, server: T.Server)
    requires TransferSafety.Inv(picture, t, disk) && server.transfer == Abstract(picture, t, disk)
    ensures T.Valid(server)
  {
    hide Checksums.Crc32;
  }

  // --- Each dispatch is a step of the server ---

  lemma AnsweredOther(config: Config, turn: Turn, d: Dispatch)
    requires Fit(turn) && R.OperationOf(d.opcode, turn.machine.drawn).None? && Recorded(config, turn, d)
    ensures var left := Answered(config, turn, d).0; left.t == turn.world.t && left.disk == turn.world.disk
    ensures d.reply.opcode == d.opcode
  {
    hide TransferSafety.Inv, R.KeyReply, W.Described;
    TransferSafety.InvParts(turn.machine.picture, turn.world.t, turn.world.disk);
  }

  lemma AnsweredTransfer(config: Config, turn: Turn, d: Dispatch)
    requires Fit(turn) && R.OperationOf(d.opcode, turn.machine.drawn).Some?
    requires Recorded(config, turn, d)
    ensures A.Sized(turn.world.t) && A.Still(turn.world.t, turn.machine.picture)
    ensures var op := R.OperationOf(d.opcode, turn.machine.drawn).value.0;
      var s := TransferSafety.Perform(config, turn.machine.picture, turn.world.t, turn.world.disk, op, d.payload);
      && Answered(config, turn, d).0.t == s.t && Answered(config, turn, d).0.disk == s.disk
      && s.reply == (if d.reply.kind == ERROR then None else Some(d.reply.payload))
      && d.reply.opcode == d.opcode && d.reply.kind != REQUEST
  {
    hide TransferSafety.Inv, TransferSafety.Perform;
    TransferSafety.InvParts(turn.machine.picture, turn.world.t, turn.world.disk);
  }

  // What the bridge asked is answered as the specification allows; a malformed request changes nothing.
  lemma StepDispatched(config: Config, turn: Turn, d: Dispatch, server: T.Server, next: T.Server, says: T.Reply)
      returns (after: T.Server)
    requires Fit(turn) && T.Valid(server) && d.reply.opcode == d.opcode && d.reply.kind != REQUEST
    requires R.OperationOf(d.opcode, turn.machine.drawn).Some?
    requires A.Sized(turn.world.t) && A.Still(turn.world.t, turn.machine.picture)
    requires var op := R.OperationOf(d.opcode, turn.machine.drawn).value.0;
      var s := TransferSafety.Perform(config, turn.machine.picture, turn.world.t, turn.world.disk, op, d.payload);
      && s.reply == (if d.reply.kind == ERROR then None else Some(d.reply.payload))
      && Serves(server, d.n, config, turn.machine.picture, op, d.payload, s, next, says)
    requires server.transfer == Abstract(turn.machine.picture, turn.world.t, turn.world.disk)
    ensures var op := R.OperationOf(d.opcode, turn.machine.drawn).value.0;
      var s := TransferSafety.Perform(config, turn.machine.picture, turn.world.t, turn.world.disk, op, d.payload);
      after.transfer == Abstract(turn.machine.picture, s.t, s.disk)
    ensures Dispatched(AgentLanguage(config), d, server, after)
  {
    hide M.Asked, M.Read, Asked, Says, T.Begins, T.Moves, T.Ends, T.Valid, Abstract, TransferSafety.Perform;
    hide TransferSafety.Inv, R.OperationOf, W.Described, PutU16, A.Sized, A.Still;
    var picture, language := turn.machine.picture, AgentLanguage(config);
    var op := R.OperationOf(d.opcode, turn.machine.drawn).value.0;
    W.AskedAlike(config, d.opcode, turn.machine.drawn, d.payload, picture, turn.world.t, turn.world.disk);
    after := server;
    var reply := T.Refused;
    if language.asks(Request(d.opcode, d.payload)) == Asked(config, op, d.payload) {
      after, reply := next, says;
    } else {
      RefusedSays(op, d.reply, says);
    }
    BegunIsNamed(server, d.n, Asked(config, op, d.payload), next, says);
    W.ReadAlike(d.opcode, turn.machine.drawn, picture, d.reply.kind, d.reply.payload, says);
    assert language.means(d.reply, reply);
  }

  lemma RefusedSays(op: TransferSafety.Operation, reply: Sessions.Reply, says: T.Reply)
    requires Says(op, None, says)
    ensures says == T.Refused
  {
  }

  lemma BegunIsNamed(server: T.Server, number: nat, request: T.Request, next: T.Server, says: T.Reply)
    requires T.Valid(server) && T.Allowed(server, number, request, next, says)
    ensures says.Begun? ==> says.id != 0
  {
    hide Checksums.Crc32, T.Valid;
  }

  // One request served is one step the specification allows, or none.
  lemma AgentServes(config: Config, turn: Turn, d: Dispatch, server: T.Server) returns (next: T.Server)
    requires Fit(turn) && Recorded(config, turn, d)
    requires T.Valid(server) && server.transfer == Abstract(turn.machine.picture, turn.world.t, turn.world.disk)
    ensures var left := Answered(config, turn, d).0;
      && TransferSafety.Inv(turn.machine.picture, left.t, left.disk)
      && next.transfer == Abstract(turn.machine.picture, left.t, left.disk)
      && T.Valid(next) && Dispatched(AgentLanguage(config), d, server, next)
  {
    hide TransferSafety.Inv, TransferSafety.Perform, Abstract, A.Sized, A.Still, T.Allowed, T.Valid, Says, Asked;
    hide Answered, Recorded, R.OperationOf, AgentLanguage, Dispatched;
    var picture, t, disk := turn.machine.picture, turn.world.t, turn.world.disk;
    match R.OperationOf(d.opcode, turn.machine.drawn)
    case None =>
      next := server;
      AnsweredOther(config, turn, d);
      NothingAsked(config, turn.machine.drawn, d, server);
    case Some((op, _, _)) =>
      AnsweredTransfer(config, turn, d);
      TransferSafety.PerformKeeps(config, picture, t, disk, op, d.payload);
      W.AskedAlike(config, d.opcode, turn.machine.drawn, d.payload, picture, t, disk);
      var after, says := AgentIsServer(server, d.n, config, picture, t, disk, op, d.payload);
      next := StepDispatched(config, turn, d, server, after, says);
      AbstractIsValid(picture, Answered(config, turn, d).0.t, Answered(config, turn, d).0.disk, next);
  }

  lemma NothingAsked(config: Config, drawn: Word, d: Dispatch, server: T.Server)
    requires T.Valid(server) && R.OperationOf(d.opcode, drawn).None? && d.reply.opcode == d.opcode
    ensures Dispatched(AgentLanguage(config), d, server, server)
  {
    hide T.Valid, T.Begins, T.Moves, T.Ends, GetU16, GetU32, Value, PacketMac.Word32, Named;
    assert M.Read(d.reply.opcode, d.reply.kind, d.reply.payload) == T.Refused;
    assert AgentLanguage(config).means(d.reply, T.Refused);
  }

  lemma FollowingAbstract(machine: R.Machine, left: R.World, turn: Turn)
    requires Follows(machine, left, turn)
    ensures Abstract(turn.machine.picture, turn.world.t, turn.world.disk) == Abstract(machine.picture, left.t, left.disk)
  {
  }

  ghost predicate StartsAs(server: T.Server, turn: Turn) {
    server == T.Server(Abstract(turn.machine.picture, turn.world.t, turn.world.disk), [], [])
  }

  /** Whatever the agent dispatches, in whatever order, is the history of one transfer server. */
  lemma {:induction false} AgentTracks(config: Config, log: seq<Dispatch>, turns: seq<Turn>)
      returns (servers: seq<T.Server>)
    requires ServedByAgent(config, log, turns) && log != []
    ensures Tracks(AgentLanguage(config), log, servers) && StartsAs(servers[0], turns[0])
    ensures var last := |log| - 1;
      var (left, picture) := (Answered(config, turns[last], log[last]).0, turns[last].machine.picture);
      servers[last + 1].transfer == Abstract(picture, left.t, left.disk)
    decreases |log|
  {
    hide Fit, Abstract, T.Valid, Answered, Recorded, Follows, Dispatched;
    var last := |log| - 1;
    assert turns[last] in turns;
    if last == 0 {
      var turn := turns[0];
      var start := T.Server(Abstract(turn.machine.picture, turn.world.t, turn.world.disk), [], []);
      assert T.Valid(start) by { FitIsValid(turn, start); }
      var next := AgentServes(config, turn, log[0], start);
      servers := [start, next];
    } else {
      ServedPrefix(config, log, turns, last);
      var before := AgentTracks(config, log[..last], turns[..last]);
      var left := Answered(config, turns[last - 1], log[last - 1]).0;
      FollowingAbstract(turns[last - 1].machine, left, turns[last]);
      var next := AgentServes(config, turns[last], log[last], before[last]);
      servers := before + [next];
      TracksOneMore(AgentLanguage(config), log, before, next);
    }
  }

  lemma FitIsValid(turn: Turn, server: T.Server)
    requires Fit(turn) && server.transfer == Abstract(turn.machine.picture, turn.world.t, turn.world.disk)
    ensures T.Valid(server)
  {
    AbstractIsValid(turn.machine.picture, turn.world.t, turn.world.disk, server);
  }

  lemma ServedPrefix(config: Config, log: seq<Dispatch>, turns: seq<Turn>, n: nat)
    requires ServedByAgent(config, log, turns) && n <= |log|
    ensures ServedByAgent(config, log[..n], turns[..n])
  {
    hide Fit, Answered, Recorded, Follows;
  }

  lemma TracksOneMore(language: Language, log: seq<Dispatch>, before: seq<T.Server>, next: T.Server)
    requires log != [] && Tracks(language, log[..|log| - 1], before) && T.Valid(next)
    requires T.Valid(before[|log| - 1]) && Dispatched(language, log[|log| - 1], before[|log| - 1], next)
    ensures Tracks(language, log, before + [next])
  {
    hide Dispatched, T.Valid;
    var servers, last := before + [next], |log| - 1;
    forall i | 0 <= i < |log|
      ensures Dispatched(language, log[i], servers[i], servers[i + 1])
    {
      if i < last {
        assert Dispatched(language, log[..last][i], before[i], before[i + 1]);
      }
    }
  }

  // --- Every exchange with either of them ---

  // A stretch of a run in which one request is issued, and nothing is dispatched that is not on record.
  ghost predicate OneIssued(s: System, events: seq<Event>, log: seq<Dispatch>) {
    Inv(s) && Legal(s, events) && |Run(s, events).history| == |s.history| + 1 && Run(s, events).log <= log
  }

  ghost predicate SomeExchange(language: Language, servers: seq<T.Server>, s: System, t: System) {
    && |t.history| == |s.history| + 1 && LastTag(s.log) <= LastTag(t.log) <= |t.history|
    && |s.log| <= |t.log| < |servers| && LastTag(s.log) < |t.history| && T.Valid(servers[|s.log|])
    && exists before, r :: IsExchange(language, servers, s, t, before, r)
  }

  ghost predicate EveryExchange(language: Language, log: seq<Dispatch>, servers: seq<T.Server>) {
    forall s, events :: OneIssued(s, events, log) ==> SomeExchange(language, servers, s, Run(s, events))
  }

  lemma TrackedExchanges(language: Language, log: seq<Dispatch>, servers: seq<T.Server>)
    requires Tracks(language, log, servers)
    ensures EveryExchange(language, log, servers)
  {
    hide Inv, Legal, Run, IsExchange, Tracks, LastTag, T.Valid;
    TracksParts(language, log, servers);
    forall s, events | OneIssued(s, events, log)
      ensures SomeExchange(language, servers, s, Run(s, events))
    {
      var before, r := RunIsExchange(s, events, language, log, servers);
    }
  }

  /**
   The bridge with the agent: behind everything the agent dispatches there is one server, starting
   as the agent stands, and every stretch of a run in which the bridge issues one request is one
   exchange with that server.
   */
  lemma AgentExchanges(config: Config, log: seq<Dispatch>, turns: seq<Turn>) returns (servers: seq<T.Server>)
    requires ServedByAgent(config, log, turns)
    ensures |servers| == |log| + 1 && (log != [] ==> StartsAs(servers[0], turns[0]))
    ensures EveryExchange(AgentLanguage(config), log, servers)
  {
    hide ServedByAgent, StartsAs, EveryExchange;
    if log == [] {
      servers := [T.Server(T.Idle, [], [])];
    } else {
      servers := AgentTracks(config, log, turns);
    }
    TrackedExchanges(AgentLanguage(config), log, servers);
  }

  // What a dispatched request is to the simulator: another operation, or a transfer with what the
  // target supplies for it.
  datatype Ask = Other | Transfer(request: T.Request, id: Word, contents: Option<bytes>, stored: bool)

  function AskedFor(ask: Ask): T.Request {
    match ask
    case Other => T.Abort(0)
    case Transfer(request, _, _, _) => request
  }

  // The dispatches on record, in the words of a language.
  ghost predicate Reads(language: Language, log: seq<Dispatch>, asks: seq<Ask>) {
    |asks| == |log| && forall i :: 0 <= i < |log| ==>
      && language.asks(Request(log[i].opcode, log[i].payload)) == AskedFor(asks[i])
      && (asks[i].Transfer? ==> asks[i].id != 0)
  }

  ghost predicate Speaks(language: Language, log: seq<Dispatch>, replies: seq<T.Reply>)
    requires |replies| == |log|
  {
    forall i :: 0 <= i < |log| ==> language.means(log[i].reply, replies[i])
  }

  /**
   The bridge with the simulator: it serves what is dispatched, one request after the other, and
   when the replies on record are those it gave, every stretch of a run in which the bridge issues
   one request is one exchange with one server, starting and ending as the simulator stands.
   */
  method ServeAll(simulator: S.Simulator, asks: seq<Ask>, ghost language: Language, ghost log: seq<Dispatch>)
      returns (replies: seq<T.Reply>, ghost servers: seq<T.Server>)
    requires simulator.Valid() && Reads(language, log, asks)
    modifies simulator
    ensures simulator.Valid() && |replies| == |log| && |servers| == |log| + 1
    ensures servers[0] == old(simulator.Abstract()) && servers[|log|] == simulator.Abstract()
    ensures Speaks(language, log, replies) ==> Tracks(language, log, servers) && EveryExchange(language, log, servers)
  {
    hide T.Allowed, EveryExchange;
    replies, servers := [], [simulator.Abstract()];
    SimulatorIsValid(simulator);
    for i := 0 to |asks|
      invariant simulator.Valid() && |replies| == i && |servers| == i + 1
      invariant servers[0] == old(simulator.Abstract()) && servers[i] == simulator.Abstract()
      invariant forall k :: 0 <= k <= i ==> T.Valid(servers[k])
      invariant forall k :: 0 <= k < i ==>
        T.Allowed(servers[k], log[k].n, AskedFor(asks[k]), servers[k + 1], replies[k])
    {
      var reply := T.Refused;
      match asks[i] {
        case Other => RefusalIsAllowed(simulator.Abstract(), log[i].n);
        case Transfer(request, id, contents, stored) =>
          reply := simulator.Serve(request, id, contents, stored, log[i].n);
      }
      SimulatorIsValid(simulator);
      replies, servers := replies + [reply], servers + [simulator.Abstract()];
    }
    if Speaks(language, log, replies) {
      AllAllowed(language, log, asks, replies, servers);
      TrackedExchanges(language, log, servers);
    }
  }

  lemma SimulatorIsValid(simulator: S.Simulator)
    requires simulator.Valid()
    ensures T.Valid(simulator.Abstract())
  {
    hide Checksums.Crc32;
  }

  lemma RefusalIsAllowed(server: T.Server, number: nat)
    requires T.Valid(server)
    ensures T.Allowed(server, number, T.Abort(0), server, T.Refused)
  {
    hide T.Begins, T.Moves, T.Ends;
  }

  lemma AllAllowed(language: Language, log: seq<Dispatch>, asks: seq<Ask>, replies: seq<T.Reply>, servers: seq<T.Server>)
    requires Reads(language, log, asks) && |replies| == |log| && Speaks(language, log, replies) && |servers| == |log| + 1
    requires forall i :: 0 <= i <= |log| ==> T.Valid(servers[i])
    requires forall i :: 0 <= i < |log| ==>
      T.Allowed(servers[i], log[i].n, AskedFor(asks[i]), servers[i + 1], replies[i])
    ensures Tracks(language, log, servers)
  {
    hide T.Allowed, T.Valid;
    forall i | 0 <= i < |log|
      ensures Dispatched(language, log[i], servers[i], servers[i + 1])
    {
      assert language.means(log[i].reply, replies[i]);
    }
  }
}
