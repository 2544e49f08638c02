/**
 The hooks of interrupts 08h, 1Ch and 28h as steps of one machine. Interrupts are disabled from
 the entry of a hook until it has switched stacks, and from the end of the worker until it has
 switched back, so another interrupt comes only between these steps, at any depth.
 */
module InterruptHooks {
  import opened Bytes

  datatype Interrupt = INT08 | INT1C | INT28

  datatype Stack = Stack(ss: int, sp: int)
  {
    function Up(n: int): Stack {
      Stack(ss, sp + n)
    }
  }

  // Where a hook is: in the old timer handler it calls first, in the worker, or in the old
  // handler it jumps to last.
  datatype Phase = Calling | Working | Chained

  // The hooks under way over the code they interrupted. `at` is where the stack of the code a hook
  // runs is by now, on whatever stack that code works; `interrupted` is history: the stack of the
  // code the interrupt came upon.
  datatype Hooks =
    | Foreground(at: Stack)
    | Hook(interrupt: Interrupt, phase: Phase, at: Stack, interrupted: Stack, below: Hooks)

  datatype Machine = Machine(
    stack: Stack,
    hooks: Hooks,
    idleActive: bool,
    saved: Stack,
    int08Entries: Word,
    int1cEntries: Word,
    int28Entries: Word,
    int1cBefore: Word,
    workerRuns: Word,
    fallbackRuns: Word,
    busySkips: Word,
    timerTurns: Word)

  // The flags and return address an interrupt pushes, and the nine registers a hook pushes.
  const RETURN := 6
  const REGISTERS := 18

  // The top of the worker's own stack.
  const RESIDENT_SEGMENT := 1
  const RESIDENT_TOP := 32768

  function ResidentStack(): Stack {
    Stack(RESIDENT_SEGMENT, RESIDENT_TOP)
  }

  function Next(n: Word): Word {
    (n + 1) % 0x1_0000
  }

  datatype Event =
    | Enter(interrupt: Interrupt)
    | Move(stack: Stack)
    | OldTimerReturns
    | WorkerReturns
    | OldHandlerReturns

  // The stack on which the code of a hook begins.
  function Begins(phase: Phase, interrupted: Stack): Stack {
    match phase
    case Calling => interrupted.Up(-2 * RETURN)
    case Working => ResidentStack()
    case Chained => interrupted.Up(-RETURN)
  }

  predicate Ending(h: Hooks, phase: Phase) {
    h.Hook? && h.phase == phase && h.at == Begins(phase, h.interrupted)
  }

  // Code returns only with its stack as it began.
  predicate Possible(m: Machine, e: Event) {
    match e
    case Enter(_) => true
    case Move(_) => true
    case OldTimerReturns => Ending(m.hooks, Calling)
    case WorkerReturns => Ending(m.hooks, Working)
    case OldHandlerReturns => Ending(m.hooks, Chained)
  }

  // The worker is claimed: its caller's stack is saved and the stack switched.
  function Claim(m: Machine): Machine
    requires m.hooks.Hook?
  {
    m.(idleActive := true, workerRuns := Next(m.workerRuns), saved := m.stack, stack := ResidentStack(),
       hooks := m.hooks.(phase := Working, at := ResidentStack()))
  }

  // The end of a hook, with its registers still pushed: the timer's returns to the code it
  // interrupted, the others jump to the old handler.
  function Finish(m: Machine): Machine
    requires m.hooks.Hook?
  {
    if m.hooks.interrupt == INT08 then m.(stack := m.stack.Up(REGISTERS + RETURN), hooks := m.hooks.below)
    else m.(stack := m.stack.Up(REGISTERS), hooks := m.hooks.(phase := Chained, at := m.stack.Up(REGISTERS)))
  }

  function TakeTurn(m: Machine): Machine
    requires m.hooks.Hook?
  {
    if m.idleActive then Finish(m.(busySkips := Next(m.busySkips))) else Claim(m)
  }

  // A hook of 1Ch or 28h with its registers pushed.
  function Pushed(m: Machine, interrupt: Interrupt): Machine {
    m.(hooks := Hook(interrupt, Chained, m.stack.Up(-RETURN), m.stack, m.hooks), stack := m.stack.Up(-RETURN - REGISTERS))
  }

  function Enters(m: Machine, interrupt: Interrupt): Machine {
    match interrupt
    case INT08 =>
      m.(hooks := Hook(INT08, Calling, m.stack.Up(-2 * RETURN), m.stack, m.hooks), stack := m.stack.Up(-2 * RETURN),
         int08Entries := Next(m.int08Entries), int1cBefore := m.int1cEntries)
    case INT1C =>
      TakeTurn(Pushed(m.(int1cEntries := Next(m.int1cEntries)), INT1C))
    case INT28 =>
      TakeTurn(Pushed(m.(int28Entries := Next(m.int28Entries)), INT28))
  }

  // The watchdog: a turn for the worker when the old timer handler did not reach interrupt 1Ch.
  function Watchdog(m: Machine): Machine
    requires m.hooks.Hook?
  {
    if m.int1cEntries != m.int1cBefore then Finish(m)
    else
      TakeTurn(m.(timerTurns := Next(m.timerTurns),
                  fallbackRuns := if m.idleActive then m.fallbackRuns else Next(m.fallbackRuns)))
  }

  function Step(m: Machine, e: Event): Machine
    requires Possible(m, e)
  {
    match e
    case Move(stack) => m.(stack := stack, hooks := m.hooks.(at := stack))
    case Enter(interrupt) => Enters(m, interrupt)
    case OldTimerReturns => Watchdog(m.(stack := m.stack.Up(RETURN - REGISTERS)))
    case WorkerReturns => Finish(m.(stack := m.saved, idleActive := false))
    case OldHandlerReturns => m.(stack := m.stack.Up(RETURN), hooks := m.hooks.below)
  }

  // --- The invariant ---

  // Every hook came upon the code below it; only the timer's calls, only the others chain.
  ghost predicate Nested(h: Hooks) {
    h.Hook? ==>
      && h.interrupted == h.below.at && Nested(h.below)
      && (h.phase == Calling ==> h.interrupt == INT08) && (h.phase == Chained ==> h.interrupt != INT08)
  }

  function Workers(h: Hooks): nat {
    if h.Foreground? then 0 else Workers(h.below) + (if h.phase == Working then 1 else 0)
  }

  // What is saved is the stack at which the hook that runs the worker switched.
  ghost predicate SavedFor(h: Hooks, saved: Stack) {
    h.Hook? ==>
      SavedFor(h.below, saved) && (h.phase == Working ==> saved == h.interrupted.Up(-RETURN - REGISTERS))
  }

  // Every turn was either a run or a skip.
  ghost predicate Counted(m: Machine) {
    (m.workerRuns + m.busySkips - m.int1cEntries - m.int28Entries - m.timerTurns) % 0x1_0000 == 0
  }

  ghost predicate OneWorker(m: Machine) {
    Workers(m.hooks) == (if m.idleActive then 1 else 0) && SavedFor(m.hooks, m.saved)
  }

  ghost predicate Inv(m: Machine) {
    Nested(m.hooks) && m.stack == m.hooks.at && OneWorker(m) && Counted(m)
  }

  lemma {:induction false} NoWorkerSaved(h: Hooks, saved: Stack)
    requires Workers(h) == 0
    ensures SavedFor(h, saved)
  {
    if h.Hook? {
      NoWorkerSaved(h.below, saved);
    }
  }

  // With its registers pushed and its turn not yet taken: all is well below.
  ghost predicate AtTurn(m: Machine) {
    && m.hooks.Hook? && m.stack == m.hooks.interrupted.Up(-RETURN - REGISTERS)
    && m.hooks.interrupted == m.hooks.below.at && Nested(m.hooks.below)
    && Workers(m.hooks.below) == (if m.idleActive then 1 else 0) && SavedFor(m.hooks.below, m.saved)
  }

  // How far the count is behind: the turn being taken.
  ghost predicate Owes(m: Machine, turns: int) {
    (m.workerRuns + m.busySkips + turns - m.int1cEntries - m.int28Entries - m.timerTurns) % 0x1_0000 == 0
  }

  lemma OneMore(a: Word, rest: int)
    requires (a + 1 + rest) % 0x1_0000 == 0
    ensures (Next(a) + rest) % 0x1_0000 == 0
  {
  }

  lemma OneLess(a: Word, rest: int)
    requires (rest - a) % 0x1_0000 == 0
    ensures (rest + 1 - Next(a)) % 0x1_0000 == 0
  {
  }

  lemma FinishKeeps(m: Machine)
    requires AtTurn(m) && Owes(m, 0)
    ensures Inv(Finish(m))
  {
  }

  lemma TakeTurnKeeps(m: Machine)
    requires AtTurn(m) && Owes(m, 1)
    ensures Inv(TakeTurn(m))
  {
    var rest := 0 - m.int1cEntries - m.int28Entries - m.timerTurns;
    if m.idleActive {
      OneMore(m.busySkips, m.workerRuns + rest);
      FinishKeeps(m.(busySkips := Next(m.busySkips)));
    } else {
      OneMore(m.workerRuns, m.busySkips + rest);
      NoWorkerSaved(m.hooks.below, m.stack);
    }
  }

  lemma EnterKeeps(m: Machine, interrupt: Interrupt)
    requires Inv(m)
    ensures Inv(Enters(m, interrupt))
  {
    hide TakeTurn;
    match interrupt
    case INT08 =>
    case INT1C =>
      OneLess(m.int1cEntries, m.workerRuns + m.busySkips - m.int28Entries - m.timerTurns);
      TakeTurnKeeps(Pushed(m.(int1cEntries := Next(m.int1cEntries)), INT1C));
    case INT28 =>
      OneLess(m.int28Entries, m.workerRuns + m.busySkips - m.int1cEntries - m.timerTurns);
      TakeTurnKeeps(Pushed(m.(int28Entries := Next(m.int28Entries)), INT28));
  }

  lemma WatchdogKeeps(m: Machine)
    requires AtTurn(m) && Owes(m, 0)
    ensures Inv(Watchdog(m))
  {
    hide TakeTurn, Finish;
    FinishKeeps(m);
    OneLess(m.timerTurns, m.workerRuns + m.busySkips - m.int1cEntries - m.int28Entries);
    TakeTurnKeeps(m.(timerTurns := Next(m.timerTurns),
                     fallbackRuns := if m.idleActive then m.fallbackRuns else Next(m.fallbackRuns)));
  }

  /** Every step keeps: one worker at most, its caller's stack saved, every turn counted once. */
  lemma StepKeeps(m: Machine, e: Event)
    requires Inv(m) && Possible(m, e)
    ensures Inv(Step(m, e))
  {
    hide Enters, Watchdog, Finish;
    match e
    case Move(_) =>
    case Enter(interrupt) => EnterKeeps(m, interrupt);
    case OldTimerReturns => WatchdogKeeps(m.(stack := m.stack.Up(RETURN - REGISTERS)));
    case WorkerReturns => FinishKeeps(m.(stack := m.saved, idleActive := false));
    case OldHandlerReturns =>
  }

  // --- Whole runs ---

  ghost predicate Runs(m: Machine, es: seq<Event>, m': Machine)
    decreases |es|
  {
    if es == [] then m == m'
    else Possible(m, es[0]) && Runs(Step(m, es[0]), es[1..], m')
  }

  function Initial(start: Stack): Machine {
    Machine(start, Foreground(start), false, start, 0, 0, 0, 0, 0, 0, 0, 0)
  }

  /**
   Over every run, however the interrupts nest: at most one worker is under way, what is saved
   belongs to it, and entries by 1Ch and 28h and turns of the watchdog are counted, each once, as
   worker runs or busy skips.
   */
  lemma {:induction false} RunKeeps(m: Machine, es: seq<Event>, m': Machine)
    requires Inv(m) && Runs(m, es, m')
    ensures Inv(m') && Workers(m'.hooks) <= 1
    decreases |es|
  {
    hide Step, Possible;
    if es != [] {
      StepKeeps(m, es[0]);
      RunKeeps(Step(m, es[0]), es[1..], m');
    }
  }

  lemma InitialInv(start: Stack)
    ensures Inv(Initial(start))
  {
  }

  function Depth(h: Hooks): nat {
    if h.Foreground? then 0 else 1 + Depth(h.below)
  }

  // The lowest `d` hooks and the foreground.
  function Lowest(h: Hooks, d: nat): Hooks
    requires d <= Depth(h)
  {
    if Depth(h) == d then h else Lowest(h.below, d)
  }

  // A step changes nothing below the top hook.
  lemma StepsOnTop(m: Machine, e: Event, d: nat)
    requires Possible(m, e) && Depth(m.hooks) > d
    ensures Depth(Step(m, e).hooks) >= d && Lowest(Step(m, e).hooks, d) == Lowest(m.hooks, d)
  {
  }

  // The hooks stay above depth `d` until the end of the run.
  ghost predicate Above(m: Machine, es: seq<Event>, d: nat)
    decreases |es|
  {
    es != [] ==> Depth(m.hooks) > d && Possible(m, es[0]) && Above(Step(m, es[0]), es[1..], d)
  }

  lemma {:induction false} LowestStays(m: Machine, es: seq<Event>, m': Machine, d: nat)
    requires Runs(m, es, m') && Above(m, es, d) && Depth(m.hooks) >= d
    ensures Depth(m'.hooks) >= d && Lowest(m'.hooks, d) == Lowest(m.hooks, d)
    decreases |es|
  {
    hide Step, Possible;
    if es != [] {
      StepsOnTop(m, es[0], d);
      LowestStays(Step(m, es[0]), es[1..], m', d);
    }
  }

  lemma EnteringIsAbove(m: Machine, interrupt: Interrupt)
    ensures Depth(Enters(m, interrupt).hooks) == Depth(m.hooks) + 1
    ensures Lowest(Enters(m, interrupt).hooks, Depth(m.hooks)) == m.hooks
  {
  }

  /**
   When an interrupt is over, at whatever depth it came and whatever interrupted it meanwhile, the
   interrupted code goes on with exactly its stack, and the hooks below are as they were.
   */
  lemma InterruptedCodeResumes(m: Machine, interrupt: Interrupt, es: seq<Event>, m': Machine)
    requires Inv(m) && Runs(Step(m, Enter(interrupt)), es, m')
    requires Above(Step(m, Enter(interrupt)), es, Depth(m.hooks)) && Depth(m'.hooks) == Depth(m.hooks)
    ensures m'.stack == m.stack && m'.hooks == m.hooks
  {
    hide Enters;
    var m1 := Step(m, Enter(interrupt));
    StepKeeps(m, Enter(interrupt));
    RunKeeps(m1, es, m');
    EnteringIsAbove(m, interrupt);
    LowestStays(m1, es, m', Depth(m.hooks));
  }

  /** The worker's end switches back to the very stack its own hook had when it claimed the worker. */
  lemma WorkerSwitchesBack(m: Machine)
    requires Inv(m) && Possible(m, WorkerReturns)
    ensures m.idleActive && m.saved == m.hooks.interrupted.Up(-RETURN - REGISTERS)
    ensures !Step(m, WorkerReturns).idleActive && Workers(Step(m, WorkerReturns).hooks) == 0
  {
    StepKeeps(m, WorkerReturns);
  }

  /** An entry by 1Ch or 28h is counted once: as a run if no worker is under way, else as a skip. */
  lemma EntryCountedOnce(m: Machine, interrupt: Interrupt)
    requires Inv(m) && interrupt != INT08
    ensures var m' := Step(m, Enter(interrupt));
      && (Workers(m.hooks) == 0 <==> m'.workerRuns == Next(m.workerRuns))
      && (Workers(m.hooks) == 1 <==> m'.busySkips == Next(m.busySkips))
      && (Workers(m.hooks) == 0 ==> m'.busySkips == m.busySkips && Ending(m'.hooks, Working))
      && (Workers(m.hooks) == 1 ==> m'.workerRuns == m.workerRuns && Ending(m'.hooks, Chained))
      && m'.int1cEntries == (if interrupt == INT1C then Next(m.int1cEntries) else m.int1cEntries)
      && m'.int28Entries == (if interrupt == INT28 then Next(m.int28Entries) else m.int28Entries)
  {
    NextDiffers(m.workerRuns);
    NextDiffers(m.busySkips);
  }

  lemma NextDiffers(n: Word)
    ensures Next(n) != n
  {
  }
}
