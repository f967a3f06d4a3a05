/** Whole histories of simulation tasks: how long a crash chain is, and when a stop is final. */
module SimulationHistory {
  import opened Prelude
  import opened ProtocolBase
  import opened SimulationLifecycle

  datatype Event =
    | Start(device: DeviceId)
    | EndLaunch(task: TaskId, launch: Launch)
    | End(task: TaskId, raised: bool)
    | Callback(task: TaskId)
    | Fire(task: TaskId)
    | Stop(device: DeviceId)

  /** Events that cannot happen change nothing. */
  function Stepped(l: Lifecycle, e: Event): Lifecycle {
    match e
    case Start(d) => StartBegun(l, d)
    case EndLaunch(t, launch) =>
      if t < |l.tasks| && l.tasks[t].phase.Launching? then LaunchEnded(l, t, l.tasks[t].phase.restarts, launch) else l
    case End(t, raised) => if t < |l.tasks| && l.tasks[t].phase == Running then TaskEnded(l, t, raised) else l
    case Callback(t) =>
      if t < |l.tasks| && l.tasks[t].phase.Ended? then CalledBack(l, t, l.tasks[t].phase.outcome) else l
    case Fire(t) =>
      if t < |l.tasks| && l.tasks[t].phase.Restarting? then Fired(l, t, l.tasks[t].phase.attempt) else l
    case Stop(d) => Stopped(l, d)
  }

  function Run(l: Lifecycle, events: seq<Event>): Lifecycle {
    if events == [] then l else Stepped(Run(l, events[..|events| - 1]), events[|events| - 1])
  }

  /** Registered tasks exist, and belong to the device they are registered for. */
  ghost predicate Sound(l: Lifecycle) {
    forall d <- l.states :: l.states[d].task < |l.tasks| && l.tasks[l.states[d].task].device == d
  }

  lemma StepKeepsSound(l: Lifecycle, e: Event)
    requires Sound(l)
    ensures Sound(Stepped(l, e))
  {
    match e
    case Start(_) =>
    case EndLaunch(_, _) =>
    case End(_, _) =>
    case Callback(_) =>
    case Fire(_) =>
    case Stop(_) =>
  }

  lemma {:induction false} RunKeepsSound(l: Lifecycle, events: seq<Event>)
    requires Sound(l)
    ensures Sound(Run(l, events))
    decreases |events|
  {
    if events != [] {
      RunKeepsSound(l, events[..|events| - 1]);
      StepKeepsSound(Run(l, events[..|events| - 1]), events[|events| - 1]);
    }
  }

  // --- Stopping ---

  /** A task of the device that a stop does not reach, or not in time. */
  ghost predicate Escapes(l: Lifecycle, d: DeviceId, t: TaskId) {
    && t < |l.tasks| && l.tasks[t].device == d
    && match l.tasks[t].phase
       case Launching(_) | Restarting(_, _) => true
       case Ended(outcome) => outcome.Raised?
       case Running => !(d in l.states && l.states[d].task == t)
       case Finished => false
  }

  ghost predicate Simulates(l: Lifecycle, d: DeviceId) {
    d in l.states || exists t: TaskId :: t < |l.tasks| && IsRunning(l, d, t)
  }

  ghost predicate IsRunning(l: Lifecycle, d: DeviceId, t: TaskId)
    requires t < |l.tasks|
  {
    l.tasks[t].device == d && l.tasks[t].phase == Running
  }

  ghost predicate NeverStarts(events: seq<Event>, d: DeviceId) {
    forall e <- events :: !(e.Start? && e.device == d)
  }

  /** Whatever happens, the device is not simulated again before it is started again. */
  ghost predicate StaysDown(l: Lifecycle, d: DeviceId) {
    forall events :: NeverStarts(events, d) ==> !Simulates(Run(l, events), d)
  }

  /** No task of the device can do anything more. */
  ghost predicate Quiet(l: Lifecycle, d: DeviceId) {
    d !in l.states && forall t: TaskId :: t < |l.tasks| && l.tasks[t].device == d ==> Spent(l.tasks[t].phase)
  }

  predicate Spent(phase: Phase) {
    phase == Finished || (phase.Ended? && !phase.outcome.Raised?)
  }

  lemma StepKeepsQuiet(l: Lifecycle, e: Event, d: DeviceId)
    requires Quiet(l, d) && !(e.Start? && e.device == d)
    ensures Quiet(Stepped(l, e), d)
  {
    var after := Stepped(l, e);
    forall t: TaskId | t < |after.tasks| && after.tasks[t].device == d
      ensures Spent(after.tasks[t].phase)
    {
      if t < |l.tasks| {
        assert l.tasks[t].device == d ==> Spent(l.tasks[t].phase);
      }
    }
  }

  lemma {:induction false} QuietStaysDown(l: Lifecycle, events: seq<Event>, d: DeviceId)
    requires Quiet(l, d) && NeverStarts(events, d)
    ensures Quiet(Run(l, events), d) && !Simulates(Run(l, events), d)
    decreases |events|
  {
    if events != [] {
      var init, e := events[..|events| - 1], events[|events| - 1];
      assert e in events && forall x <- init :: x in events;
      QuietStaysDown(l, init, d);
      StepKeepsQuiet(Run(l, init), e, d);
    }
  }

  /** An escaping task escapes the stop itself. */
  lemma EscapesStop(l: Lifecycle, d: DeviceId, t: TaskId)
    requires Escapes(l, d, t)
    ensures t < |Stopped(l, d).tasks| && Stopped(l, d).tasks[t] == l.tasks[t] && d !in Stopped(l, d).states
  {
  }

  lemma RunSnoc(l: Lifecycle, events: seq<Event>, e: Event)
    ensures Run(l, events + [e]) == Stepped(Run(l, events), e)
  {
    assert (events + [e])[..|events + [e]| - 1] == events;
  }

  lemma LaunchRevives(l: Lifecycle, d: DeviceId, t: TaskId)
    requires t < |l.tasks| && l.tasks[t].device == d && l.tasks[t].phase.Launching?
    ensures !StaysDown(l, d)
  {
    var events := [] + [EndLaunch(t, Launched)];
    RunSnoc(l, [], EndLaunch(t, Launched));
    assert NeverStarts(events, d) && Simulates(Run(l, events), d);
  }

  /** A device that stays down still does after any event that does not start it. */
  lemma StaysDownLater(l: Lifecycle, d: DeviceId, e: Event)
    requires StaysDown(l, d) && !(e.Start? && e.device == d)
    ensures StaysDown(Stepped(l, e), d)
  {
    forall events | NeverStarts(events, d)
      ensures !Simulates(Run(Stepped(l, e), events), d)
    {
      RunCons(l, e, events);
      assert NeverStarts([e] + events, d);
    }
  }

  lemma {:induction false} RunCons(l: Lifecycle, e: Event, events: seq<Event>)
    ensures Run(l, [e] + events) == Run(Stepped(l, e), events)
    decreases |events|
  {
    if events == [] {
      assert [] + [e] == [e] + events;
      RunSnoc(l, [], e);
    } else {
      var init, last := events[..|events| - 1], events[|events| - 1];
      RunCons(l, e, init);
      assert [e] + events == ([e] + init) + [last];
      RunSnoc(l, [e] + init, last);
    }
  }

  lemma RestartRevives(l: Lifecycle, d: DeviceId, t: TaskId)
    requires t < |l.tasks| && l.tasks[t].device == d && l.tasks[t].phase.Restarting?
    ensures !StaysDown(l, d)
  {
    LaunchRevives(Stepped(l, Fire(t)), d, |l.tasks|);
    if StaysDown(l, d) {
      StaysDownLater(l, d, Fire(t));
    }
  }

  lemma CrashRevives(l: Lifecycle, d: DeviceId, t: TaskId)
    requires t < |l.tasks| && l.tasks[t].device == d && l.tasks[t].phase == Ended(Raised) && d !in l.states
    ensures !StaysDown(l, d)
  {
    RestartRevives(Stepped(l, Callback(t)), d, t);
    if StaysDown(l, d) {
      StaysDownLater(l, d, Callback(t));
    }
  }

  lemma OrphanRuns(l: Lifecycle, d: DeviceId, t: TaskId)
    requires t < |l.tasks| && IsRunning(l, d, t)
    ensures !StaysDown(l, d)
  {
    assert NeverStarts([], d) && Run(l, []) == l && Simulates(l, d);
  }

  lemma NoEscapeIsQuiet(l: Lifecycle, d: DeviceId)
    requires Sound(l) && forall t: TaskId :: !Escapes(l, d, t)
    ensures Quiet(Stopped(l, d), d)
  {
    var after := Stopped(l, d);
    forall t: TaskId | t < |after.tasks| && after.tasks[t].device == d
      ensures Spent(after.tasks[t].phase)
    {
      assert !Escapes(l, d, t);
    }
  }

  /**
   Exactly when a stop is final: no launch of the device is under way, no restart of
   it waits, no crash of it is still to be called back, and none of its tasks runs
   unregistered.
   */
  lemma StopIsFinalExactly(l: Lifecycle, d: DeviceId)
    requires Sound(l)
    ensures StaysDown(Stopped(l, d), d) <==> forall t: TaskId :: !Escapes(l, d, t)
  {
    if forall t: TaskId :: !Escapes(l, d, t) {
      NoEscapeIsQuiet(l, d);
      forall events | NeverStarts(events, d)
        ensures !Simulates(Run(Stopped(l, d), events), d)
      {
        QuietStaysDown(Stopped(l, d), events, d);
      }
    } else {
      var t: TaskId :| Escapes(l, d, t);
      EscapesStop(l, d, t);
      match l.tasks[t].phase
      case Launching(_) => LaunchRevives(Stopped(l, d), d, t);
      case Restarting(_, _) => RestartRevives(Stopped(l, d), d, t);
      case Ended(_) => CrashRevives(Stopped(l, d), d, t);
      case Running => OrphanRuns(Stopped(l, d), d, t);
      case Finished =>
    }
  }

  /** Stopped while its launch waits for the database: the launch registers its task afterwards. */
  lemma StopLosesToLaunch(d: DeviceId)
    ensures d in Run(NOTHING, [Start(d)] + [Stop(d)] + [EndLaunch(0, Launched)]).states
  {
    assert [] + [Start(d)] == [Start(d)];
    RunSnoc(NOTHING, [], Start(d));
    RunSnoc(NOTHING, [Start(d)], Stop(d));
    RunSnoc(NOTHING, [Start(d)] + [Stop(d)], EndLaunch(0, Launched));
  }

  /** A device is started and its task ends with an exception. */
  function Crash(d: DeviceId): seq<Event> { [Start(d)] + [EndLaunch(0, Launched)] + [End(0, true)] }

  lemma CrashState(d: DeviceId)
    ensures Run(NOTHING, Crash(d)) == Lifecycle(map[d := TaskState(0, 0)], [Task(d, Ended(Raised), true)], {d}, {})
  {
    assert [] + [Start(d)] == [Start(d)];
    RunSnoc(NOTHING, [], Start(d));
    RunSnoc(NOTHING, [Start(d)], EndLaunch(0, Launched));
    RunSnoc(NOTHING, [Start(d)] + [EndLaunch(0, Launched)], End(0, true));
  }

  /** Stopped between a crash and its callback: the callback schedules a restart. */
  lemma StopLosesToCallback(d: DeviceId)
    ensures d in Run(NOTHING, Crash(d) + [Stop(d)] + [Callback(0)] + [Fire(0)] + [EndLaunch(1, Launched)]).states
  {
    CrashState(d);
    RunSnoc(NOTHING, Crash(d), Stop(d));
    RunSnoc(NOTHING, Crash(d) + [Stop(d)], Callback(0));
    RunSnoc(NOTHING, Crash(d) + [Stop(d)] + [Callback(0)], Fire(0));
    RunSnoc(NOTHING, Crash(d) + [Stop(d)] + [Callback(0)] + [Fire(0)], EndLaunch(1, Launched));
  }

  function CrashAndStop(d: DeviceId): seq<Event> { Crash(d) + [Callback(0)] + [Stop(d)] }

  lemma CrashAndStopState(d: DeviceId)
    ensures Run(NOTHING, CrashAndStop(d)) == Lifecycle(map[], [Task(d, Restarting(1, 2), true)], {d}, {})
  {
    CrashState(d);
    RunSnoc(NOTHING, Crash(d), Callback(0));
    RunSnoc(NOTHING, Crash(d) + [Callback(0)], Stop(d));
    assert map[d := TaskState(0, 0)] - {d} == map[];
  }

  /** Stopped while a restart waits: the restart brings the simulation back. */
  lemma StopLosesToRestart(d: DeviceId)
    ensures d in Run(NOTHING, CrashAndStop(d) + [Fire(0)] + [EndLaunch(1, Launched)]).states
  {
    CrashAndStopState(d);
    RunSnoc(NOTHING, CrashAndStop(d), Fire(0));
    RunSnoc(NOTHING, CrashAndStop(d) + [Fire(0)], EndLaunch(1, Launched));
  }

  /** Stopped and started again while a restart waits: the next stop leaves a task running. */
  lemma StopLosesToOrphan(d: DeviceId)
    ensures var l := Run(NOTHING,
        CrashAndStop(d) + [Start(d)] + [EndLaunch(1, Launched)] + [Fire(0)] + [EndLaunch(2, Launched)] + [Stop(d)]);
      d !in l.states && |l.tasks| == 3 && IsRunning(l, d, 1)
  {
    CrashAndStopState(d);
    var started := CrashAndStop(d) + [Start(d)];
    var twice := started + [EndLaunch(1, Launched)] + [Fire(0)];
    RunSnoc(NOTHING, CrashAndStop(d), Start(d));
    RunSnoc(NOTHING, started, EndLaunch(1, Launched));
    RunSnoc(NOTHING, started + [EndLaunch(1, Launched)], Fire(0));
    RunSnoc(NOTHING, twice, EndLaunch(2, Launched));
    RunSnoc(NOTHING, twice + [EndLaunch(2, Launched)], Stop(d));
  }

  // --- The crash chain ---

  function LaunchesOf(tasks: seq<Task>, d: DeviceId): nat {
    if tasks == [] then 0
    else LaunchesOf(tasks[..|tasks| - 1], d) + if tasks[|tasks| - 1].device == d then 1 else 0
  }

  lemma LaunchCounts(tasks: seq<Task>, task: Task, d: DeviceId)
    ensures LaunchesOf(tasks + [task], d) == LaunchesOf(tasks, d) + if task.device == d then 1 else 0
  {
    assert (tasks + [task])[..|tasks|] == tasks;
  }

  lemma {:induction false} PhasesDoNotCount(tasks: seq<Task>, t: TaskId, task: Task, d: DeviceId)
    requires t < |tasks| && task.device == tasks[t].device
    ensures LaunchesOf(tasks[t := task], d) == LaunchesOf(tasks, d)
    decreases |tasks|
  {
    var init := tasks[..|tasks| - 1];
    if t < |init| {
      PhasesDoNotCount(init, t, task, d);
      assert tasks[t := task][..|tasks| - 1] == init[t := task];
    } else {
      assert tasks[t := task][..|tasks| - 1] == init;
    }
  }

  predicate Retired(phase: Phase) {
    phase == Finished || phase == Ended(Cancelled)
  }

  ghost predicate RetiredExcept(l: Lifecycle, d: DeviceId, c: int) {
    forall t: TaskId :: t < |l.tasks| && l.tasks[t].device == d && t != c ==> Retired(l.tasks[t].phase)
  }

  /** The device has no registered task, no restart waiting and no callback to come but of stopped tasks. */
  ghost predicate Idle(l: Lifecycle, d: DeviceId) {
    d !in l.states && RetiredExcept(l, d, -1)
  }

  /** c is the n-th task since the device was idle, and the only one that can still do anything. */
  ghost predicate InChain(l: Lifecycle, d: DeviceId, c: TaskId, n: nat) {
    && 1 <= n <= MAX_RESTART_ATTEMPTS + 1
    && c < |l.tasks| && l.tasks[c].device == d && RetiredExcept(l, d, c)
    && match l.tasks[c].phase
       case Launching(restarts) => d !in l.states && restarts == n - 1
       case Running => Get(l.states, d) == Some(TaskState(c, n - 1))
       case Ended(outcome) =>
         Get(l.states, d) == Some(TaskState(c, n - 1)) && !outcome.Cancelled? && (outcome.Returned? ==> d in l.errors)
       case Restarting(attempt, delay) =>
         && Get(l.states, d) == Some(TaskState(c, n - 1))
         && attempt == n <= MAX_RESTART_ATTEMPTS && delay == DelayBefore(n)
       case Finished => d !in l.states
  }

  /** Nobody starts or stops the device. */
  ghost predicate LeavesAlone(e: Event, d: DeviceId) {
    !(e.Start? && e.device == d) && !(e.Stop? && e.device == d)
  }

  predicate OwnEvent(e: Event, c: TaskId) {
    match e
    case EndLaunch(t, _) => t == c
    case End(t, _) => t == c
    case Callback(t) => t == c
    case Fire(t) => t == c
    case Start(_) | Stop(_) => false
  }

  /** Another task's event: the chain is where it was. */
  lemma ChainUnmoved(l: Lifecycle, e: Event, d: DeviceId, c: TaskId, n: nat)
    requires Sound(l) && InChain(l, d, c, n) && LeavesAlone(e, d)
    requires !OwnEvent(e, c)
    ensures InChain(Stepped(l, e), d, c, n)
  {
    var after := Stepped(l, e);
    assert after.tasks[c] == l.tasks[c] && Get(after.states, d) == Get(l.states, d);
    forall t: TaskId | t < |after.tasks| && after.tasks[t].device == d && t != c
      ensures Retired(after.tasks[t].phase)
    {
      assert t < |l.tasks| && l.tasks[t].device == d;
    }
  }

  /** One of the chain's own events: its task is launched, ends, is called back, or is restarted as the next one. */
  lemma ChainMoves(l: Lifecycle, e: Event, d: DeviceId, c: TaskId, n: nat) returns (c': TaskId, n': nat)
    requires InChain(l, d, c, n) && OwnEvent(e, c)
    ensures InChain(Stepped(l, e), d, c', n')
    ensures LaunchesOf(Stepped(l, e).tasks, d) + n == LaunchesOf(l.tasks, d) + n'
  {
    c', n' := c, n;
    var after := Stepped(l, e);
    if e.Fire? && l.tasks[c].phase.Restarting? {
      c', n' := |l.tasks|, n + 1;
      var retired := l.tasks[c := l.tasks[c].(phase := Finished)];
      PhasesDoNotCount(l.tasks, c, l.tasks[c].(phase := Finished), d);
      LaunchCounts(retired, Task(d, Launching(n), false), d);
    } else {
      PhasesDoNotCount(l.tasks, c, after.tasks[c], d);
      assert after.tasks == l.tasks[c := after.tasks[c]];
    }
  }

  /** An event of another task or device adds no launch of this one. */
  lemma OthersDoNotCount(l: Lifecycle, e: Event, d: DeviceId, c: TaskId, n: nat)
    requires Sound(l) && InChain(l, d, c, n) && LeavesAlone(e, d)
    requires !OwnEvent(e, c)
    ensures LaunchesOf(Stepped(l, e).tasks, d) == LaunchesOf(l.tasks, d)
  {
    match e
    case Start(x) =>
      LaunchCounts(l.tasks, Task(x, Launching(0), false), d);
    case EndLaunch(t, _) =>
      if t < |l.tasks| {
        PhasesDoNotCount(l.tasks, t, Stepped(l, e).tasks[t], d);
      }
    case End(t, raised) =>
      if t < |l.tasks| {
        PhasesDoNotCount(l.tasks, t, Task(l.tasks[t].device, Ended(if raised then Raised else Returned), raised), d);
      }
    case Callback(t) =>
      if t < |l.tasks| {
        PhasesDoNotCount(l.tasks, t, Stepped(l, e).tasks[t], d);
      }
    case Fire(t) =>
      if t < |l.tasks| && l.tasks[t].phase.Restarting? {
        assert l.tasks[t].device != d;
        var next := Task(l.tasks[t].device, Launching(l.tasks[t].phase.attempt), false);
        PhasesDoNotCount(l.tasks, t, l.tasks[t].(phase := Finished), d);
        LaunchCounts(l.tasks[t := l.tasks[t].(phase := Finished)], next, d);
      }
    case Stop(x) =>
      if x in l.states && l.states[x].task < |l.tasks| {
        var t := l.states[x].task;
        PhasesDoNotCount(l.tasks, t, l.tasks[t].(phase := Ended(Cancelled)), d);
      }
  }

  lemma DelaysDouble(n: nat)
    requires 1 <= n <= MAX_RESTART_ATTEMPTS
    ensures DelayBefore(n) == [2, 4, 8, 16, 32][n - 1]
  {
    assert Pow2(1) == 2 && Pow2(2) == 2 * Pow2(1) && Pow2(3) == 2 * Pow2(2) && Pow2(4) == 2 * Pow2(3);
  }

  ghost predicate Undisturbed(events: seq<Event>, d: DeviceId) {
    forall e <- events :: LeavesAlone(e, d)
  }

  lemma ChainBegins(l: Lifecycle, d: DeviceId)
    requires Idle(l, d)
    ensures InChain(StartBegun(l, d), d, |l.tasks|, 1)
    ensures LaunchesOf(StartBegun(l, d).tasks, d) == LaunchesOf(l.tasks, d) + 1
  {
    LaunchCounts(l.tasks, Task(d, Launching(0), false), d);
  }

  lemma {:induction false} ChainGoesOn(l: Lifecycle, d: DeviceId, events: seq<Event>) returns (c: TaskId, n: nat)
    requires Sound(l) && Idle(l, d) && Undisturbed(events, d)
    ensures var after := Run(StartBegun(l, d), events);
      Sound(after) && InChain(after, d, c, n) && LaunchesOf(after.tasks, d) == LaunchesOf(l.tasks, d) + n
    decreases |events|
  {
    StepKeepsSound(l, Start(d));
    RunKeepsSound(StartBegun(l, d), events);
    if events == [] {
      ChainBegins(l, d);
      c, n := |l.tasks|, 1;
    } else {
      var init, e := events[..|events| - 1], events[|events| - 1];
      assert e in events && forall x <- init :: x in events;
      c, n := ChainGoesOn(l, d, init);
      var before := Run(StartBegun(l, d), init);
      if OwnEvent(e, c) {
        c, n := ChainMoves(before, e, d, c, n);
      } else {
        ChainUnmoved(before, e, d, c, n);
        OthersDoNotCount(before, e, d, c, n);
      }
    }
  }

  /**
   From any state in which the device is idle, whatever other devices do and however
   its launches end: one start leads to at most six launches, begun or made, and a restart that
   waits is the n-th after the n-th launch, after 2, 4, 8, 16 or 32 seconds.
   */
  lemma ChainIsBounded(l: Lifecycle, d: DeviceId, events: seq<Event>)
    requires Sound(l) && Idle(l, d) && Undisturbed(events, d)
    ensures var after := Run(StartBegun(l, d), events);
      var launches := LaunchesOf(after.tasks, d) - LaunchesOf(l.tasks, d);
      && 1 <= launches <= 6
      && forall t: TaskId :: t < |after.tasks| && after.tasks[t].device == d && after.tasks[t].phase.Restarting? ==>
           launches <= 5 && after.tasks[t].phase == Restarting(launches, [2, 4, 8, 16, 32][launches - 1])
  {
    var after := Run(StartBegun(l, d), events);
    var c, n := ChainGoesOn(l, d, events);
    if n <= MAX_RESTART_ATTEMPTS {
      DelaysDouble(n);
    }
    forall t: TaskId | t < |after.tasks| && after.tasks[t].device == d && after.tasks[t].phase.Restarting?
      ensures t == c
    {
      assert t != c ==> Retired(after.tasks[t].phase);
    }
  }

  /** A crash in the chain waits for a restart up to the fifth time; the sixth marks the device in error. */
  lemma CrashLeadsTo(l: Lifecycle, d: DeviceId, c: TaskId, n: nat)
    requires InChain(l, d, c, n) && l.tasks[c].phase == Ended(Raised)
    ensures var after := Stepped(l, Callback(c));
      if n <= 5 then after.tasks[c].phase == Restarting(n, [2, 4, 8, 16, 32][n - 1])
      else Idle(after, d) && d in after.errors
  {
    if n <= 5 {
      DelaysDouble(n);
    }
  }
}
