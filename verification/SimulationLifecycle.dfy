/**
 The life of a device's simulation task: the error streak that halts the tick
 loop, and what follows when a task ends. A launch is begun in one step and ended
 in another, as it waits for the database in between; a done callback and a delayed
 restart are steps of their own. Anything can happen between any two of them.
 */
module SimulationLifecycle {
  import opened Prelude
  import opened ProtocolBase

  const MAX_CONSECUTIVE_ERRORS := 5
  const MAX_RESTART_ATTEMPTS := 5
  const RESTART_BASE_DELAY := 2

  // --- The error streak ---

  /** The number of failing ticks at the end of a run. */
  function TrailingFailures(failed: seq<bool>): (n: nat)
    ensures n <= |failed|
    ensures forall i :: |failed| - n <= i < |failed| ==> failed[i]
    ensures n < |failed| ==> !failed[|failed| - 1 - n]
  {
    if failed == [] || !failed[|failed| - 1] then 0 else 1 + TrailingFailures(failed[..|failed| - 1])
  }

  /** Five failures in a row end at tick n. */
  ghost predicate FiveEndAt(failed: seq<bool>, n: nat) {
    5 <= n <= |failed| && forall i :: n - 5 <= i < n ==> failed[i]
  }

  lemma StreakIsFive(failed: seq<bool>, n: nat)
    requires n <= |failed|
    ensures TrailingFailures(failed[..n]) >= MAX_CONSECUTIVE_ERRORS <==> FiveEndAt(failed, n)
  {
    var k := TrailingFailures(failed[..n]);
    if k < MAX_CONSECUTIVE_ERRORS && k < n {
      assert failed[..n][n - 1 - k] == failed[n - 1 - k];
    }
  }

  /**
   The tick loop: it halts after exactly the first tick that ends five consecutive
   failures, and otherwise runs on.
   */
  method RunTicks(failed: seq<bool>) returns (halted: bool, ticks: nat)
    ensures ticks <= |failed|
    ensures halted ==> FiveEndAt(failed, ticks)
    ensures !halted ==> ticks == |failed| && !FiveEndAt(failed, ticks)
    ensures forall n :: 0 <= n < ticks ==> !FiveEndAt(failed, n)
  {
    var errorCount := 0;
    ticks := 0;
    while ticks < |failed|
      invariant ticks <= |failed|
      invariant errorCount == TrailingFailures(failed[..ticks]) < MAX_CONSECUTIVE_ERRORS
      invariant forall n :: 0 <= n <= ticks ==> !FiveEndAt(failed, n)
    {
      assert failed[..ticks + 1][..ticks] == failed[..ticks];
      if failed[ticks] {
        errorCount := errorCount + 1;
      } else {
        errorCount := 0;
      }
      ticks := ticks + 1;
      StreakIsFive(failed, ticks);
      if errorCount >= MAX_CONSECUTIVE_ERRORS {
        return true, ticks;
      }
    }
    return false, ticks;
  }

  // --- Tasks and restarts ---

  type TaskId = nat

  datatype Outcome = Cancelled | Returned | Raised

  /**
   A task's launch waits for the database; the task runs; it has ended with its done
   callback still queued; it waits to be restarted; or it is through.
   */
  datatype Phase =
    | Launching(restarts: nat)
    | Running
    | Ended(outcome: Outcome)
    | Restarting(attempt: nat, delay: nat)
    | Finished

  /** `raised`: awaiting the task raises its exception. */
  datatype Task = Task(device: DeviceId, phase: Phase, raised: bool)

  /** `_DeviceTaskState`: the registered task of a device and how often it has been restarted. */
  datatype TaskState = TaskState(task: TaskId, restarts: nat)

  /** How a launch ends: a running task, nothing to simulate, or an exception. */
  datatype Launch = Launched | NoConfigs | LaunchFailed

  /**
   Tasks are numbered in the order in which their launches began; a device may have
   several. `loaded`: the devices whose values and schedules are held.
   */
  datatype Lifecycle = Lifecycle(
    states: map<DeviceId, TaskState>,
    tasks: seq<Task>,
    loaded: set<DeviceId>,
    errors: set<DeviceId>
  )

  const NOTHING := Lifecycle(map[], [], {}, {})

  function DelayBefore(attempt: nat): nat
    requires attempt > 0
  {
    RESTART_BASE_DELAY * Pow2(attempt - 1)
  }

  function WithPhase(l: Lifecycle, t: TaskId, phase: Phase): Lifecycle
    requires t < |l.tasks|
  {
    l.(tasks := l.tasks[t := l.tasks[t].(phase := phase)])
  }

  /** `_launch_device_task` up to its database loads. */
  function LaunchBegun(l: Lifecycle, d: DeviceId, restarts: nat): Lifecycle {
    l.(tasks := l.tasks + [Task(d, Launching(restarts), false)])
  }

  /** A failing restart marks the device in error; a failing start raises in its caller. */
  function LaunchEnded(l: Lifecycle, t: TaskId, restarts: nat, launch: Launch): Lifecycle
    requires t < |l.tasks|
  {
    var d := l.tasks[t].device;
    match launch
    case Launched =>
      WithPhase(l.(states := l.states[d := TaskState(t, restarts)], loaded := l.loaded + {d}), t, Running)
    case NoConfigs => WithPhase(l, t, Finished)
    case LaunchFailed => WithPhase(if restarts > 0 then l.(errors := l.errors + {d}) else l, t, Finished)
  }

  /** `start_device`. */
  function StartBegun(l: Lifecycle, d: DeviceId): Lifecycle {
    if d in l.states then l else LaunchBegun(l, d, 0)
  }

  /** A running task ends by itself: by an exception, or after too many failing ticks. */
  function TaskEnded(l: Lifecycle, t: TaskId, raised: bool): Lifecycle
    requires t < |l.tasks|
  {
    var task := l.tasks[t];
    l.(tasks := l.tasks[t := Task(task.device, Ended(if raised then Raised else Returned), raised)],
       errors := if raised then l.errors else l.errors + {task.device})
  }

  /** The state a crash is counted on is whatever is registered for the device by now. */
  function AttemptAfter(l: Lifecycle, d: DeviceId): nat {
    (if d in l.states then l.states[d].restarts else 0) + 1
  }

  /** `_on_task_done`. */
  function CalledBack(l: Lifecycle, t: TaskId, outcome: Outcome): Lifecycle
    requires t < |l.tasks|
  {
    var d := l.tasks[t].device;
    match outcome
    case Cancelled => WithPhase(l, t, Finished)
    case Returned => WithPhase(l.(states := l.states - {d}), t, Finished)
    case Raised =>
      var attempt := AttemptAfter(l, d);
      if attempt > MAX_RESTART_ATTEMPTS then
        WithPhase(l.(states := l.states - {d}, errors := l.errors + {d}), t, Finished)
      else WithPhase(l, t, Restarting(attempt, DelayBefore(attempt)))
  }

  /** `_delayed_restart` after its sleep: it forgets whatever is registered and begins a launch. */
  function Fired(l: Lifecycle, t: TaskId, attempt: nat): Lifecycle
    requires t < |l.tasks|
  {
    var d := l.tasks[t].device;
    LaunchBegun(WithPhase(l.(states := l.states - {d}), t, Finished), d, attempt)
  }

  function TaskCancelled(l: Lifecycle, t: TaskId): Lifecycle {
    if t < |l.tasks| && l.tasks[t].phase == Running then WithPhase(l, t, Ended(Cancelled)) else l
  }

  /** `stop_device`: what the device holds is dropped unless awaiting its task raises. */
  function Stopped(l: Lifecycle, d: DeviceId): Lifecycle {
    if d !in l.states then l
    else
      var kept := if StopsCleanly(l, d) then l.loaded - {d} else l.loaded;
      TaskCancelled(l.(states := l.states - {d}, loaded := kept), l.states[d].task)
  }

  predicate StopsCleanly(l: Lifecycle, d: DeviceId) {
    d in l.states && l.states[d].task < |l.tasks| ==> !l.tasks[l.states[d].task].raised
  }

  class SimulationTasks {
    var states: map<DeviceId, TaskState>
    var tasks: seq<Task>
    var loaded: set<DeviceId>
    var errors: set<DeviceId>

    constructor ()
      ensures View() == NOTHING
    {
      states, tasks, loaded, errors := map[], [], {}, {};
    }

    ghost function View(): Lifecycle
      reads this
    {
      Lifecycle(states, tasks, loaded, errors)
    }

    method BeginLaunch(d: DeviceId, restarts: nat)
      modifies this
      ensures View() == LaunchBegun(old(View()), d, restarts)
    {
      tasks := tasks + [Task(d, Launching(restarts), false)];
    }

    /** The rest of a launch, after its database loads. */
    method EndLaunch(t: TaskId, launch: Launch)
      requires t < |tasks| && tasks[t].phase.Launching?
      modifies this
      ensures View() == LaunchEnded(old(View()), t, old(tasks)[t].phase.restarts, launch)
    {
      var d, restarts := tasks[t].device, tasks[t].phase.restarts;
      if launch.Launched? {
        tasks := tasks[t := tasks[t].(phase := Running)];
        states := states[d := TaskState(t, restarts)];
        loaded := loaded + {d};
      } else {
        tasks := tasks[t := tasks[t].(phase := Finished)];
        if launch.LaunchFailed? && restarts > 0 {
          errors := errors + {d};
        }
      }
    }

    method StartDevice(d: DeviceId)
      modifies this
      ensures View() == StartBegun(old(View()), d)
    {
      if d in states {
        return;
      }
      BeginLaunch(d, 0);
    }

    /** The done callback of a task that has ended. */
    method OnTaskDone(t: TaskId)
      requires t < |tasks| && tasks[t].phase.Ended?
      modifies this
      ensures View() == CalledBack(old(View()), t, old(tasks)[t].phase.outcome)
    {
      var d, outcome := tasks[t].device, tasks[t].phase.outcome;
      if outcome.Cancelled? {
        tasks := tasks[t := tasks[t].(phase := Finished)];
        return;
      }
      if outcome.Returned? {
        states := states - {d};
        tasks := tasks[t := tasks[t].(phase := Finished)];
        return;
      }
      var attempt := (if d in states then states[d].restarts else 0) + 1;
      if attempt > MAX_RESTART_ATTEMPTS {
        states := states - {d};
        errors := errors + {d};
        tasks := tasks[t := tasks[t].(phase := Finished)];
        return;
      }
      tasks := tasks[t := tasks[t].(phase := Restarting(attempt, RESTART_BASE_DELAY * Pow2(attempt - 1)))];
    }

    method FireRestart(t: TaskId)
      requires t < |tasks| && tasks[t].phase.Restarting?
      modifies this
      ensures View() == Fired(old(View()), t, old(tasks)[t].phase.attempt)
    {
      var d, attempt := tasks[t].device, tasks[t].phase.attempt;
      states := states - {d};
      tasks := tasks[t := tasks[t].(phase := Finished)];
      BeginLaunch(d, attempt);
    }

    /** False when awaiting the task raised; the device's values and schedules are then kept. */
    method StopDevice(d: DeviceId) returns (clean: bool)
      requires forall e <- states :: states[e].task < |tasks|
      modifies this
      ensures clean == StopsCleanly(old(View()), d)
      ensures View() == Stopped(old(View()), d)
    {
      if d !in states {
        return true;
      }
      var t := states[d].task;
      states := states - {d};
      clean := !tasks[t].raised;
      if tasks[t].phase == Running {
        tasks := tasks[t := tasks[t].(phase := Ended(Cancelled))];
      }
      if clean {
        loaded := loaded - {d};
      }
    }
  }
}
