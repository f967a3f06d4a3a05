/** The engine's books task by task and device by device: what each event changes, and that it changes nothing else. */
module SimulationDevices {
  import opened Prelude
  import opened ProtocolBase
  import opened SimulationLifecycle
  import opened SimulationHistory

  /** The task an event is about, if the event finds it in the phase it needs. */
  predicate Meets(l: Lifecycle, e: Event, t: TaskId) {
    t < |l.tasks| &&
    match e
    case EndLaunch(x, _) => x == t && l.tasks[t].phase.Launching?
    case End(x, _) => x == t && l.tasks[t].phase == Running
    case Callback(x) => x == t && l.tasks[t].phase.Ended?
    case Fire(x) => x == t && l.tasks[t].phase.Restarting?
    case Stop(d) => Get(l.states, d).Some? && l.states[d].task == t && l.tasks[t].phase == Running
    case Start(_) => false
  }

  /** How often the device has crashed in a row, this crash included. */
  function CrashesOf(l: Lifecycle, d: DeviceId): nat {
    1 + if d in l.states then l.states[d].restarts else 0
  }

  /** The phase a task goes into when its event meets it: five restarts, after 2, 4, 8, 16 and 32 seconds. */
  function NextPhase(l: Lifecycle, e: Event, t: TaskId): Phase
    requires Meets(l, e, t)
  {
    var n := CrashesOf(l, l.tasks[t].device);
    match e
    case EndLaunch(_, launch) => if launch.Launched? then Running else Finished
    case End(_, raised) => if raised then Ended(Raised) else Ended(Returned)
    case Callback(_) =>
      if l.tasks[t].phase != Ended(Raised) || n > 5 then Finished else Restarting(n, [2, 4, 8, 16, 32][n - 1])
    case Fire(_) => Finished
    case Stop(_) => Ended(Cancelled)
  }

  /** Each task, event by event. */
  lemma StepByTask(l: Lifecycle, e: Event, t: TaskId)
    requires t < |l.tasks|
    ensures t < |Stepped(l, e).tasks| && Stepped(l, e).tasks[t].device == l.tasks[t].device
    ensures Stepped(l, e).tasks[t].phase == if Meets(l, e, t) then NextPhase(l, e, t) else l.tasks[t].phase
    ensures Stepped(l, e).tasks[t].raised == if Meets(l, e, t) && e.End? then e.raised else l.tasks[t].raised
  {
    if e.Callback? && Meets(l, e, t) && CrashesOf(l, l.tasks[t].device) <= 5 {
      DelaysDouble(CrashesOf(l, l.tasks[t].device));
    }
  }

  /** New tasks: one that a start or a restart begins to launch. */
  lemma NewTasks(l: Lifecycle, e: Event)
    ensures var begun, n := Stepped(l, e).tasks, |l.tasks|;
      if e.Start? && e.device !in l.states then |begun| == n + 1 && begun[n] == Task(e.device, Launching(0), false)
      else if e.Fire? && Meets(l, e, e.task) then
        |begun| == n + 1 && begun[n] == Task(l.tasks[e.task].device, Launching(l.tasks[e.task].phase.attempt), false)
      else |begun| == n
  {
  }

  /** An event meets a task of the device. */
  predicate MeetsFor(l: Lifecycle, e: Event, t: TaskId, d: DeviceId) {
    Meets(l, e, t) && l.tasks[t].device == d
  }

  /** The registered task of a device, event by event. */
  lemma StateByDevice(l: Lifecycle, e: Event, d: DeviceId)
    ensures Get(Stepped(l, e).states, d) ==
      match e
      case EndLaunch(t, launch) =>
        if MeetsFor(l, e, t, d) && launch.Launched? then Some(TaskState(t, l.tasks[t].phase.restarts))
        else Get(l.states, d)
      case Callback(t) =>
        if MeetsFor(l, e, t, d)
           && (l.tasks[t].phase == Ended(Returned) || (l.tasks[t].phase == Ended(Raised) && CrashesOf(l, d) > 5))
        then None else Get(l.states, d)
      case Fire(t) => if MeetsFor(l, e, t, d) then None else Get(l.states, d)
      case Stop(x) => if x == d then None else Get(l.states, d)
      case Start(_) | End(_, _) => Get(l.states, d)
  {
  }

  /** Whether a device's values and schedules are held, event by event. */
  lemma LoadedByDevice(l: Lifecycle, e: Event, d: DeviceId)
    requires Sound(l)
    ensures d in Stepped(l, e).loaded <==>
      if e.EndLaunch? && e.launch.Launched? && MeetsFor(l, e, e.task, d) then true
      else if e == Stop(d) && d in l.states && !l.tasks[l.states[d].task].raised then false
      else d in l.loaded
  {
  }

  /** When a device is marked in error: its loop gave up, a restart could not launch it, or it crashed a sixth time. */
  lemma ErrorsByDevice(l: Lifecycle, e: Event, d: DeviceId)
    ensures d in Stepped(l, e).errors <==>
      || d in l.errors
      || (e.End? && MeetsFor(l, e, e.task, d) && !e.raised)
      || (e.EndLaunch? && MeetsFor(l, e, e.task, d) && e.launch.LaunchFailed? && l.tasks[e.task].phase.restarts > 0)
      || (e.Callback? && MeetsFor(l, e, e.task, d) && l.tasks[e.task].phase == Ended(Raised) && CrashesOf(l, d) > 5)
  {
  }
}
