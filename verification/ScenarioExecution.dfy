/**
 The scenario runner: a scenario on a device is a list of timed steps, driven by
 ticks. Each tick injects the steps that are due and then removes the anomalies
 of the steps that are over. One turn of the drive loop is one method call here;
 the clock is a parameter.
 */
module ScenarioExecution {
  import opened Prelude
  import opened ProtocolBase
  import opened Anomalies
  import opened AnomalyInjection

  /** A running scenario, with the drive loop's own set of triggered steps. */
  datatype Timeline = Timeline(
    steps: seq<Step>,
    total: int,
    startedAt: real,
    active: set<string>,
    triggered: set<nat>
  )

  /** A running scenario and the real-time anomalies of its device. */
  datatype Scene = Scene(timeline: Timeline, anomalies: Anomalous)

  predicate IsDue(t: Timeline, elapsed: real, n: nat)
    requires n < |t.steps|
  {
    n !in t.triggered && elapsed >= t.steps[n].trigger as real
  }

  predicate IsOver(t: Timeline, elapsed: real, n: nat)
    requires n < |t.steps|
  {
    n in t.triggered && elapsed >= t.steps[n].End() as real && t.steps[n].register in t.active
  }

  function ActivatedOne(s: Scene, elapsed: real, n: nat): Scene
    requires n < |s.timeline.steps|
  {
    if !IsDue(s.timeline, elapsed, n) then s
    else
      var step := s.timeline.steps[n];
      Scene(s.timeline.(active := s.timeline.active + {step.register}, triggered := s.timeline.triggered + {n}),
        s.anomalies[step.register := Fresh(step.anomaly)])
  }

  function DeactivatedOne(s: Scene, elapsed: real, n: nat): Scene
    requires n < |s.timeline.steps|
  {
    if !IsOver(s.timeline, elapsed, n) then s
    else
      var register := s.timeline.steps[n].register;
      Scene(s.timeline.(active := s.timeline.active - {register}), s.anomalies - {register})
  }

  /** The first loop of a tick, over the first n steps. */
  function Activated(s: Scene, elapsed: real, n: nat): (r: Scene)
    requires n <= |s.timeline.steps|
    ensures r.timeline == s.timeline.(active := r.timeline.active, triggered := r.timeline.triggered)
  {
    if n == 0 then s else ActivatedOne(Activated(s, elapsed, n - 1), elapsed, n - 1)
  }

  /** The second loop of a tick, over the first n steps. */
  function Deactivated(s: Scene, elapsed: real, n: nat): (r: Scene)
    requires n <= |s.timeline.steps|
    ensures r.timeline == s.timeline.(active := r.timeline.active)
  {
    if n == 0 then s else DeactivatedOne(Deactivated(s, elapsed, n - 1), elapsed, n - 1)
  }

  function Ticked(s: Scene, elapsed: real): Scene {
    var n := |s.timeline.steps|;
    Deactivated(Activated(s, elapsed, n), elapsed, n)
  }

  predicate Completes(t: Timeline, elapsed: real) {
    elapsed >= t.total as real && t.active == {}
  }

  datatype ActiveStep = ActiveStep(register: string, anomaly: Anomaly, remaining: int)

  datatype Status = Status(elapsed: int, total: int, activeSteps: seq<ActiveStep>)

  /** The status clock: `int()` of a non-negative time. */
  function WholeSeconds(elapsed: real): int { elapsed.Floor }

  /** The steps whose window covers a whole second. */
  function ReportedSteps(steps: seq<Step>, second: int): seq<ActiveStep> {
    if steps == [] then []
    else
      var last := steps[|steps| - 1];
      ReportedSteps(steps[..|steps| - 1], second) +
      if last.trigger <= second < last.End() then [ActiveStep(last.register, last.anomaly, last.End() - second)] else []
  }

  function StatusOf(t: Timeline, now: real): Status {
    var second := WholeSeconds(now - t.startedAt);
    Status(if second < t.total then second else t.total, t.total, ReportedSteps(t.steps, second))
  }

  /** Removing every listed register's anomaly. */
  function Cleared(anomalies: Anomalous, registers: set<string>): Anomalous {
    anomalies - registers
  }

  class ScenarioRunner {
    var running: map<DeviceId, Timeline>
    const injector: AnomalyInjector

    constructor (injector: AnomalyInjector)
      ensures running == map[] && this.injector == injector
    {
      running := map[];
      this.injector := injector;
    }

    ghost function SceneOf(device: DeviceId): Scene
      requires device in running
      reads this, injector
    {
      Scene(running[device], Of(injector.active, device))
    }

    /** Nothing of another device, and nothing scheduled, is different from before. */
    twostate predicate OthersUntouched(device: DeviceId)
      reads this, injector
    {
      && (forall d :: d != device ==> Get(running, d) == Get(old(running), d))
      && (forall d :: d != device ==> Of(injector.active, d) == Of(old(injector.active), d))
      && injector.schedules == old(injector.schedules) && injector.scheduled == old(injector.scheduled)
    }

    /** Refused while the device already runs a scenario. */
    method Start(device: DeviceId, steps: seq<Step>, total: int, now: real) returns (ok: bool)
      modifies this
      ensures ok <==> device !in old(running)
      ensures running == if ok then old(running)[device := Timeline(steps, total, now, {}, {})] else old(running)
    {
      if device in running {
        return false;
      }
      running := running[device := Timeline(steps, total, now, {}, {})];
      return true;
    }

    /** Only the device's timeline and its real-time anomalies may differ from before. */
    twostate predicate OnlySceneChanged(device: DeviceId)
      reads this, injector
    {
      device in running && running == old(running)[device := running[device]] && OthersUntouched(device)
    }

    /** The first loop of a turn: inject what has become due. */
    method StartDueSteps(device: DeviceId, elapsed: real)
      requires device in running
      modifies this, injector
      ensures OnlySceneChanged(device)
      ensures SceneOf(device) == Activated(old(SceneOf(device)), elapsed, |old(running)[device].steps|)
    {
      ghost var before := SceneOf(device);
      var steps := running[device].steps;
      for n := 0 to |steps|
        invariant OnlySceneChanged(device) && SceneOf(device) == Activated(before, elapsed, n)
      {
        var t := running[device];
        if n !in t.triggered && elapsed >= steps[n].trigger as real {
          injector.Inject(device, steps[n].register, steps[n].anomaly);
          running := running[device := t.(active := t.active + {steps[n].register}, triggered := t.triggered + {n})];
        }
      }
    }

    /** The second loop: remove what has run out. */
    method EndExpiredSteps(device: DeviceId, elapsed: real)
      requires device in running
      modifies this, injector
      ensures OnlySceneChanged(device)
      ensures SceneOf(device) == Deactivated(old(SceneOf(device)), elapsed, |old(running)[device].steps|)
    {
      ghost var before := SceneOf(device);
      var steps := running[device].steps;
      for n := 0 to |steps|
        invariant OnlySceneChanged(device) && SceneOf(device) == Deactivated(before, elapsed, n)
      {
        var t := running[device];
        if n in t.triggered && elapsed >= steps[n].End() as real && steps[n].register in t.active {
          injector.Remove(device, steps[n].register);
          running := running[device := t.(active := t.active - {steps[n].register})];
        }
      }
    }

    /** One turn of the drive loop; true when the scenario has run to its end. */
    method Tick(device: DeviceId, now: real) returns (done: bool)
      requires device in running
      modifies this, injector
      ensures var after := Ticked(old(SceneOf(device)), now - old(running)[device].startedAt);
        && Of(injector.active, device) == after.anomalies
        && done == Completes(after.timeline, now - old(running)[device].startedAt)
        && running == if done then old(running) - {device} else old(running)[device := after.timeline]
      ensures OthersUntouched(device)
    {
      var elapsed := now - running[device].startedAt;
      StartDueSteps(device, elapsed);
      EndExpiredSteps(device, elapsed);
      done := elapsed >= running[device].total as real && running[device].active == {};
      if done {
        running := running - {device};
      }
    }

    /** Stopping clears every anomaly the scenario still holds. */
    method Stop(device: DeviceId)
      modifies this, injector
      ensures running == old(running) - {device}
      ensures Of(injector.active, device) ==
        if device in old(running) then Cleared(Of(old(injector.active), device), old(running)[device].active)
        else Of(old(injector.active), device)
      ensures OthersUntouched(device)
    {
      if device !in running {
        return;
      }
      ghost var before := Of(injector.active, device);
      var left := running[device].active;
      ghost var all := left;
      running := running - {device};
      while left != {}
        invariant left <= all
        invariant Of(injector.active, device) == Cleared(before, all - left)
        invariant running == old(running) - {device} && OthersUntouched(device)
      {
        var register :| register in left;
        injector.Remove(device, register);
        left := left - {register};
      }
    }

    method GetStatus(device: DeviceId, now: real) returns (status: Option<Status>)
      ensures status == if device in running then Some(StatusOf(running[device], now)) else None
    {
      if device !in running {
        return None;
      }
      var t := running[device];
      var second := WholeSeconds(now - t.startedAt);
      var reported := [];
      for n := 0 to |t.steps|
        invariant reported == ReportedSteps(t.steps[..n], second)
      {
        assert t.steps[..n + 1][..n] == t.steps[..n];
        var end := t.steps[n].trigger + t.steps[n].duration;
        if t.steps[n].trigger <= second < end {
          reported := reported + [ActiveStep(t.steps[n].register, t.steps[n].anomaly, end - second)];
        }
      }
      assert t.steps[..|t.steps|] == t.steps;
      return Some(Status(if second < t.total then second else t.total, t.total, reported));
    }
  }
}
