/**
 Scenario runs from start to end, for any step list and any non-decreasing tick
 times. Between two ticks values may pass through the injector and update the
 anomalies' own state; nobody else injects or removes anomalies of the scenario's
 registers.
 */
module ScenarioHistory {
  import opened Prelude
  import opened Anomalies
  import opened AnomalyInjection
  import opened ScenarioService
  import opened ScenarioExecution

  // --- What the steps say about an instant ---

  ghost predicate StartedBy(s: Step, r: string, t: real) {
    s.register == r && s.trigger as real <= t
  }

  ghost predicate EndedBy(s: Step, r: string, t: real) {
    s.register == r && s.End() as real <= t
  }

  /** Some step of the register has started, and none of its steps has ended. */
  ghost predicate ActiveNow(steps: seq<Step>, r: string, t: real) {
    (exists s :: s in steps && StartedBy(s, r, t)) && forall s <- steps :: !EndedBy(s, r, t)
  }

  /** Some step's declared window covers the instant. */
  ghost predicate InWindow(steps: seq<Step>, r: string, t: real) {
    exists s :: s in steps && s.register == r && s.Covers(t)
  }

  ghost predicate UsesRegister(steps: seq<Step>, r: string) {
    exists s :: s in steps && s.register == r
  }

  // --- One tick ---

  lemma {:induction false} ActivatedIs(s: Scene, t: real, n: nat)
    requires n <= |s.timeline.steps|
    ensures var a, steps := Activated(s, t, n), s.timeline.steps;
      && (forall k: nat :: k in a.timeline.triggered <==>
            k in s.timeline.triggered || (k < n && steps[k].trigger as real <= t))
      && (forall r :: r in a.timeline.active <==>
            r in s.timeline.active || exists k: nat :: k < n && DueFor(s.timeline, t, k, r))
  {
    if n > 0 {
      ActivatedIs(s, t, n - 1);
      var before := Activated(s, t, n - 1);
      var a := Activated(s, t, n);
      forall r
        ensures r in a.timeline.active <==>
          r in s.timeline.active || exists k: nat :: k < n && DueFor(s.timeline, t, k, r)
      {
        if r in a.timeline.active && r !in before.timeline.active {
          assert DueFor(s.timeline, t, n - 1, r);
        }
      }
    }
  }

  ghost predicate DueFor(t: Timeline, elapsed: real, k: nat, r: string) {
    k < |t.steps| && t.steps[k].register == r && IsDue(t, elapsed, k)
  }

  lemma DeactivatedOneIs(before: Scene, t: real, n: nat, r: string)
    requires n < |before.timeline.steps|
    ensures r in DeactivatedOne(before, t, n).timeline.active <==>
      r in before.timeline.active && !OverFor(before.timeline, t, n, r)
  {
  }

  lemma {:induction false} DeactivatedIs(s: Scene, t: real, n: nat)
    requires n <= |s.timeline.steps|
    ensures var d := Deactivated(s, t, n);
      forall r :: r in d.timeline.active <==> r in s.timeline.active && NoneOver(s.timeline, t, n, r)
  {
    if n > 0 {
      DeactivatedIs(s, t, n - 1);
      var before := Deactivated(s, t, n - 1);
      forall r
        ensures r in Deactivated(s, t, n).timeline.active <==> r in s.timeline.active && NoneOver(s.timeline, t, n, r)
      {
        DeactivatedOneIs(before, t, n - 1, r);
        assert NoneOver(s.timeline, t, n, r)
          <==> NoneOver(s.timeline, t, n - 1, r) && !OverFor(s.timeline, t, n - 1, r);
      }
    }
  }

  /** None of the first n steps of the register is over. */
  ghost predicate NoneOver(t: Timeline, elapsed: real, n: nat, r: string) {
    forall k: nat :: k < n ==> !OverFor(t, elapsed, k, r)
  }

  ghost predicate OverFor(t: Timeline, elapsed: real, k: nat, r: string) {
    k < |t.steps| && t.steps[k].register == r && k in t.triggered && elapsed >= t.steps[k].End() as real
  }

  /** The loop's two sets say exactly what the steps say about the instant. */
  ghost predicate Exact(t: Timeline, elapsed: real) {
    && (forall k: nat :: k in t.triggered <==> k < |t.steps| && t.steps[k].trigger as real <= elapsed)
    && (forall r :: r in t.active <==> ActiveNow(t.steps, r, elapsed))
  }

  /** Before its first tick a scenario stands at an instant before every step. */
  lemma FreshIsExact(steps: seq<Step>, total: int, startedAt: real)
    requires AllValid(steps)
    ensures Exact(Timeline(steps, total, startedAt, {}, {}), -1.0)
  {
    forall s, r | s in steps
      ensures !StartedBy(s, r, -1.0)
    {
      assert s.Valid();
    }
    forall k: nat | k < |steps|
      ensures steps[k].trigger as real > -1.0
    {
      assert steps[k].Valid();
    }
  }

  lemma TickIsExact(s: Scene, before: real, t: real)
    requires AllValid(s.timeline.steps) && Exact(s.timeline, before) && before <= t
    ensures Exact(Ticked(s, t).timeline, t)
  {
    var steps := s.timeline.steps;
    var n := |steps|;
    ActivatedIs(s, t, n);
    var a := Activated(s, t, n);
    DeactivatedIs(a, t, n);
    var after := Ticked(s, t).timeline;
    forall r
      ensures r in after.active <==> ActiveNow(steps, r, t)
    {
      TickedRegister(s, before, t, r);
    }
  }

  lemma TickedRegister(s: Scene, before: real, t: real, r: string)
    requires AllValid(s.timeline.steps) && Exact(s.timeline, before) && before <= t
    ensures r in Ticked(s, t).timeline.active <==> ActiveNow(s.timeline.steps, r, t)
  {
    var steps := s.timeline.steps;
    var n := |steps|;
    var a := Activated(s, t, n);
    ActivatedIs(s, t, n);
    DeactivatedIs(a, t, n);
    assert !NoneOver(a.timeline, t, n, r) <==> exists x :: x in steps && EndedBy(x, r, t) by {
      if !NoneOver(a.timeline, t, n, r) {
        var k: nat :| k < n && OverFor(a.timeline, t, k, r);
        assert EndedBy(steps[k], r, t);
      }
      if exists x :: x in steps && EndedBy(x, r, t) {
        var x :| x in steps && EndedBy(x, r, t);
        var k: nat :| k < n && steps[k] == x;
        assert steps[k].Valid();
        assert OverFor(a.timeline, t, k, r);
      }
    }
    if r in a.timeline.active {
      if r in s.timeline.active {
        var x :| x in steps && StartedBy(x, r, before);
        assert StartedBy(x, r, t);
      } else {
        var k: nat :| k < n && DueFor(s.timeline, t, k, r);
        assert StartedBy(steps[k], r, t);
      }
    } else if exists x :: x in steps && StartedBy(x, r, t) {
      var x :| x in steps && StartedBy(x, r, t);
      var k: nat :| k < n && steps[k] == x;
      assert k in s.timeline.triggered by {
        assert !DueFor(s.timeline, t, k, r);
      }
      assert StartedBy(x, r, before);
      var y :| y in steps && EndedBy(y, r, before);
      assert EndedBy(y, r, t);
    }
  }

  // --- Anomalies of the scenario's registers ---

  /** The injector shows an anomaly on a scenario register exactly while it is active, one of its own. */
  ghost predicate Shows(s: Scene) {
    && (forall r :: UsesRegister(s.timeline.steps, r) ==> (r in s.anomalies <==> r in s.timeline.active))
    && (forall r <- s.timeline.active :: OwnAnomaly(s, r))
  }

  ghost predicate OwnAnomaly(s: Scene, r: string) {
    r in s.anomalies && exists x :: x in s.timeline.steps && x.register == r && x.anomaly == s.anomalies[r].anomaly
  }

  lemma {:induction false} ActivatedShows(s: Scene, t: real, n: nat)
    requires n <= |s.timeline.steps| && Shows(s)
    ensures Shows(Activated(s, t, n))
  {
    if n > 0 {
      ActivatedShows(s, t, n - 1);
      var before := Activated(s, t, n - 1);
      var after := Activated(s, t, n);
      if IsDue(before.timeline, t, n - 1) {
        var step := s.timeline.steps[n - 1];
        assert step in s.timeline.steps;
        forall r | r in after.timeline.active
          ensures OwnAnomaly(after, r)
        {
          if r != step.register {
            assert OwnAnomaly(before, r);
          }
        }
      }
    }
  }

  lemma {:induction false} DeactivatedShows(s: Scene, t: real, n: nat)
    requires n <= |s.timeline.steps| && Shows(s)
    ensures Shows(Deactivated(s, t, n))
  {
    if n > 0 {
      DeactivatedShows(s, t, n - 1);
      var before := Deactivated(s, t, n - 1);
      var after := Deactivated(s, t, n);
      forall r | r in after.timeline.active
        ensures OwnAnomaly(after, r)
      {
        assert OwnAnomaly(before, r);
      }
    }
  }

  // --- Whole runs ---

  predicate SameAnomaly(a: Option<AnomalyState>, b: Option<AnomalyState>) {
    if a.None? then b.None? else b.Some? && a.value.anomaly == b.value.anomaly
  }

  /**
   What may happen between ticks: values pass through, anomalies of the scenario's
   registers stay what they are, and on other registers anything happens.
   */
  ghost predicate OnlyApplied(a: Scene, b: Scene) {
    && a.timeline == b.timeline
    && forall r :: UsesRegister(a.timeline.steps, r) ==> SameAnomaly(Get(a.anomalies, r), Get(b.anomalies, r))
  }

  /** scenes[k] is what tick k finds; the last scene is what the run leaves. */
  ghost predicate IsRun(start: Scene, scenes: seq<Scene>, times: seq<real>) {
    && |scenes| == |times| + 1
    && OnlyApplied(start, scenes[0])
    && forall k :: 0 <= k < |times| ==> OnlyApplied(Ticked(scenes[k], times[k]), scenes[k + 1])
  }

  ghost predicate TickTimes(times: seq<real>) {
    && (forall k :: 0 <= k < |times| ==> times[k] >= 0.0)
    && forall j, k :: 0 <= j < k < |times| ==> times[j] <= times[k]
  }

  /** A scenario just started on a device that shows none of its registers' anomalies. */
  ghost predicate Fresh0(start: Scene) {
    && AllValid(start.timeline.steps)
    && start.timeline.active == {} && start.timeline.triggered == {}
    && forall r <- start.anomalies :: !UsesRegister(start.timeline.steps, r)
  }

  /** The instant a run stands at before tick k. */
  function TimeBefore(times: seq<real>, k: nat): real
    requires k <= |times|
  {
    if k == 0 then -1.0 else times[k - 1]
  }

  /**
   For every step list: at every tick, the active registers are those with a
   started step and no ended one, and the injector shows exactly those.
   */
  lemma {:induction false} RunIsExact(start: Scene, scenes: seq<Scene>, times: seq<real>, k: nat)
    requires Fresh0(start) && IsRun(start, scenes, times) && TickTimes(times) && k <= |times|
    ensures scenes[k].timeline.steps == start.timeline.steps && scenes[k].timeline.total == start.timeline.total
    ensures Exact(scenes[k].timeline, TimeBefore(times, k))
    ensures Shows(scenes[k])
  {
    if k == 0 {
      FreshIsExact(start.timeline.steps, start.timeline.total, start.timeline.startedAt);
      AppliedShows(start, scenes[0]);
    } else {
      RunIsExact(start, scenes, times, k - 1);
      var s, t := scenes[k - 1], times[k - 1];
      assert TimeBefore(times, k - 1) <= t;
      TickIsExact(s, TimeBefore(times, k - 1), t);
      ActivatedShows(s, t, |s.timeline.steps|);
      DeactivatedShows(Activated(s, t, |s.timeline.steps|), t, |s.timeline.steps|);
      AppliedShows(Ticked(s, t), scenes[k]);
    }
  }

  /** Values passing through, and whatever happens on other registers, do not disturb what is shown. */
  lemma AppliedShows(a: Scene, b: Scene)
    requires Shows(a) && OnlyApplied(a, b)
    ensures Shows(b)
  {
    forall r | UsesRegister(b.timeline.steps, r)
      ensures r in b.anomalies <==> r in b.timeline.active
    {
      assert SameAnomaly(Get(a.anomalies, r), Get(b.anomalies, r));
    }
    forall r | r in b.timeline.active
      ensures OwnAnomaly(b, r)
    {
      assert OwnAnomaly(a, r) && UsesRegister(a.timeline.steps, r);
      assert SameAnomaly(Get(a.anomalies, r), Get(b.anomalies, r));
    }
  }

  /** Tick k injects a step exactly when its trigger lies in (previous tick, this tick]: once per run. */
  lemma InjectedExactlyOnce(start: Scene, scenes: seq<Scene>, times: seq<real>, k: nat, n: nat)
    requires Fresh0(start) && IsRun(start, scenes, times) && TickTimes(times) && k < |times|
    requires n < |start.timeline.steps|
    ensures scenes[k].timeline.steps == start.timeline.steps
    ensures IsDue(scenes[k].timeline, times[k], n)
       <==> TimeBefore(times, k) < start.timeline.steps[n].trigger as real <= times[k]
  {
    RunIsExact(start, scenes, times, k);
  }

  /** A run completes exactly at a tick at or after the total duration, with nothing left active. */
  lemma CompletesExactly(t: Timeline, elapsed: real)
    requires AllValid(t.steps) && t.total == TotalDuration(t.steps) && Exact(t, elapsed)
    ensures Completes(t, elapsed) <==> elapsed >= t.total as real
  {
    if elapsed >= t.total as real {
      forall r
        ensures r !in t.active
      {
        if exists x :: x in t.steps && StartedBy(x, r, elapsed) {
          var x :| x in t.steps && StartedBy(x, r, elapsed);
          assert x.End() <= t.total;
          assert EndedBy(x, r, elapsed);
        }
      }
    }
  }

  /** What tick k leaves is what tick k + 1 finds, as far as the scenario is concerned. */
  lemma TickLeaves(start: Scene, scenes: seq<Scene>, times: seq<real>, k: nat)
    requires Fresh0(start) && IsRun(start, scenes, times) && TickTimes(times) && k < |times|
    ensures var after := Ticked(scenes[k], times[k]);
      && after.timeline.steps == start.timeline.steps && after.timeline.total == start.timeline.total
      && Exact(after.timeline, times[k])
      && forall r :: UsesRegister(start.timeline.steps, r) ==> (r in after.anomalies <==> r in after.timeline.active)
  {
    RunIsExact(start, scenes, times, k + 1);
    var after := Ticked(scenes[k], times[k]);
    assert OnlyApplied(after, scenes[k + 1]);
    forall r | UsesRegister(start.timeline.steps, r)
      ensures r in after.anomalies <==> r in after.timeline.active
    {
      assert SameAnomaly(Get(after.anomalies, r), Get(scenes[k + 1].anomalies, r));
    }
  }

  /** The first tick at or after the total duration ends the run and leaves no anomaly behind. */
  lemma RunCompletes(start: Scene, scenes: seq<Scene>, times: seq<real>, k: nat)
    requires Fresh0(start) && IsRun(start, scenes, times) && TickTimes(times) && k < |times|
    requires start.timeline.total == TotalDuration(start.timeline.steps)
    ensures var after := Ticked(scenes[k], times[k]);
      && (Completes(after.timeline, times[k]) <==> times[k] >= start.timeline.total as real)
      && (Completes(after.timeline, times[k]) ==>
            forall r :: UsesRegister(start.timeline.steps, r) ==> r !in after.anomalies)
  {
    TickLeaves(start, scenes, times, k);
    CompletesExactly(Ticked(scenes[k], times[k]).timeline, times[k]);
  }

  lemma {:induction false} TickAdvances(times: seq<real>, n: nat)
    requires TickTimes(times) && n < |times|
    requires forall k :: 0 < k < |times| ==> times[k] >= times[k - 1] + 1.0
    ensures times[n] >= n as real
  {
    if n > 0 {
      TickAdvances(times, n - 1);
    }
  }

  /** With ticks a second or more apart, a run makes at most one tick more than its total duration has seconds. */
  lemma TicksAreBounded(start: Scene, scenes: seq<Scene>, times: seq<real>)
    requires Fresh0(start) && IsRun(start, scenes, times) && TickTimes(times)
    requires start.timeline.total == TotalDuration(start.timeline.steps)
    requires forall k :: 0 < k < |times| ==> times[k] >= times[k - 1] + 1.0
    requires forall k :: 0 <= k < |times| - 1 ==> !Completes(Ticked(scenes[k], times[k]).timeline, times[k])
    ensures |times| <= start.timeline.total + 1
  {
    var total := start.timeline.total;
    if |times| > total + 1 {
      TickAdvances(times, total);
      RunCompletes(start, scenes, times, total);
      assert false;
    }
  }

  /** A stop between ticks leaves none of the scenario's anomalies. */
  lemma StopLeavesNone(start: Scene, scenes: seq<Scene>, times: seq<real>, k: nat)
    requires Fresh0(start) && IsRun(start, scenes, times) && TickTimes(times) && k <= |times|
    ensures forall r :: UsesRegister(start.timeline.steps, r) ==>
      r !in Cleared(scenes[k].anomalies, scenes[k].timeline.active)
  {
    RunIsExact(start, scenes, times, k);
  }

  // --- Windows ---

  ghost predicate OneStepPerRegister(steps: seq<Step>) {
    forall i, j :: 0 <= i < j < |steps| ==> steps[i].register != steps[j].register
  }

  lemma OneStepShowsWindow(steps: seq<Step>, r: string, t: real)
    requires OneStepPerRegister(steps)
    ensures ActiveNow(steps, r, t) <==> InWindow(steps, r, t)
  {
    if ActiveNow(steps, r, t) {
      var x :| x in steps && StartedBy(x, r, t);
      assert !EndedBy(x, r, t);
      assert x.Covers(t);
    }
    if InWindow(steps, r, t) {
      var x :| x in steps && x.register == r && x.Covers(t);
      assert StartedBy(x, r, t);
      forall y | y in steps
        ensures !EndedBy(y, r, t)
      {
        if y.register == r {
          assert y == x;
        }
      }
    }
  }

  /**
   Once a step of a register has ended, no later step of that register is shown: at
   a tick inside the later window the injector has nothing on the register.
   */
  lemma LaterStepIsLost(start: Scene, scenes: seq<Scene>, times: seq<real>, k: nat, first: Step, second: Step)
    requires Fresh0(start) && IsRun(start, scenes, times) && TickTimes(times) && 0 < k <= |times|
    requires first in start.timeline.steps && second in start.timeline.steps && first.register == second.register
    requires first.End() <= second.trigger && second.Covers(times[k - 1])
    ensures second.register !in scenes[k].timeline.active && second.register !in scenes[k].anomalies
  {
    RunIsExact(start, scenes, times, k);
    assert EndedBy(first, second.register, times[k - 1]);
    assert UsesRegister(start.timeline.steps, second.register);
  }

  /** At every tick of every run, the injector shows a scenario register exactly inside its windows. */
  ghost predicate RunsShowWindows(start: Scene) {
    forall scenes: seq<Scene>, times: seq<real>, k: nat, r: string ::
      (IsRun(start, scenes, times) && TickTimes(times) && 0 < k <= |times| && UsesRegister(start.timeline.steps, r) ==>
         (r in scenes[k].anomalies <==> InWindow(start.timeline.steps, r, times[k - 1])))
  }

  /**
   Exactly when an accepted scenario shows every window as declared: it has at
   most one step per register.
   */
  lemma WindowsShownExactly(start: Scene)
    requires Fresh0(start) && TimelineDisjoint(start.timeline.steps)
    ensures RunsShowWindows(start) <==> OneStepPerRegister(start.timeline.steps)
  {
    var steps := start.timeline.steps;
    if OneStepPerRegister(steps) {
      forall scenes: seq<Scene>, times: seq<real>, k: nat, r: string |
        IsRun(start, scenes, times) && TickTimes(times) && 0 < k <= |times| && UsesRegister(steps, r)
        ensures r in scenes[k].anomalies <==> InWindow(steps, r, times[k - 1])
      {
        RunIsExact(start, scenes, times, k);
        OneStepShowsWindow(steps, r, times[k - 1]);
      }
    } else {
      var i, j :| 0 <= i < j < |steps| && steps[i].register == steps[j].register;
      assert steps[i].Valid() && steps[j].Valid();
      assert Window().Disjoint(steps[i], steps[j]);
      if steps[i].End() <= steps[j].trigger {
        WindowLost(start, steps[i], steps[j]);
      } else {
        WindowLost(start, steps[j], steps[i]);
      }
    }
  }

  /** A run of one tick, at the start of the later window, loses it. */
  lemma WindowLost(start: Scene, first: Step, second: Step)
    requires Fresh0(start) && first in start.timeline.steps && second in start.timeline.steps
    requires first.register == second.register && first.End() <= second.trigger && first.Valid() && second.Valid()
    ensures !RunsShowWindows(start)
  {
    var times := [second.trigger as real];
    var scenes := [start, Ticked(start, times[0])];
    assert IsRun(start, scenes, times) && TickTimes(times);
    LaterStepIsLost(start, scenes, times, 1, first, second);
    assert UsesRegister(start.timeline.steps, second.register);
    assert InWindow(start.timeline.steps, second.register, times[0]);
  }

  /** Two adjoining steps of one register, which the validator accepts: the second is never shown. */
  lemma SecondStepIsLost(register: string, a: Anomaly, b: Anomaly, now: real)
    ensures var steps := [Step(register, a, 0, 10), Step(register, b, 10, 10)];
      && AllValid(steps) && Acceptable(steps, {register})
      && !RunsShowWindows(Scene(Timeline(steps, 20, now, {}, {}), map[]))
  {
    var first, second := Step(register, a, 0, 10), Step(register, b, 10, 10);
    var steps := [first, second];
    assert steps[0] == first && steps[1] == second;
    WindowLost(Scene(Timeline(steps, 20, now, {}, {}), map[]), first, second);
  }

  /**
   One step per register: at every tick the injector shows a register's anomaly
   exactly while its step's window covers the instant, and it is that step's.
   */
  lemma OneStepRunShowsWindows(start: Scene, scenes: seq<Scene>, times: seq<real>, k: nat, step: Step)
    requires Fresh0(start) && IsRun(start, scenes, times) && TickTimes(times) && 0 < k <= |times|
    requires OneStepPerRegister(start.timeline.steps) && step in start.timeline.steps
    ensures step.register in scenes[k].timeline.active <==> step.Covers(times[k - 1])
    ensures step.register in scenes[k].anomalies <==> step.Covers(times[k - 1])
    ensures step.Covers(times[k - 1]) ==> scenes[k].anomalies[step.register].anomaly == step.anomaly
  {
    RunIsExact(start, scenes, times, k);
    var steps, t := start.timeline.steps, times[k - 1];
    OneStepShowsWindow(steps, step.register, t);
    assert UsesRegister(steps, step.register);
    OnlyStep(steps, step);
    if step.register in scenes[k].timeline.active {
      assert OwnAnomaly(scenes[k], step.register);
    }
  }

  lemma OnlyStep(steps: seq<Step>, step: Step)
    requires OneStepPerRegister(steps) && step in steps
    ensures forall x <- steps :: x.register == step.register ==> x == step
  {
  }

  // --- The status report ---

  /** The entry is the step's own, and the step's window covers the instant. */
  predicate ReportsStep(s: Step, t: real, a: ActiveStep) {
    s.Covers(t) && a == ActiveStep(s.register, s.anomaly, s.End() - WholeSeconds(t))
  }

  ghost predicate ReportsSome(steps: seq<Step>, t: real, a: ActiveStep) {
    exists s :: s in steps && ReportsStep(s, t, a)
  }

  lemma ReportsSomeLast(init: seq<Step>, last: Step, t: real, a: ActiveStep)
    ensures ReportsSome(init + [last], t, a) <==> ReportsSome(init, t, a) || ReportsStep(last, t, a)
  {
    if s :| s in init && ReportsStep(s, t, a) {
      assert s in init + [last];
    }
    assert last in init + [last];
  }

  /** A step is reported, with its remaining seconds, exactly while its window covers the instant. */
  lemma {:induction false} ReportIsWindows(steps: seq<Step>, t: real, a: ActiveStep)
    requires t >= 0.0
    ensures a in ReportedSteps(steps, WholeSeconds(t)) <==> ReportsSome(steps, t, a)
  {
    if steps != [] {
      var init, last := steps[..|steps| - 1], steps[|steps| - 1];
      ReportIsWindows(init, t, a);
      assert steps == init + [last];
      ReportsSomeLast(init, last, t, a);
      FloorCovers(last, t);
    }
  }

  lemma FloorCovers(s: Step, t: real)
    ensures s.trigger <= WholeSeconds(t) < s.End() <==> s.Covers(t)
  {
  }

  /** With one step per register, the status at a tick reports just what the injector shows. */
  lemma StatusMatchesInjector(start: Scene, scenes: seq<Scene>, times: seq<real>, k: nat, step: Step)
    requires Fresh0(start) && IsRun(start, scenes, times) && TickTimes(times) && 0 < k <= |times|
    requires OneStepPerRegister(start.timeline.steps) && step in start.timeline.steps
    ensures var second := WholeSeconds(times[k - 1]);
      step.register in scenes[k].anomalies <==>
        ActiveStep(step.register, step.anomaly, step.End() - second) in ReportedSteps(start.timeline.steps, second)
  {
    OneStepRunShowsWindows(start, scenes, times, k, step);
    OnlyStep(start.timeline.steps, step);
    var a := ActiveStep(step.register, step.anomaly, step.End() - WholeSeconds(times[k - 1]));
    ReportIsWindows(start.timeline.steps, times[k - 1], a);
    assert ReportsStep(step, times[k - 1], a) <==> step.Covers(times[k - 1]);
  }
}
