/** What the status of a scenario reports, and what a stop leaves. */
module ScenarioStatus {
  import opened Prelude
  import opened Anomalies
  import opened AnomalyInjection
  import opened ScenarioExecution
  import opened ScenarioHistory

  /**
   The status after so many seconds: whole seconds up to the total, the total itself,
   and just the steps whose windows cover the instant, with what is left of them.
   */
  lemma StatusIs(t: Timeline, now: real, a: ActiveStep)
    requires now >= t.startedAt
    ensures StatusOf(t, now).total == t.total
    ensures StatusOf(t, now).elapsed <= t.total
    ensures var seconds := now - t.startedAt;
      if seconds >= t.total as real then StatusOf(t, now).elapsed == t.total
      else StatusOf(t, now).elapsed as real <= seconds < (StatusOf(t, now).elapsed + 1) as real
    ensures a in StatusOf(t, now).activeSteps <==> ReportsSome(t.steps, now - t.startedAt, a)
  {
    ReportIsWindows(t.steps, now - t.startedAt, a);
  }

  /** What a report of one step means. */
  lemma ReportMeans(s: Step, seconds: real, a: ActiveStep)
    requires seconds >= 0.0
    ensures ReportsStep(s, seconds, a) <==>
      && s.trigger as real <= seconds < (s.trigger + s.duration) as real
      && a.register == s.register && a.anomaly == s.anomaly
      && (s.trigger + s.duration - a.remaining) as real <= seconds
      && seconds < (s.trigger + s.duration - a.remaining + 1) as real
  {
  }

  /** Stopping removes the anomalies of the active registers and no others. */
  lemma StopRemovesActive(anomalies: Anomalous, active: set<string>, register: string)
    ensures Get(Cleared(anomalies, active), register) ==
      if register in active then None else Get(anomalies, register)
  {
  }

  /**
   Whatever total is stored with the scenario, a tick completes it exactly when the
   total has passed and no register is left inside a step.
   */
  lemma CompletesForAnyTotal(t: Timeline, elapsed: real)
    requires AllValid(t.steps) && Exact(t, elapsed)
    ensures Completes(t, elapsed) <==>
      elapsed >= t.total as real && forall r :: !ActiveNow(t.steps, r, elapsed)
  {
    if Completes(t, elapsed) {
      forall r
        ensures !ActiveNow(t.steps, r, elapsed)
      {
        assert r !in t.active;
      }
    } else if r :| r in t.active {
      assert ActiveNow(t.steps, r, elapsed);
    }
  }
}
