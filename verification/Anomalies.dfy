/** Anomalies and the timed steps that scenarios and schedules are lists of. */
module Anomalies {
  import opened Prelude
  import opened Intervals

  datatype Anomaly =
    | Spike(probability: real, multiplier: real)
    | Drift(ratePerSecond: real, maxDrift: real)
    | Flatline(fixedValue: Option<real>)
    | OutOfRange(value: real)
    | DataLoss
    | OtherAnomaly(name: string)

  /** One scenario step or schedule entry: active over [trigger, trigger + duration). */
  datatype Step = Step(register: string, anomaly: Anomaly, trigger: int, duration: int) {
    function End(): int { trigger + duration }

    /** What the request schemas enforce. */
    predicate Valid() { 0 <= trigger && 0 < duration }

    predicate Covers(elapsed: real) {
      trigger as real <= elapsed < End() as real
    }
  }

  function RegisterOf(): Step -> string { (s: Step) => s.register }

  function Window(): Span<Step> {
    Span((s: Step) => s.trigger, (s: Step) => s.End())
  }

  ghost predicate AllValid(steps: seq<Step>) {
    forall i :: 0 <= i < |steps| ==> steps[i].Valid()
  }

  /** No two steps on one register are ever active together. */
  ghost predicate TimelineDisjoint(steps: seq<Step>) {
    KeyedDisjoint(steps, RegisterOf(), Window())
  }

  datatype TimelineError =
    | UnknownRegister(name: string)
    | Overlap(register: string, first: Step, second: Step)

  /** Two entries of one register whose windows share an instant. */
  ghost predicate Overlapping(steps: seq<Step>, e: TimelineError) {
    && e.Overlap?
    && e.first in steps && e.second in steps
    && e.first.register == e.second.register == e.register
    && !Window().Disjoint(e.first, e.second)
  }

  /** The verdict every timeline validator has to reach. */
  ghost predicate Acceptable(steps: seq<Step>, registers: set<string>) {
    (forall s <- steps :: s.register in registers) && TimelineDisjoint(steps)
  }

  /** A step whose register the template does not define. */
  ghost predicate Unknown(steps: seq<Step>, registers: set<string>, name: string) {
    name !in registers && exists s :: s in steps && s.register == name
  }

  /** The loop both services run before comparing times. */
  method FindUnknownRegister(steps: seq<Step>, registers: set<string>) returns (name: Option<string>)
    ensures name.None? <==> forall s <- steps :: s.register in registers
    ensures name.Some? ==> Unknown(steps, registers, name.value)
  {
    for n := 0 to |steps|
      invariant forall i :: 0 <= i < n ==> steps[i].register in registers
    {
      if steps[n].register !in registers {
        assert steps[n] in steps;
        return Some(steps[n].register);
      }
    }
    return None;
  }
}
