/**
 The anomaly injector: real-time anomalies set by hand or by a scenario, and
 scheduled ones switched lazily whenever a register value passes through.
 */
module AnomalyInjection {
  import opened Prelude
  import opened ProtocolBase
  import opened Anomalies

  datatype AnomalyState = AnomalyState(anomaly: Anomaly, activatedAt: Option<real>, frozen: Option<real>)

  /** The anomalies of one device, by register name. */
  type Anomalous = map<string, AnomalyState>

  /** Everything the injector stores. */
  datatype Injections = Injections(
    active: map<DeviceId, Anomalous>,
    schedules: map<DeviceId, seq<Step>>,
    scheduled: map<DeviceId, Anomalous>
  )

  function Of(m: map<DeviceId, Anomalous>, device: DeviceId): Anomalous {
    if device in m then m[device] else map[]
  }

  function Fresh(anomaly: Anomaly): AnomalyState {
    AnomalyState(anomaly, None, None)
  }

  // --- The effect of one anomaly ---

  function Abs(r: real): real { if r < 0.0 then -r else r }

  /** The cap: a magnitude, taken in the direction of the rate. */
  function Capped(rate: real, maxDrift: real, drift: real): real {
    if Abs(drift) > Abs(maxDrift) then (if rate >= 0.0 then maxDrift else -maxDrift) else drift
  }

  /** Linear in the time since activation, capped at max_drift's magnitude. */
  function DriftOffset(rate: real, maxDrift: real, since: real): real {
    Capped(rate, maxDrift, rate * since)
  }

  /** The state and value after an anomaly has met a value; `roll` is the random draw. */
  function Affected(s: AnomalyState, value: real, elapsed: real, roll: real): (AnomalyState, real) {
    match s.anomaly
    case Spike(probability, multiplier) => (s, if roll < probability then value * multiplier else value)
    case Drift(rate, maxDrift) =>
      var since := if s.activatedAt.Some? then elapsed - s.activatedAt.value else 0.0;
      var activated := if s.activatedAt.Some? then s else s.(activatedAt := Some(elapsed));
      (activated, value + DriftOffset(rate, maxDrift, since))
    case Flatline(Some(fixed)) => (s, fixed)
    case Flatline(None) =>
      if s.frozen.Some? then (s, s.frozen.value) else (s.(frozen := Some(value)), value)
    case OutOfRange(v) => (s, v)
    case DataLoss => (s, 0.0)
    case OtherAnomaly(_) => (s, value)
  }

  // --- Operations on the stored state ---

  function Injected(i: Injections, device: DeviceId, register: string, anomaly: Anomaly): Injections {
    i.(active := i.active[device := Of(i.active, device)[register := Fresh(anomaly)]])
  }

  function Removed(i: Injections, device: DeviceId, register: string): Injections {
    if device in i.active then i.(active := i.active[device := i.active[device] - {register}]) else i
  }

  function RealtimeCleared(i: Injections, device: DeviceId): Injections {
    i.(active := i.active - {device})
  }

  function DeviceCleared(i: Injections, device: DeviceId): Injections {
    Injections(i.active - {device}, i.schedules - {device}, i.scheduled - {device})
  }

  function Loaded(i: Injections, device: DeviceId, schedules: seq<Step>): Injections {
    i.(schedules := i.schedules[device := schedules], scheduled := i.scheduled - {device})
  }

  /** The first entry of a register whose window covers the time. */
  function Covering(schedules: seq<Step>, register: string, elapsed: real): Option<Step> {
    if schedules == [] then None
    else if schedules[0].register == register && schedules[0].Covers(elapsed) then Some(schedules[0])
    else Covering(schedules[1..], register, elapsed)
  }

  /** A covered register keeps the state it has, and gets one if it has none. */
  function Switched(scheduled: Anomalous, covering: Option<Step>, register: string, elapsed: real): Anomalous {
    match covering
    case None => scheduled - {register}
    case Some(step) =>
      if register in scheduled then scheduled
      else scheduled[register := AnomalyState(step.anomaly, Some(elapsed), None)]
  }

  function ScheduleUpdated(i: Injections, device: DeviceId, register: string, elapsed: real): Injections {
    if device !in i.schedules || i.schedules[device] == [] then i
    else
      var covering := Covering(i.schedules[device], register, elapsed);
      i.(scheduled := i.scheduled[device := Switched(Of(i.scheduled, device), covering, register, elapsed)])
  }

  /** A real-time anomaly comes first; then the schedule; then the value itself. */
  function Applied(i: Injections, device: DeviceId, register: string, value: real, elapsed: real, roll: real)
    : (Injections, real)
  {
    if register in Of(i.active, device) then
      var (s, v) := Affected(Of(i.active, device)[register], value, elapsed, roll);
      (i.(active := i.active[device := Of(i.active, device)[register := s]]), v)
    else
      var updated := ScheduleUpdated(i, device, register, elapsed);
      if register in Of(updated.scheduled, device) then
        var (s, v) := Affected(Of(updated.scheduled, device)[register], value, elapsed, roll);
        (updated.(scheduled := updated.scheduled[device := Of(updated.scheduled, device)[register := s]]), v)
      else (updated, value)
  }

  // --- The injector ---

  class AnomalyInjector {
    var active: map<DeviceId, Anomalous>
    var schedules: map<DeviceId, seq<Step>>
    var scheduled: map<DeviceId, Anomalous>

    constructor ()
      ensures View() == Injections(map[], map[], map[])
    {
      active, schedules, scheduled := map[], map[], map[];
    }

    ghost function View(): Injections
      reads this
    {
      Injections(active, schedules, scheduled)
    }

    method Inject(device: DeviceId, register: string, anomaly: Anomaly)
      modifies this
      ensures View() == Injected(old(View()), device, register, anomaly)
    {
      if device !in active {
        active := active[device := map[]];
      }
      active := active[device := active[device][register := Fresh(anomaly)]];
    }

    method Remove(device: DeviceId, register: string)
      modifies this
      ensures View() == Removed(old(View()), device, register)
    {
      if device in active {
        active := active[device := active[device] - {register}];
      }
    }

    method ClearRealtime(device: DeviceId)
      modifies this
      ensures View() == RealtimeCleared(old(View()), device)
    {
      active := active - {device};
    }

    method ClearDevice(device: DeviceId)
      modifies this
      ensures View() == DeviceCleared(old(View()), device)
    {
      active := active - {device};
      schedules := schedules - {device};
      scheduled := scheduled - {device};
    }

    method LoadSchedules(device: DeviceId, entries: seq<Step>)
      modifies this
      ensures View() == Loaded(old(View()), device, entries)
    {
      schedules := schedules[device := entries];
      scheduled := scheduled - {device};
    }

    /** The lookup loop: the first entry of the register that covers the time. */
    method FindCovering(entries: seq<Step>, register: string, elapsed: real) returns (found: Option<Step>)
      ensures found == Covering(entries, register, elapsed)
    {
      assert entries[0..] == entries;
      for n := 0 to |entries|
        invariant Covering(entries, register, elapsed) == Covering(entries[n..], register, elapsed)
      {
        if entries[n].register == register && entries[n].Covers(elapsed) {
          return Some(entries[n]);
        }
        assert entries[n..][1..] == entries[n + 1..];
      }
      return None;
    }

    method UpdateScheduled(device: DeviceId, register: string, elapsed: real)
      modifies this`scheduled
      ensures View() == ScheduleUpdated(old(View()), device, register, elapsed)
    {
      if device !in schedules || schedules[device] == [] {
        return;
      }
      if device !in scheduled {
        scheduled := scheduled[device := map[]];
      }
      var found := FindCovering(schedules[device], register, elapsed);
      if found.Some? {
        if register !in scheduled[device] {
          var s := AnomalyState(found.value.anomaly, Some(elapsed), None);
          scheduled := scheduled[device := scheduled[device][register := s]];
        }
      } else {
        scheduled := scheduled[device := scheduled[device] - {register}];
      }
    }

    method Apply(device: DeviceId, register: string, value: real, elapsed: real, roll: real) returns (v: real)
      modifies this
      ensures (View(), v) == Applied(old(View()), device, register, value, elapsed, roll)
    {
      if device in active && register in active[device] {
        var (s, result) := Affected(active[device][register], value, elapsed, roll);
        active := active[device := active[device][register := s]];
        return result;
      }
      UpdateScheduled(device, register, elapsed);
      if device in scheduled && register in scheduled[device] {
        var (s, result) := Affected(scheduled[device][register], value, elapsed, roll);
        scheduled := scheduled[device := scheduled[device][register := s]];
        return result;
      }
      return value;
    }
  }
}
