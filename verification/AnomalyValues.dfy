/** What anomalies make of values, over whole histories of the injector. */
module AnomalyValues {
  import opened Prelude
  import opened ProtocolBase
  import opened Anomalies
  import opened AnomalyInjection
  import opened ScheduleHistory

  /** What a call returns under an anomaly, given the first call the anomaly met. */
  ghost predicate Distorts(anomaly: Anomaly, first: Call, call: Call, v: real) {
    match anomaly
    case Spike(probability, multiplier) => v == if call.roll < probability then call.value * multiplier else call.value
    case Drift(rate, cap) => v == call.value + Drifted(rate, cap, call.elapsed - first.elapsed)
    case Flatline(Some(fixed)) => v == fixed
    case Flatline(None) => v == first.value
    case OutOfRange(x) => v == x
    case DataLoss => v == 0.0
    case OtherAnomaly(_) => v == call.value
  }

  /** Rate times time, until its size passes the cap's; from then on the cap, in the rate's direction. */
  function Drifted(rate: real, cap: real, since: real): real {
    var linear, size := rate * since, if cap < 0.0 then -cap else cap;
    if -size <= linear <= size then linear else if rate < 0.0 then -cap else cap
  }

  lemma OffsetIsDrifted(rate: real, cap: real, since: real)
    ensures DriftOffset(rate, cap, since) == Drifted(rate, cap, since)
  {
    CappedIsDrifted(rate, cap, rate * since);
  }

  lemma CappedIsDrifted(rate: real, cap: real, linear: real)
    ensures var size := if cap < 0.0 then -cap else cap;
      Capped(rate, cap, linear) == if -size <= linear <= size then linear else if rate < 0.0 then -cap else cap
  {
  }

  lemma NothingDrifted(rate: real, cap: real)
    ensures Drifted(rate, cap, 0.0) == 0.0
  {
    assert rate * 0.0 == 0.0;
  }

  /** What an anomaly remembers of the first call it met. */
  ghost predicate Remembers(s: AnomalyState, anomaly: Anomaly, first: Call) {
    && s.anomaly == anomaly
    && (anomaly.Drift? ==> s.activatedAt == Some(first.elapsed))
    && (anomaly == Flatline(None) ==> s.frozen == Some(first.value))
  }

  lemma FirstMeeting(s: AnomalyState, first: Call)
    requires s.activatedAt.None? || s.activatedAt == Some(first.elapsed)
    requires s.frozen.None?
    ensures var (after, v) := Affected(s, first.value, first.elapsed, first.roll);
      Remembers(after, s.anomaly, first) && Distorts(s.anomaly, first, first, v)
  {
    if s.anomaly.Drift? {
      OffsetIsDrifted(s.anomaly.ratePerSecond, s.anomaly.maxDrift, 0.0);
      NothingDrifted(s.anomaly.ratePerSecond, s.anomaly.maxDrift);
    }
  }

  lemma LaterMeeting(s: AnomalyState, anomaly: Anomaly, first: Call, call: Call)
    requires Remembers(s, anomaly, first)
    ensures var (after, v) := Affected(s, call.value, call.elapsed, call.roll);
      Remembers(after, anomaly, first) && Distorts(anomaly, first, call, v)
  {
    if anomaly.Drift? {
      OffsetIsDrifted(anomaly.ratePerSecond, anomaly.maxDrift, call.elapsed - first.elapsed);
    }
  }

  // --- Real-time anomalies ---

  lemma {:induction false} ReplayRemembers(anomaly: Anomaly, calls: seq<Call>)
    requires calls != []
    ensures Remembers(ReplayedState(Fresh(anomaly), calls), anomaly, calls[0])
    decreases |calls|
  {
    var init, last := calls[..|calls| - 1], calls[|calls| - 1];
    if init == [] {
      FirstMeeting(Fresh(anomaly), last);
    } else {
      ReplayRemembers(anomaly, init);
      LaterMeeting(ReplayedState(Fresh(anomaly), init), anomaly, calls[0], last);
    }
  }

  /**
   From its injection on, until it is replaced or removed and whatever happens
   elsewhere, an anomaly distorts each value of its register just as its kind says.
   */
  lemma RealtimeDistorts(
      i: Injections, events: seq<Event>, device: DeviceId, register: string, anomaly: Anomaly, call: Call)
    requires Undisturbed(events, device, register)
    ensures var after := Run(Injected(i, device, register, anomaly), events);
      Distorts(anomaly, (CallsOf(events, device, register) + [call])[0], call,
               Applied(after, device, register, call.value, call.elapsed, call.roll).1)
  {
    var calls := CallsOf(events, device, register);
    RealtimeFollowsCalls(i, events, device, register, anomaly);
    if calls == [] {
      FirstMeeting(Fresh(anomaly), call);
    } else {
      ReplayRemembers(anomaly, calls);
      LaterMeeting(ReplayedState(Fresh(anomaly), calls), anomaly, calls[0], call);
    }
  }

  // --- Scheduled anomalies ---

  lemma EnteredRemembers(anomaly: Anomaly, first: Call)
    ensures Remembers(Entered(anomaly, first), anomaly, first)
  {
  }

  /** The first entry in the list whose window covers the instant. */
  lemma {:induction false} CoveringIsFirst(schedules: seq<Step>, register: string, elapsed: real)
    ensures match Covering(schedules, register, elapsed)
      case Some(s) => exists n :: FirstCovering(schedules, register, elapsed, n) && schedules[n] == s
      case None => forall n :: 0 <= n < |schedules| ==> !CoversAt(schedules, register, elapsed, n)
  {
    if schedules != [] && !CoversAt(schedules, register, elapsed, 0) {
      var rest := schedules[1..];
      CoveringIsFirst(rest, register, elapsed);
      assert forall n :: 0 <= n < |rest| ==>
        (CoversAt(rest, register, elapsed, n) <==> CoversAt(schedules, register, elapsed, n + 1));
      if Covering(rest, register, elapsed).Some? {
        var n :| FirstCovering(rest, register, elapsed, n) && Covering(rest, register, elapsed) == Some(rest[n]);
        forall m | 0 <= m < n + 1
          ensures !CoversAt(schedules, register, elapsed, m)
        {
          assert m > 0 ==> !CoversAt(rest, register, elapsed, m - 1);
        }
        assert FirstCovering(schedules, register, elapsed, n + 1);
      } else {
        forall m | 0 <= m < |schedules|
          ensures !CoversAt(schedules, register, elapsed, m)
        {
          assert m > 0 ==> !CoversAt(rest, register, elapsed, m - 1);
        }
      }
    } else if schedules != [] {
      assert FirstCovering(schedules, register, elapsed, 0);
    }
  }

  predicate CoversAt(schedules: seq<Step>, register: string, elapsed: real, n: int) {
    && 0 <= n < |schedules| && schedules[n].register == register
    && schedules[n].trigger as real <= elapsed < (schedules[n].trigger + schedules[n].duration) as real
  }

  ghost predicate FirstCovering(schedules: seq<Step>, register: string, elapsed: real, n: int) {
    CoversAt(schedules, register, elapsed, n) && forall m :: 0 <= m < n ==> !CoversAt(schedules, register, elapsed, m)
  }

  /**
   From loading on, and while nobody sets a real-time anomaly on the register or
   clears or reloads its device: outside every window a value stays what it is, and
   inside it is distorted as the entry that covered the first call of the unbroken run says.
   */
  lemma ScheduleDistorts(
      i: Injections, device: DeviceId, register: string, entries: seq<Step>, events: seq<Event>, call: Call)
    requires register !in Of(i.active, device)
    requires NoRealtime(events, device, register)
    ensures var calls := CallsOf(events, device, register) + [call];
      var n := |calls| - 1;
      var after := Run(Loaded(i, device, entries), events);
      var v := Applied(after, device, register, call.value, call.elapsed, call.roll).1;
      if Covered(entries, register, call.elapsed) then
        var first := calls[RunStart(entries, register, calls, n)];
        Distorts(Covering(entries, register, first.elapsed).value.anomaly, first, call, v)
      else v == call.value
  {
    var calls := CallsOf(events, device, register) + [call];
    var n := |calls| - 1;
    ScheduleAppliedExactly(i, device, register, entries, events, call);
    if Covered(entries, register, call.elapsed) {
      var first := calls[RunStart(entries, register, calls, n)];
      var anomaly := Covering(entries, register, first.elapsed).value.anomaly;
      EnteredRemembers(anomaly, first);
      LaterMeeting(Entered(anomaly, first), anomaly, first, call);
    }
  }

  // --- What each event does to one register ---

  /** The real-time anomaly of a register, event by event. */
  lemma StepByRegister(i: Injections, e: Event, device: DeviceId, register: string)
    ensures var before, after := Get(Of(i.active, device), register), Get(Of(Stepped(i, e).active, device), register);
      match e
      case Inject(d, r, anomaly) =>
        after == if d == device && r == register then Some(AnomalyState(anomaly, None, None)) else before
      case Remove(d, r) => after == if d == device && r == register then None else before
      case ClearRealtime(d) => after == if d == device then None else before
      case ClearDevice(d) => after == if d == device then None else before
      case Load(_, _) => after == before
      case Apply(d, r, _) =>
        if d == device && r == register && before.Some? then after.Some? && after.value.anomaly == before.value.anomaly
        else after == before
  {
  }

  /** The schedules of a device, event by event. */
  lemma SchedulesByDevice(i: Injections, e: Event, device: DeviceId)
    ensures Get(Stepped(i, e).schedules, device) ==
      if e.Load? && e.device == device then Some(e.entries)
      else if e == ClearDevice(device) then None
      else Get(i.schedules, device)
  {
  }

  /** The scheduled state of a register: its own calls aside, only loading and clearing its device change it. */
  lemma SlotByRegister(i: Injections, e: Event, device: DeviceId, register: string)
    requires CallOn(e, device, register) ==> register in Of(i.active, device)
    ensures Slot(Stepped(i, e), device, register) ==
      if (e.Load? && e.device == device) || e == ClearDevice(device) then None else Slot(i, device, register)
  {
  }
}
