/**
 Scheduled anomalies over whole histories. A register's scheduled state is
 decided by the calls for that register alone: a call outside every window
 clears it, and the first call of an unbroken run of in-window calls fixes it for
 the rest of the run.
 */
module ScheduleHistory {
  import opened Prelude
  import opened ProtocolBase
  import opened Anomalies
  import opened AnomalyInjection

  datatype Call = Call(value: real, elapsed: real, roll: real)

  datatype Event =
    | Apply(device: DeviceId, register: string, call: Call)
    | Inject(device: DeviceId, register: string, anomaly: Anomaly)
    | Remove(device: DeviceId, register: string)
    | ClearRealtime(device: DeviceId)
    | ClearDevice(device: DeviceId)
    | Load(device: DeviceId, entries: seq<Step>)

  function Stepped(i: Injections, e: Event): Injections {
    match e
    case Apply(device, register, call) => Applied(i, device, register, call.value, call.elapsed, call.roll).0
    case Inject(device, register, anomaly) => Injected(i, device, register, anomaly)
    case Remove(device, register) => Removed(i, device, register)
    case ClearRealtime(device) => RealtimeCleared(i, device)
    case ClearDevice(device) => DeviceCleared(i, device)
    case Load(device, entries) => Loaded(i, device, entries)
  }

  function Run(i: Injections, events: seq<Event>): Injections {
    if events == [] then i else Stepped(Run(i, events[..|events| - 1]), events[|events| - 1])
  }

  /** Sets no real-time anomaly on the register, and neither clears nor reloads its device. */
  predicate LeavesSchedules(e: Event, device: DeviceId, register: string) {
    match e
    case Inject(d, r, _) => d != device || r != register
    case ClearDevice(d) => d != device
    case Load(d, _) => d != device
    case Apply(_, _, _) | Remove(_, _) | ClearRealtime(_) => true
  }

  ghost predicate NoRealtime(events: seq<Event>, device: DeviceId, register: string) {
    forall e <- events :: LeavesSchedules(e, device, register)
  }

  predicate CallOn(e: Event, device: DeviceId, register: string) {
    e.Apply? && e.device == device && e.register == register
  }

  /** The calls for one register, in order. */
  function CallsOf(events: seq<Event>, device: DeviceId, register: string): seq<Call> {
    if events == [] then []
    else
      var last := events[|events| - 1];
      CallsOf(events[..|events| - 1], device, register) + if CallOn(last, device, register) then [last.call] else []
  }

  function Slot(i: Injections, device: DeviceId, register: string): Option<AnomalyState> {
    Get(Of(i.scheduled, device), register)
  }

  // --- What one run of calls leaves behind ---

  predicate Covered(schedules: seq<Step>, register: string, elapsed: real) {
    Covering(schedules, register, elapsed).Some?
  }

  lemma {:induction false} CoveringCovers(schedules: seq<Step>, register: string, elapsed: real)
    ensures match Covering(schedules, register, elapsed)
      case Some(s) => s in schedules && s.register == register && s.Covers(elapsed)
      case None => forall s <- schedules :: s.register == register ==> !s.Covers(elapsed)
  {
    if schedules != [] {
      CoveringCovers(schedules[1..], register, elapsed);
    }
  }

  /** The first call of the unbroken run of in-window calls that call n belongs to. */
  function RunStart(schedules: seq<Step>, register: string, calls: seq<Call>, n: nat): (j: nat)
    requires n < |calls| && Covered(schedules, register, calls[n].elapsed)
    ensures j <= n
    ensures forall k :: j <= k <= n ==> Covered(schedules, register, calls[k].elapsed)
    ensures j > 0 ==> !Covered(schedules, register, calls[j - 1].elapsed)
  {
    if n > 0 && Covered(schedules, register, calls[n - 1].elapsed)
    then RunStart(schedules, register, calls, n - 1) else n
  }

  /** The state an anomaly is in from the first call of its run on. */
  function Entered(anomaly: Anomaly, first: Call): AnomalyState {
    AnomalyState(anomaly, Some(first.elapsed), if anomaly == Flatline(None) then Some(first.value) else None)
  }

  lemma EnteredStays(anomaly: Anomaly, first: Call, call: Call)
    ensures Affected(Entered(anomaly, first), call.value, call.elapsed, call.roll).0 == Entered(anomaly, first)
    ensures Affected(AnomalyState(anomaly, Some(first.elapsed), None), first.value, first.elapsed, first.roll).0
         == Entered(anomaly, first)
    ensures Affected(AnomalyState(anomaly, Some(first.elapsed), None), first.value, first.elapsed, first.roll).1
         == Affected(Entered(anomaly, first), first.value, first.elapsed, first.roll).1
  {
  }

  /** The scheduled state of a register after its n-th call. */
  function StateAfter(schedules: seq<Step>, register: string, calls: seq<Call>, n: nat): Option<AnomalyState>
    requires n < |calls|
  {
    if !Covered(schedules, register, calls[n].elapsed) then None
    else
      var first := calls[RunStart(schedules, register, calls, n)];
      Some(Entered(Covering(schedules, register, first.elapsed).value.anomaly, first))
  }

  /** The value the n-th call returns. */
  function ValueAfter(schedules: seq<Step>, register: string, calls: seq<Call>, n: nat): real
    requires n < |calls|
  {
    match StateAfter(schedules, register, calls, n)
    case None => calls[n].value
    case Some(s) => Affected(s, calls[n].value, calls[n].elapsed, calls[n].roll).1
  }

  function LastState(schedules: seq<Step>, register: string, calls: seq<Call>): Option<AnomalyState> {
    if calls == [] then None else StateAfter(schedules, register, calls, |calls| - 1)
  }

  lemma {:induction false} RunStartPrefix(
      schedules: seq<Step>, register: string, calls: seq<Call>, more: seq<Call>, n: nat)
    requires n < |calls| && Covered(schedules, register, calls[n].elapsed)
    ensures RunStart(schedules, register, calls + more, n) == RunStart(schedules, register, calls, n)
  {
    if n > 0 && Covered(schedules, register, calls[n - 1].elapsed) {
      RunStartPrefix(schedules, register, calls, more, n - 1);
    }
  }

  /** One more call: the run continues, starts or ends. */
  lemma StateStep(schedules: seq<Step>, register: string, calls: seq<Call>, call: Call)
    ensures var before := LastState(schedules, register, calls);
      StateAfter(schedules, register, calls + [call], |calls|) ==
        match Covering(schedules, register, call.elapsed)
        case None => None
        case Some(step) => if before.Some? then before else Some(Entered(step.anomaly, call))
  {
    var all := calls + [call];
    if calls != [] {
      assert all[|calls| - 1] == calls[|calls| - 1];
      if Covered(schedules, register, calls[|calls| - 1].elapsed) {
        RunStartPrefix(schedules, register, calls, [call], |calls| - 1);
      }
    }
  }

  /** A call for the register, when it has no real-time anomaly. */
  lemma CallStep(i: Injections, device: DeviceId, register: string, call: Call, calls: seq<Call>)
    requires register !in Of(i.active, device)
    requires device in i.schedules
    requires Slot(i, device, register) == LastState(i.schedules[device], register, calls)
    ensures var (after, v) := Applied(i, device, register, call.value, call.elapsed, call.roll);
      && Slot(after, device, register) == LastState(i.schedules[device], register, calls + [call])
      && v == ValueAfter(i.schedules[device], register, calls + [call], |calls|)
      && after.active == i.active && after.schedules == i.schedules
  {
    var schedules := i.schedules[device];
    StateStep(schedules, register, calls, call);
    assert (calls + [call])[|calls|] == call;
    match Covering(schedules, register, call.elapsed)
    case None =>
    case Some(step) =>
      match LastState(schedules, register, calls)
      case None => EnteredStays(step.anomaly, call, call);
      case Some(s) =>
        var first := calls[RunStart(schedules, register, calls, |calls| - 1)];
        EnteredStays(s.anomaly, first, call);
  }

  /** Anything else leaves the register's slot, and its lack of real-time anomalies, alone. */
  lemma OtherStep(i: Injections, e: Event, device: DeviceId, register: string)
    requires register !in Of(i.active, device) && device in i.schedules
    requires !CallOn(e, device, register)
    requires LeavesSchedules(e, device, register)
    ensures Slot(Stepped(i, e), device, register) == Slot(i, device, register)
    ensures register !in Of(Stepped(i, e).active, device)
    ensures Get(Stepped(i, e).schedules, device) == Get(i.schedules, device)
  {
  }

  /**
   After any history in which nobody injects on the register or clears or reloads
   its device: its scheduled state, and the value of its next call, are those of its
   own calls.
   */
  lemma {:induction false} SlotFollowsCalls(i: Injections, events: seq<Event>, device: DeviceId, register: string)
    requires register !in Of(i.active, device) && device in i.schedules
    requires Slot(i, device, register).None?
    requires NoRealtime(events, device, register)
    ensures var after, calls := Run(i, events), CallsOf(events, device, register);
      && Slot(after, device, register) == LastState(i.schedules[device], register, calls)
      && register !in Of(after.active, device) && Get(after.schedules, device) == Get(i.schedules, device)
  {
    if events != [] {
      var n := |events| - 1;
      var e := events[n];
      assert e in events && forall x <- events[..n] :: x in events;
      SlotFollowsCalls(i, events[..n], device, register);
      if CallOn(e, device, register) {
        CallStep(Run(i, events[..n]), device, register, e.call, CallsOf(events[..n], device, register));
      } else {
        assert CallsOf(events, device, register) == CallsOf(events[..n], device, register);
        OtherStep(Run(i, events[..n]), e, device, register);
      }
    }
  }

  lemma StateExistsExactly(schedules: seq<Step>, register: string, calls: seq<Call>, n: nat)
    requires n < |calls|
    ensures StateAfter(schedules, register, calls, n).Some?
       <==> exists s :: s in schedules && s.register == register && s.Covers(calls[n].elapsed)
  {
    CoveringCovers(schedules, register, calls[n].elapsed);
  }

  /** One more call after such a history. */
  lemma NextCallFollows(
      i: Injections, events: seq<Event>, device: DeviceId, register: string, call: Call, schedules: seq<Step>)
    requires register !in Of(i.active, device) && Get(i.schedules, device) == Some(schedules)
    requires Slot(i, device, register).None?
    requires NoRealtime(events, device, register)
    ensures var calls := CallsOf(events, device, register);
      var (after, v) := Applied(Run(i, events), device, register, call.value, call.elapsed, call.roll);
      && Slot(after, device, register) == StateAfter(schedules, register, calls + [call], |calls|)
      && v == ValueAfter(schedules, register, calls + [call], |calls|)
  {
    SlotFollowsCalls(i, events, device, register);
    CallStep(Run(i, events), device, register, call, CallsOf(events, device, register));
  }

  /**
   From freshly loaded schedules on: a schedule is applied exactly when a window
   covers the call, and it is the one that covered the first call of the
   unbroken run of in-window calls.
   */
  lemma ScheduleAppliedExactly(
      i: Injections, device: DeviceId, register: string, entries: seq<Step>, events: seq<Event>, call: Call)
    requires register !in Of(i.active, device)
    requires NoRealtime(events, device, register)
    ensures var loaded := Loaded(i, device, entries);
      var calls := CallsOf(events, device, register) + [call];
      var n := |calls| - 1;
      var (after, v) := Applied(Run(loaded, events), device, register, call.value, call.elapsed, call.roll);
      && (Slot(after, device, register).Some?
          <==> exists s :: s in entries && s.register == register && s.Covers(call.elapsed))
      && Slot(after, device, register) == StateAfter(entries, register, calls, n)
      && v == ValueAfter(entries, register, calls, n)
  {
    var calls := CallsOf(events, device, register) + [call];
    NextCallFollows(Loaded(i, device, entries), events, device, register, call, entries);
    StateExistsExactly(entries, register, calls, |calls| - 1);
  }

  // --- When the applied schedule is the covering one ---

  /** The applied anomaly is the one whose window covers the call. */
  ghost predicate AppliesCovering(schedules: seq<Step>, register: string, calls: seq<Call>, n: nat)
    requires n < |calls|
  {
    Covered(schedules, register, calls[n].elapsed) ==>
      StateAfter(schedules, register, calls, n).value.anomaly
        == Covering(schedules, register, calls[n].elapsed).value.anomaly
  }

  /** Two consecutive calls never fall into windows of different anomalies. */
  ghost predicate NoHandover(schedules: seq<Step>, register: string, calls: seq<Call>) {
    forall n :: 0 < n < |calls| ==> SameWindow(schedules, register, calls, n)
  }

  ghost predicate SameWindow(schedules: seq<Step>, register: string, calls: seq<Call>, n: int)
    requires 0 < n < |calls|
  {
    && Covered(schedules, register, calls[n - 1].elapsed)
    && Covered(schedules, register, calls[n].elapsed)
    ==> Covering(schedules, register, calls[n - 1].elapsed).value.anomaly
        == Covering(schedules, register, calls[n].elapsed).value.anomaly
  }

  lemma {:induction false} NoHandoverApplies(schedules: seq<Step>, register: string, calls: seq<Call>, n: nat)
    requires n < |calls| && NoHandover(schedules, register, calls)
    ensures AppliesCovering(schedules, register, calls, n)
  {
    if n > 0 {
      NoHandoverApplies(schedules, register, calls, n - 1);
      assert SameWindow(schedules, register, calls, n);
    }
  }

  /**
   Exactly when every call gets the anomaly of the window it falls into: no two
   consecutive calls fall into windows of different anomalies.
   */
  lemma CoveringAppliedExactly(schedules: seq<Step>, register: string, calls: seq<Call>)
    ensures (forall n :: 0 <= n < |calls| ==> AppliesCovering(schedules, register, calls, n))
       <==> NoHandover(schedules, register, calls)
  {
    if NoHandover(schedules, register, calls) {
      forall n | 0 <= n < |calls|
        ensures AppliesCovering(schedules, register, calls, n)
      {
        NoHandoverApplies(schedules, register, calls, n);
      }
    }
    if forall n :: 0 <= n < |calls| ==> AppliesCovering(schedules, register, calls, n) {
      forall n | 0 < n < |calls|
        ensures SameWindow(schedules, register, calls, n)
      {
        assert AppliesCovering(schedules, register, calls, n - 1);
        assert AppliesCovering(schedules, register, calls, n);
      }
    }
  }

  /**
   Two adjoining windows the validator accepts, and a call in each: the second call
   still gets the first window's anomaly.
   */
  lemma HandoverKeepsFirst(register: string, first: Step, second: Step, early: Call, late: Call)
    requires first == Step(register, OutOfRange(1.0), 0, 10) && second == Step(register, OutOfRange(2.0), 10, 10)
    requires early.elapsed == 9.0 && late.elapsed == 10.0
    ensures AllValid([first, second]) && Acceptable([first, second], {register})
    ensures Covering([first, second], register, late.elapsed) == Some(second)
    ensures ValueAfter([first, second], register, [early, late], 1) == 1.0
  {
    assert [first, second][1..] == [second];
  }

  /** The first of the consecutive calls up to call n that fall into call n's own window. */
  function WindowStart(schedules: seq<Step>, register: string, calls: seq<Call>, n: nat): (j: nat)
    requires n < |calls|
    ensures j <= n
    ensures Covering(schedules, register, calls[j].elapsed) == Covering(schedules, register, calls[n].elapsed)
  {
    if n > 0
      && Covering(schedules, register, calls[n - 1].elapsed) == Covering(schedules, register, calls[n].elapsed)
    then WindowStart(schedules, register, calls, n - 1) else n
  }

  /** The state a call would find if its own window's schedule started when the window was first met. */
  function OwnState(schedules: seq<Step>, register: string, calls: seq<Call>, n: nat): Option<AnomalyState>
    requires n < |calls|
  {
    match Covering(schedules, register, calls[n].elapsed)
    case None => None
    case Some(step) => Some(Entered(step.anomaly, calls[WindowStart(schedules, register, calls, n)]))
  }

  /** The applied state, activation time and frozen value included, is the one entered in the call's own window. */
  ghost predicate AppliesOwn(schedules: seq<Step>, register: string, calls: seq<Call>, n: nat)
    requires n < |calls|
  {
    StateAfter(schedules, register, calls, n) == OwnState(schedules, register, calls, n)
  }

  /** Two consecutive calls fall into two different windows. */
  predicate Switches(schedules: seq<Step>, register: string, calls: seq<Call>, n: int)
    requires 0 < n < |calls|
  {
    && Covered(schedules, register, calls[n - 1].elapsed)
    && Covered(schedules, register, calls[n].elapsed)
    && Covering(schedules, register, calls[n - 1].elapsed) != Covering(schedules, register, calls[n].elapsed)
  }

  ghost predicate NoSwitch(schedules: seq<Step>, register: string, calls: seq<Call>) {
    forall n :: 0 < n < |calls| ==> !Switches(schedules, register, calls, n)
  }

  lemma {:induction false} OneWindowIsOneRun(schedules: seq<Step>, register: string, calls: seq<Call>, n: nat)
    requires n < |calls| && NoSwitch(schedules, register, calls)
    requires Covered(schedules, register, calls[n].elapsed)
    ensures WindowStart(schedules, register, calls, n) == RunStart(schedules, register, calls, n)
  {
    if n > 0 && Covered(schedules, register, calls[n - 1].elapsed) {
      assert !Switches(schedules, register, calls, n);
      OneWindowIsOneRun(schedules, register, calls, n - 1);
    }
  }

  /** Where two consecutive calls switch windows, one of them finds a state not entered in its own. */
  lemma SwitchIsSeen(schedules: seq<Step>, register: string, calls: seq<Call>, n: nat)
    requires 0 < n < |calls| && Switches(schedules, register, calls, n)
    ensures !AppliesOwn(schedules, register, calls, n - 1) || !AppliesOwn(schedules, register, calls, n)
  {
    var k := WindowStart(schedules, register, calls, n - 1);
    assert StateAfter(schedules, register, calls, n) == StateAfter(schedules, register, calls, n - 1);
    assert OwnState(schedules, register, calls, n).value.activatedAt == Some(calls[n].elapsed);
    assert OwnState(schedules, register, calls, n - 1).value.activatedAt == Some(calls[k].elapsed);
    assert calls[k].elapsed != calls[n].elapsed;
  }

  /**
   Exactly when every call finds the state entered in its own window, activation time
   and frozen value included: no two consecutive calls fall into different windows.
   */
  lemma OwnWindowExactly(schedules: seq<Step>, register: string, calls: seq<Call>)
    ensures (forall n :: 0 <= n < |calls| ==> AppliesOwn(schedules, register, calls, n))
       <==> NoSwitch(schedules, register, calls)
  {
    if NoSwitch(schedules, register, calls) {
      forall n: nat | n < |calls|
        ensures AppliesOwn(schedules, register, calls, n)
      {
        if Covered(schedules, register, calls[n].elapsed) {
          OneWindowIsOneRun(schedules, register, calls, n);
        }
      }
    }
    if forall n :: 0 <= n < |calls| ==> AppliesOwn(schedules, register, calls, n) {
      forall n | 0 < n < |calls|
        ensures !Switches(schedules, register, calls, n)
      {
        assert AppliesOwn(schedules, register, calls, n - 1) && AppliesOwn(schedules, register, calls, n);
        if Switches(schedules, register, calls, n) {
          SwitchIsSeen(schedules, register, calls, n);
        }
      }
    }
  }

  /**
   Two adjoining windows of one drift, and a call in each: the anomaly is the right
   one, but the second window goes on from where the first one started.
   */
  lemma AdjoiningDriftGoesOn(register: string, first: Step, second: Step, early: Call, late: Call)
    requires first == Step(register, Drift(1.0, 100.0), 0, 10) && second == Step(register, Drift(1.0, 100.0), 10, 10)
    requires early.elapsed == 4.0 && late.elapsed == 10.0
    ensures AllValid([first, second]) && Acceptable([first, second], {register})
    ensures NoHandover([first, second], register, [early, late])
    ensures !AppliesOwn([first, second], register, [early, late], 1)
    ensures ValueAfter([first, second], register, [early, late], 1) == late.value + 6.0
  {
    assert [first, second][1..] == [second];
    assert Covering([first, second], register, early.elapsed) == Some(first);
    assert Covering([first, second], register, late.elapsed) == Some(second);
  }

  /** Calls that are never further apart than the gaps between windows hit every gap. */
  lemma GapsAreHit(schedules: seq<Step>, register: string, calls: seq<Call>, spacing: real)
    requires forall n :: 0 < n < |calls| ==>
      calls[n - 1].elapsed <= calls[n].elapsed <= calls[n - 1].elapsed + spacing
    requires forall a, b :: a in schedules && b in schedules && a != b && a.register == b.register == register ==>
      a.End() as real + spacing <= b.trigger as real || b.End() as real + spacing <= a.trigger as real
    requires AllValid(schedules)
    ensures NoSwitch(schedules, register, calls) && NoHandover(schedules, register, calls)
  {
    forall n | 0 < n < |calls|
      ensures !Switches(schedules, register, calls, n) && SameWindow(schedules, register, calls, n)
    {
      CoveringCovers(schedules, register, calls[n - 1].elapsed);
      CoveringCovers(schedules, register, calls[n].elapsed);
    }
  }

  // --- Drift ---

  /** How two offsets of one drift relate, the later one second. */
  ghost predicate DriftShape(rate: real, maxDrift: real, early: real, late: real) {
    && Abs(early) <= Abs(late) <= maxDrift
    && (rate >= 0.0 ==> early >= 0.0) && (rate <= 0.0 ==> early <= 0.0)
    && (Abs(early) == maxDrift ==> late == early)
  }

  lemma CappedShape(rate: real, maxDrift: real, d1: real, d2: real)
    requires maxDrift > 0.0
    requires rate >= 0.0 ==> 0.0 <= d1 <= d2
    requires rate <= 0.0 ==> d2 <= d1 <= 0.0
    ensures DriftShape(rate, maxDrift, Capped(rate, maxDrift, d1), Capped(rate, maxDrift, d2))
  {
  }

  lemma DriftGrowsToCap(rate: real, maxDrift: real, s1: real, s2: real)
    requires maxDrift > 0.0 && 0.0 <= s1 <= s2
    ensures DriftShape(rate, maxDrift, DriftOffset(rate, maxDrift, s1), DriftOffset(rate, maxDrift, s2))
  {
    Scale(rate, s1, s2);
    CappedShape(rate, maxDrift, rate * s1, rate * s2);
  }

  lemma Scale(rate: real, s1: real, s2: real)
    requires 0.0 <= s1 <= s2
    ensures rate >= 0.0 ==> 0.0 <= rate * s1 <= rate * s2
    ensures rate <= 0.0 ==> rate * s2 <= rate * s1 <= 0.0
  {
    var d := s2 - s1;
    assert rate * s2 == rate * s1 + rate * d;
  }

  /** What repeated application of one anomaly state returns, call by call. */
  function Replayed(s: AnomalyState, calls: seq<Call>): (values: seq<real>)
    ensures |values| == |calls|
    decreases |calls|
  {
    if calls == [] then []
    else
      var (s', v) := Affected(s, calls[0].value, calls[0].elapsed, calls[0].roll);
      [v] + Replayed(s', calls[1..])
  }

  ghost predicate Chronological(calls: seq<Call>) {
    forall i, j :: 0 <= i < j < |calls| ==> calls[i].elapsed <= calls[j].elapsed
  }

  lemma {:induction false} ReplayedDrift(s: AnomalyState, calls: seq<Call>, n: nat)
    requires s.anomaly.Drift? && n < |calls|
    ensures var start := if s.activatedAt.Some? then s.activatedAt.value else calls[0].elapsed;
      Replayed(s, calls)[n] == calls[n].value
        + DriftOffset(s.anomaly.ratePerSecond, s.anomaly.maxDrift, calls[n].elapsed - start)
    decreases |calls|
  {
    var s' := Affected(s, calls[0].value, calls[0].elapsed, calls[0].roll).0;
    if |calls| > 1 {
      ReplayedDrift(s', calls[1..], if n == 0 then 0 else n - 1);
    }
  }

  /**
   A drift that has not met a value yet, over any chronological run of calls: it
   starts at no offset, keeps its direction, never shrinks, never passes its cap,
   and stays at the cap once there.
   */
  lemma DriftRun(s: AnomalyState, calls: seq<Call>, i: nat, j: nat)
    requires s.anomaly.Drift? && s.anomaly.maxDrift > 0.0 && s.activatedAt.None?
    requires Chronological(calls) && i <= j < |calls|
    ensures var out := Replayed(s, calls);
      && out[0] - calls[0].value == 0.0
      && DriftShape(s.anomaly.ratePerSecond, s.anomaly.maxDrift, out[i] - calls[i].value, out[j] - calls[j].value)
  {
    OffsetAtStart(s, calls);
    var early := OffsetAt(s, calls, i);
    var late := OffsetAt(s, calls, j);
    OffsetsGrow(s, calls, i, j);
  }

  /** What the n-th call is off by. */
  lemma OffsetAt(s: AnomalyState, calls: seq<Call>, n: nat) returns (offset: real)
    requires s.anomaly.Drift? && s.activatedAt.None? && n < |calls|
    ensures offset == OffsetOf(s, calls, n) && Replayed(s, calls)[n] - calls[n].value == offset
  {
    ReplayedDrift(s, calls, n);
    offset := OffsetOf(s, calls, n);
  }

  function OffsetOf(s: AnomalyState, calls: seq<Call>, n: nat): real
    requires s.anomaly.Drift? && n < |calls|
  {
    DriftOffset(s.anomaly.ratePerSecond, s.anomaly.maxDrift, calls[n].elapsed - calls[0].elapsed)
  }

  lemma OffsetAtStart(s: AnomalyState, calls: seq<Call>)
    requires s.anomaly.Drift? && s.activatedAt.None? && calls != []
    ensures Replayed(s, calls)[0] - calls[0].value == 0.0
  {
    ReplayedDrift(s, calls, 0);
    NoDriftAtStart(s.anomaly.ratePerSecond, s.anomaly.maxDrift);
  }

  lemma OffsetsGrow(s: AnomalyState, calls: seq<Call>, i: nat, j: nat)
    requires s.anomaly.Drift? && s.anomaly.maxDrift > 0.0 && Chronological(calls) && i <= j < |calls|
    ensures DriftShape(s.anomaly.ratePerSecond, s.anomaly.maxDrift, OffsetOf(s, calls, i), OffsetOf(s, calls, j))
  {
    assert calls[0].elapsed <= calls[i].elapsed <= calls[j].elapsed;
    DriftGrowsToCap(s.anomaly.ratePerSecond, s.anomaly.maxDrift,
                    calls[i].elapsed - calls[0].elapsed, calls[j].elapsed - calls[0].elapsed);
  }

  lemma NoDriftAtStart(rate: real, maxDrift: real)
    ensures DriftOffset(rate, maxDrift, 0.0) == 0.0
  {
    assert rate * 0.0 == 0.0;
  }

  // --- Real-time anomalies over histories ---

  /** The state an anomaly is in after a run of calls. */
  function ReplayedState(s: AnomalyState, calls: seq<Call>): AnomalyState {
    if calls == [] then s
    else
      var last := calls[|calls| - 1];
      Affected(ReplayedState(s, calls[..|calls| - 1]), last.value, last.elapsed, last.roll).0
  }

  lemma {:induction false} ReplayedLast(s: AnomalyState, calls: seq<Call>, call: Call)
    ensures Replayed(s, calls + [call])[|calls|]
         == Affected(ReplayedState(s, calls), call.value, call.elapsed, call.roll).1
    decreases |calls|
  {
    if calls != [] {
      var s' := Affected(s, calls[0].value, calls[0].elapsed, calls[0].roll).0;
      assert (calls + [call])[1..] == calls[1..] + [call];
      ReplayedLast(s', calls[1..], call);
      ReplayedStateCons(s, calls);
    }
  }

  lemma {:induction false} ReplayedStateCons(s: AnomalyState, calls: seq<Call>)
    requires calls != []
    ensures ReplayedState(s, calls)
         == ReplayedState(Affected(s, calls[0].value, calls[0].elapsed, calls[0].roll).0, calls[1..])
    decreases |calls|
  {
    var n := |calls| - 1;
    if n > 0 {
      ReplayedStateCons(s, calls[..n]);
      assert calls[..n][1..] == calls[1..][..n - 1];
      assert calls[1..][n - 1] == calls[n];
    }
  }

  /** Nobody replaces or removes the register's real-time anomaly. */
  ghost predicate Undisturbed(events: seq<Event>, device: DeviceId, register: string) {
    forall e <- events :: LeavesRealtime(e, device, register)
  }

  predicate LeavesRealtime(e: Event, device: DeviceId, register: string) {
    match e
    case Inject(d, r, _) => d != device || r != register
    case Remove(d, r) => d != device || r != register
    case ClearRealtime(d) => d != device
    case ClearDevice(d) => d != device
    case Apply(_, _, _) | Load(_, _) => true
  }

  lemma OtherRealtimeStep(i: Injections, e: Event, device: DeviceId, register: string)
    requires !CallOn(e, device, register)
    requires LeavesRealtime(e, device, register)
    ensures Get(Of(Stepped(i, e).active, device), register) == Get(Of(i.active, device), register)
  {
  }

  lemma {:induction false} RealtimeFollowsCalls(
      i: Injections, events: seq<Event>, device: DeviceId, register: string, anomaly: Anomaly)
    requires Undisturbed(events, device, register)
    ensures Get(Of(Run(Injected(i, device, register, anomaly), events).active, device), register)
         == Some(ReplayedState(Fresh(anomaly), CallsOf(events, device, register)))
  {
    if events != [] {
      var n := |events| - 1;
      assert events[n] in events && forall x <- events[..n] :: x in events;
      RealtimeFollowsCalls(i, events[..n], device, register, anomaly);
      if CallOn(events[n], device, register) {
        var calls := CallsOf(events[..n], device, register);
        assert (calls + [events[n].call])[..|calls|] == calls;
      } else {
        assert CallsOf(events, device, register) == CallsOf(events[..n], device, register);
        OtherRealtimeStep(Run(Injected(i, device, register, anomaly), events[..n]), events[n], device, register);
      }
    }
  }

  /** What a call returns under a real-time anomaly: the replay of the calls since its injection. */
  lemma RealtimeValue(
      i: Injections, events: seq<Event>, device: DeviceId, register: string, anomaly: Anomaly, call: Call)
    requires Undisturbed(events, device, register)
    ensures var calls := CallsOf(events, device, register);
      Applied(Run(Injected(i, device, register, anomaly), events), device, register,
        call.value, call.elapsed, call.roll).1
      == Replayed(Fresh(anomaly), calls + [call])[|calls|]
  {
    RealtimeFollowsCalls(i, events, device, register, anomaly);
    ReplayedLast(Fresh(anomaly), CallsOf(events, device, register), call);
  }
}
