/** The fault overlay over whole histories: a cleared fault leaves no trace. */
module OpcUaHistory {
  import opened Prelude
  import opened Registers
  import opened ProtocolBase
  import opened OpcUaAgent

  datatype Event =
    | Start
    | Stop
    | Add(device: DeviceId, registers: seq<Register>, faultSet: bool)
    | Remove(device: DeviceId)
    | Push(key: Key, value: PyFloat, dataType: DataType)
    | ApplyFault(device: DeviceId)
    | RemoveFault(device: DeviceId)

  function Stepped(a: Agent, e: Event): Agent {
    match e
    case Start => a.(running := true)
    case Stop => STOPPED
    case Add(d, registers, faultSet) => Added(a, d, registers, faultSet)
    case Remove(d) => Removed(a, d)
    case Push(k, x, dataType) => Pushed(a, k, x, dataType)
    case ApplyFault(d) => FaultApplied(a, d)
    case RemoveFault(d) => FaultRemoved(a, d)
  }

  function Run(events: seq<Event>): Agent {
    if events == [] then STOPPED else Stepped(Run(events[..|events| - 1]), events[|events| - 1])
  }

  /** The same history in a world without faults. */
  function Faultless(e: Event): Option<Event> {
    match e
    case Add(d, registers, _) => Some(Add(d, registers, false))
    case ApplyFault(_) | RemoveFault(_) => None
    case _ => Some(e)
  }

  function RunFaultless(events: seq<Event>): Agent {
    if events == [] then STOPPED
    else
      var before := RunFaultless(events[..|events| - 1]);
      match Faultless(events[|events| - 1])
      case None => before
      case Some(e) => Stepped(before, e)
  }

  // --- The cache and the nodes ---

  /** Nodes and cache have the same keys, and a device without a fault shows its cache. */
  ghost predicate Synchronized(a: Agent) {
    && a.nodes.Keys == a.lastValues.Keys
    && forall k <- a.nodes :: k.0 !in a.faulted ==> a.nodes[k] == Restored(a, k)
  }

  /** Every cached value lies in the writable range of its type. */
  ghost predicate CacheWritable(a: Agent) {
    forall k <- a.lastValues :: Writable(a.lastValues[k].value, a.lastValues[k].variant)
  }

  lemma {:induction false} NodesAddedKeeps(a: Agent, d: DeviceId, registers: seq<Register>)
    requires Synchronized(a) && CacheWritable(a)
    ensures Synchronized(NodesAdded(a, d, registers)) && CacheWritable(NodesAdded(a, d, registers))
  {
    if registers != [] {
      NodesAddedKeeps(a, d, registers[..|registers| - 1]);
    }
  }

  lemma FaultAppliedKeeps(a: Agent, d: DeviceId)
    requires Synchronized(a) && CacheWritable(a)
    ensures Synchronized(FaultApplied(a, d)) && CacheWritable(FaultApplied(a, d))
  {
  }

  lemma FaultRemovedKeeps(a: Agent, d: DeviceId)
    requires Synchronized(a) && CacheWritable(a)
    ensures Synchronized(FaultRemoved(a, d)) && CacheWritable(FaultRemoved(a, d))
  {
  }

  lemma RemovedKeeps(a: Agent, d: DeviceId)
    requires Synchronized(a) && CacheWritable(a)
    ensures Synchronized(Removed(a, d)) && CacheWritable(Removed(a, d))
  {
    var after := Removed(a, d);
    forall k
      ensures k in after.nodes <==> k in after.lastValues
      ensures k in after.nodes ==> k in a.nodes && after.nodes[k] == a.nodes[k]
      ensures k in after.nodes ==> Restored(after, k) == Restored(a, k)
    {
    }
  }

  lemma PushedKeeps(a: Agent, k: Key, x: PyFloat, dataType: DataType)
    requires Synchronized(a) && CacheWritable(a)
    ensures Synchronized(Pushed(a, k, x, dataType)) && CacheWritable(Pushed(a, k, x, dataType))
  {
    CoercedIsWritable(x, VariantOf(dataType));
  }

  lemma StepKeeps(a: Agent, e: Event)
    requires Synchronized(a) && CacheWritable(a)
    ensures Synchronized(Stepped(a, e)) && CacheWritable(Stepped(a, e))
  {
    match e
    case Start =>
    case Stop =>
    case Add(d, registers, faultSet) =>
      if a.running {
        var entered := a.(stats := a.stats[d := FRESH_STATS]);
        NodesAddedKeeps(entered, d, registers);
        FaultAppliedKeeps(NodesAdded(entered, d, registers), d);
      }
    case Remove(d) => RemovedKeeps(a, d);
    case Push(k, x, dataType) => PushedKeeps(a, k, x, dataType);
    case ApplyFault(d) => FaultAppliedKeeps(a, d);
    case RemoveFault(d) => FaultRemovedKeeps(a, d);
  }

  lemma {:induction false} HistoriesSynchronize(events: seq<Event>)
    ensures Synchronized(Run(events)) && CacheWritable(Run(events))
  {
    if events != [] {
      HistoriesSynchronize(events[..|events| - 1]);
      StepKeeps(Run(events[..|events| - 1]), events[|events| - 1]);
    }
  }

  // --- Transparency ---

  /** Faults and node values aside, two agents are the same. */
  ghost predicate SameCache(a: Agent, b: Agent) {
    a.running == b.running && a.lastValues == b.lastValues && a.stats == b.stats && a.nodes.Keys == b.nodes.Keys
  }

  lemma {:induction false} NodesAddedSame(a: Agent, b: Agent, d: DeviceId, registers: seq<Register>)
    requires SameCache(a, b)
    ensures SameCache(NodesAdded(a, d, registers), NodesAdded(b, d, registers))
  {
    if registers != [] {
      NodesAddedSame(a, b, d, registers[..|registers| - 1]);
    }
  }

  lemma RemovedSame(a: Agent, b: Agent, d: DeviceId)
    requires SameCache(a, b)
    ensures SameCache(Removed(a, d), Removed(b, d))
  {
    forall k
      ensures k in Removed(a, d).nodes <==> k in Removed(b, d).nodes
    {
      assert k in a.nodes <==> k in b.nodes;
    }
  }

  lemma FaultStepsSame(a: Agent, d: DeviceId)
    ensures SameCache(a, FaultApplied(a, d)) && SameCache(a, FaultRemoved(a, d))
  {
  }

  lemma FaultlessStepSame(a: Agent, b: Agent, e: Event)
    requires SameCache(a, b) && b.faulted == {}
    ensures match Faultless(e)
      case None => SameCache(Stepped(a, e), b)
      case Some(f) => SameCache(Stepped(a, e), Stepped(b, f)) && Stepped(b, f).faulted == {}
  {
    match e
    case Add(d, registers, faultSet) =>
      if a.running {
        NodesAddedSame(a.(stats := a.stats[d := FRESH_STATS]), b.(stats := b.stats[d := FRESH_STATS]), d, registers);
        FaultStepsSame(NodesAdded(a.(stats := a.stats[d := FRESH_STATS]), d, registers), d);
      }
    case Remove(d) => RemovedSame(a, b, d);
    case ApplyFault(d) => FaultStepsSame(a, d);
    case RemoveFault(d) => FaultStepsSame(a, d);
    case _ =>
  }

  lemma {:induction false} FaultlessRunSame(events: seq<Event>)
    ensures SameCache(Run(events), RunFaultless(events)) && RunFaultless(events).faulted == {}
  {
    if events != [] {
      var n := |events| - 1;
      FaultlessRunSame(events[..n]);
      FaultlessStepSame(Run(events[..n]), RunFaultless(events[..n]), events[n]);
    }
  }

  lemma {:induction false} FaultlessSynchronizes(events: seq<Event>)
    ensures Synchronized(RunFaultless(events)) && CacheWritable(RunFaultless(events))
  {
    if events != [] {
      FaultlessSynchronizes(events[..|events| - 1]);
      match Faultless(events[|events| - 1])
      case None =>
      case Some(f) => StepKeeps(RunFaultless(events[..|events| - 1]), f);
    }
  }

  /**
   After any history of adds, removes, pushes and faults: the nodes of a device
   that is not faulted now are what they would be had no fault ever happened.
   */
  lemma OverlayIsTransparent(events: seq<Event>, k: Key)
    requires k in Run(events).nodes && k.0 !in Run(events).faulted
    ensures k in RunFaultless(events).nodes
    ensures Run(events).nodes[k] == RunFaultless(events).nodes[k]
  {
    HistoriesSynchronize(events);
    FaultlessRunSame(events);
    FaultlessSynchronizes(events);
    assert k in RunFaultless(events).nodes.Keys;
    assert Restored(Run(events), k) == Restored(RunFaultless(events), k);
  }

  // --- The latest pushed value ---

  /** The last register of a list that has the key, if any. */
  function RegisterWith(registers: seq<Register>, d: DeviceId, k: Key): Option<Register> {
    if registers == [] then None
    else if KeyOf(d, registers[|registers| - 1]) == k then Some(registers[|registers| - 1])
    else RegisterWith(registers[..|registers| - 1], d, k)
  }

  /** Whether the history's adds, starts and stops leave the server running. */
  function IsRunning(events: seq<Event>): bool {
    events != [] &&
    match events[|events| - 1]
    case Start => true
    case Stop => false
    case _ => IsRunning(events[..|events| - 1])
  }

  /** The value last pushed to a key since its device was added, coerced; zero if none was. */
  function Latest(events: seq<Event>, k: Key): Option<Cached> {
    if events == [] then None
    else
      var before := Latest(events[..|events| - 1], k);
      match events[|events| - 1]
      case Stop => None
      case Add(d, registers, _) =>
        if IsRunning(events[..|events| - 1]) && RegisterWith(registers, d, k).Some? then
          var v := VariantOf(RegisterWith(registers, d, k).value.dataType);
          Some(Cached(Zero(v), v))
        else before
      case Remove(d) => if d == k.0 then None else before
      case Push(key, x, dataType) =>
        if key == k && before.Some? then Some(Cached(Coerced(x, VariantOf(dataType)), VariantOf(dataType))) else before
      case _ => before
  }

  lemma {:induction false} NodesAddedLatest(a: Agent, d: DeviceId, registers: seq<Register>, k: Key)
    ensures Get(NodesAdded(a, d, registers).lastValues, k) ==
      match RegisterWith(registers, d, k)
      case None => Get(a.lastValues, k)
      case Some(r) => Some(Cached(Zero(VariantOf(r.dataType)), VariantOf(r.dataType)))
  {
    if registers != [] {
      NodesAddedLatest(a, d, registers[..|registers| - 1], k);
    }
  }

  lemma {:induction false} CacheIsLatest(events: seq<Event>, k: Key)
    ensures Get(Run(events).lastValues, k) == Latest(events, k)
    ensures Run(events).running == IsRunning(events)
  {
    if events != [] {
      var n := |events| - 1;
      CacheIsLatest(events[..n], k);
      HistoriesSynchronize(events[..n]);
      var a := Run(events[..n]);
      if events[n].Add? && a.running {
        var registered := a.(stats := a.stats[events[n].device := FRESH_STATS]);
        NodesAddedLatest(registered, events[n].device, events[n].registers, k);
      }
    }
  }

  /** Whenever a device is not faulted, each of its nodes holds the latest pushed value, coerced. */
  lemma NodesHoldLatest(events: seq<Event>, k: Key)
    ensures k in Run(events).nodes <==> Latest(events, k).Some?
    ensures k in Run(events).nodes && k.0 !in Run(events).faulted ==>
      Run(events).nodes[k] == Node(Latest(events, k).value.value, Latest(events, k).value.variant, false)
  {
    HistoriesSynchronize(events);
    CacheIsLatest(events, k);
    assert k in Run(events).nodes.Keys <==> k in Run(events).lastValues.Keys;
  }

  // --- What clients read ---

  /** All nodes of a faulted device answer from their callbacks. */
  ghost predicate Attached(a: Agent) {
    forall k <- a.nodes :: k.0 in a.faulted ==> a.nodes[k].callback
  }

  lemma {:induction false} NodesAddedKept(a: Agent, d: DeviceId, registers: seq<Register>, k: Key)
    ensures k in NodesAdded(a, d, registers).nodes <==> k in a.nodes || RegisterWith(registers, d, k).Some?
    ensures k in NodesAdded(a, d, registers).nodes ==>
      if RegisterWith(registers, d, k).Some? then k.0 == d && !NodesAdded(a, d, registers).nodes[k].callback
      else NodesAdded(a, d, registers).nodes[k] == a.nodes[k]
  {
    if registers != [] {
      NodesAddedKept(a, d, registers[..|registers| - 1], k);
    }
  }

  lemma {:induction false} OtherKey(registers: seq<Register>, d: DeviceId, k: Key)
    ensures RegisterWith(registers, d, k).Some? ==> k.0 == d
  {
    if registers != [] {
      OtherKey(registers[..|registers| - 1], d, k);
    }
  }

  /** Adds a device again, with registers, while it is still marked faulted and the server runs. */
  predicate Detaches(a: Agent, e: Event) {
    e.Add? && a.running && e.device in a.faulted && e.registers != []
  }

  /**
   Exactly when a step keeps faulted devices answering from their callbacks: always,
   except when a device that is still marked faulted is added again with registers.
   */
  lemma AttachedExactly(a: Agent, e: Event)
    requires Attached(a)
    ensures Attached(Stepped(a, e))
       <==> !Detaches(a, e)
  {
    if e.Add? && a.running {
      var entered := a.(stats := a.stats[e.device := FRESH_STATS]);
      var added := NodesAdded(entered, e.device, e.registers);
      forall k
        ensures k in added.nodes && k.0 != e.device ==> k in a.nodes && added.nodes[k] == a.nodes[k]
      {
        NodesAddedKept(entered, e.device, e.registers, k);
        OtherKey(e.registers, e.device, k);
      }
      if e.registers != [] {
        var k := KeyOf(e.device, e.registers[|e.registers| - 1]);
        NodesAddedKept(entered, e.device, e.registers, k);
        assert k in added.nodes && !added.nodes[k].callback;
      }
    }
  }

  ghost predicate AlwaysAttached(events: seq<Event>) {
    forall n :: 0 <= n <= |events| ==> Attached(Run(events[..n]))
  }

  ghost predicate NeverDetaches(events: seq<Event>) {
    forall n :: 0 <= n < |events| ==> !Detaches(Run(events[..n]), events[n])
  }

  lemma LastDetaches(events: seq<Event>)
    requires events != []
    ensures var init, n := events[..|events| - 1], |events| - 1;
      && (AlwaysAttached(events) <==> AlwaysAttached(init) && Attached(Run(events)))
      && (NeverDetaches(events) <==> NeverDetaches(init) && !Detaches(Run(init), events[n]))
  {
    var init, n := events[..|events| - 1], |events| - 1;
    assert events[..|events|] == events;
    forall k | 0 <= k <= n
      ensures init[..k] == events[..k]
    {
    }
    assert forall k :: 0 <= k < n ==> init[k] == events[k];
  }

  /**
   Exactly when faulted devices answer from their callbacks all through a history:
   no device is added again, with registers, while it is still marked faulted.
   */
  lemma {:induction false} AttachedAlwaysExactly(events: seq<Event>)
    ensures AlwaysAttached(events) <==> NeverDetaches(events)
  {
    if events == [] {
      assert events[..0] == [];
    } else {
      var init := events[..|events| - 1];
      LastDetaches(events);
      AttachedAlwaysExactly(init);
      if AlwaysAttached(init) {
        assert init[..|init|] == init;
        AttachedExactly(Run(init), events[|events| - 1]);
      }
    }
  }

  /** What a client reads of an attached agent, whatever the simulator's fault. */
  lemma AttachedReads(events: seq<Event>, k: Key, fault: Fault)
    requires k in Run(events).nodes && Attached(Run(events))
    ensures Latest(events, k).Some?
    ensures ClientRead(Run(events), k, fault) ==
      if k.0 in Run(events).faulted && Shown(fault).Some? then Bad(Shown(fault).value)
      else Good(Latest(events, k).value.value, Latest(events, k).value.variant)
  {
    HistoriesSynchronize(events);
    NodesHoldLatest(events, k);
    CacheIsLatest(events, k);
  }

  /**
   After any history in which no device is added again while it is marked faulted,
   clients read the latest value of a register, except exactly when its device is
   attached and the simulator's fault is one that shows.
   */
  lemma ReadsAreLatest(events: seq<Event>, k: Key, fault: Fault)
    requires NeverDetaches(events) && k in Run(events).nodes
    ensures Latest(events, k).Some?
    ensures ClientRead(Run(events), k, fault) ==
      if k.0 in Run(events).faulted && Shown(fault).Some? then Bad(Shown(fault).value)
      else Good(Latest(events, k).value.value, Latest(events, k).value.variant)
  {
    AttachedAlwaysExactly(events);
    assert events[..|events|] == events;
    AttachedReads(events, k, fault);
  }

  function AddTwice(d: DeviceId, r: Register): seq<Event> {
    [Start] + [Add(d, [r], true)] + [Add(d, [r], true)]
  }

  /** A device added twice while a fault is set: marked faulted, and its node has no callback. */
  lemma AddedAgainIsDetached(d: DeviceId, r: Register)
    ensures var a := Run(AddTwice(d, r));
      && d in a.faulted
      && Get(a.nodes, KeyOf(d, r)) == Some(Node(Zero(VariantOf(r.dataType)), VariantOf(r.dataType), false))
  {
    var started, once := [Start], [Start] + [Add(d, [r], true)];
    assert started[..0] == [] && once[..1] == started && AddTwice(d, r)[..2] == once;
    assert Run(started) == STOPPED.(running := true);
    assert Run(once) == Added(Run(started), d, [r], true);
    assert [r][..0] == [];
  }

  /** Its clients then read the value it was added with, whatever is pushed and whatever the fault. */
  lemma DetachedReadsAreStale(d: DeviceId, r: Register, x: PyFloat, fault: Fault)
    ensures var events := AddTwice(d, r) + [Push(KeyOf(d, r), x, r.dataType)];
      var v := VariantOf(r.dataType);
      && KeyOf(d, r) in Run(events).nodes
      && Latest(events, KeyOf(d, r)) == Some(Cached(Coerced(x, v), v))
      && ClientRead(Run(events), KeyOf(d, r), fault) == Good(Zero(v), v)
  {
    var twice, push := AddTwice(d, r), Push(KeyOf(d, r), x, r.dataType);
    AddedAgainIsDetached(d, r);
    assert (twice + [push])[..3] == twice;
    assert Run(twice + [push]) == Stepped(Run(twice), push);
    NodesHoldLatest(twice, KeyOf(d, r));
  }
}
