/** What clients of the OPC UA server see of a pushed value, type by type, and of a fault. */
module OpcUaValues {
  import opened Prelude
  import opened Registers
  import opened ProtocolBase
  import opened OpcUaAgent
  import opened OpcUaHistory

  // --- The range of each type ---

  /** Cut off at the bounds, and in between without its fraction; no number counts as zero. */
  ghost predicate Saturated(x: PyFloat, lo: int, hi: int, n: int) {
    match x
    case NaN => n == 0
    case NegInf => n == lo
    case PosInf => n == hi
    case Finite(r) =>
      if r <= lo as real then n == lo
      else if r >= hi as real then n == hi
      else if r >= 0.0 then n as real <= r < (n + 1) as real
      else (n - 1) as real < r <= n as real
  }

  /** Cut off at the bounds; no number stays none. */
  ghost predicate SaturatedReal(x: PyFloat, bound: real, y: PyFloat) {
    match x
    case NaN => y == NaN
    case NegInf => y == Finite(-bound)
    case PosInf => y == Finite(bound)
    case Finite(r) => y == Finite(if r <= -bound then -bound else if r >= bound then bound else r)
  }

  /** What a value pushed to a register of a type becomes. */
  ghost predicate ShownAs(x: PyFloat, dataType: DataType, c: Cached) {
    match dataType
    case Int16 => c.variant == VInt16 && c.value.IntValue? && Saturated(x, -32768, 32767, c.value.n)
    case UInt16 => c.variant == VUInt16 && c.value.IntValue? && Saturated(x, 0, 65535, c.value.n)
    case Int32 => c.variant == VInt32 && c.value.IntValue? && Saturated(x, -2147483648, 2147483647, c.value.n)
    case UInt32 => c.variant == VUInt32 && c.value.IntValue? && Saturated(x, 0, 4294967295, c.value.n)
    case Float32 =>
      && c.variant == VFloat && c.value.FloatValue?
      && SaturatedReal(x, 340282346638528859811704183484516925440.0, c.value.x)
    case Float64 | OtherType(_) => c.variant == VDouble && c.value == FloatValue(x)
  }

  lemma CoercedIsShown(x: PyFloat, dataType: DataType)
    ensures ShownAs(x, dataType, Cached(Coerced(x, VariantOf(dataType)), VariantOf(dataType)))
  {
  }

  // --- Over histories ---

  /** What a register's value comes from: its last push, or its device's registration. */
  datatype Origin = ByPush(x: PyFloat, dataType: DataType) | ByAdd(dataType: DataType)

  function OriginOf(events: seq<Event>, k: Key): Option<Origin> {
    if events == [] then None
    else
      var init := events[..|events| - 1];
      var before := OriginOf(init, k);
      match events[|events| - 1]
      case Stop => None
      case Remove(d) => if d == k.0 then None else before
      case Push(key, x, dataType) => if key == k && before.Some? then Some(ByPush(x, dataType)) else before
      case Add(d, registers, _) =>
        if IsRunning(init) && RegisterWith(registers, d, k).Some?
        then Some(ByAdd(RegisterWith(registers, d, k).value.dataType))
        else before
      case Start | ApplyFault(_) | RemoveFault(_) => before
  }

  /** A pushed value as its type shows it; before the first push zero. */
  ghost predicate Shows(origin: Origin, c: Cached) {
    match origin
    case ByPush(x, dataType) => ShownAs(x, dataType, c)
    case ByAdd(dataType) => ShownAs(Finite(0.0), dataType, c)
  }

  lemma ZeroIsShown(dataType: DataType)
    ensures ShownAs(Finite(0.0), dataType, Cached(Zero(VariantOf(dataType)), VariantOf(dataType)))
  {
  }

  lemma {:induction false} LatestShowsOrigin(events: seq<Event>, k: Key)
    ensures Latest(events, k).Some? <==> OriginOf(events, k).Some?
    ensures Latest(events, k).Some? ==> Shows(OriginOf(events, k).value, Latest(events, k).value)
  {
    if events != [] {
      var init, last := events[..|events| - 1], events[|events| - 1];
      LatestShowsOrigin(init, k);
      if last.Push? {
        CoercedIsShown(last.value, last.dataType);
      } else if last.Add? && RegisterWith(last.registers, last.device, k).Some? {
        ZeroIsShown(RegisterWith(last.registers, last.device, k).value.dataType);
      }
    }
  }

  /**
   After any history in which no device is added again while it is marked faulted, a
   client that reads a register gets its last pushed value, within its type's range and
   with its type. While the device is marked faulted, an exception, a timeout or a
   failing intermittent fault answers with its own status instead.
   */
  lemma ReadsShowPushes(events: seq<Event>, k: Key, fault: Fault)
    requires NeverDetaches(events) && k in Run(events).nodes
    ensures OriginOf(events, k).Some?
    ensures var read, faulted := ClientRead(Run(events), k, fault), k.0 in Run(events).faulted;
      if faulted && fault == ExceptionFault then read == Bad(BadDeviceFailure)
      else if faulted && fault == TimeoutFault then read == Bad(BadTimeout)
      else if faulted && fault == IntermittentFault(true) then read == Bad(BadCommunicationError)
      else read.Good? && Shows(OriginOf(events, k).value, Cached(read.value, read.variant))
  {
    ReadsAreLatest(events, k, fault);
    LatestShowsOrigin(events, k);
  }

  // --- Nodes, marks and counters ---

  /** Each register of a device has a node of its own address and function code. */
  predicate IsNodeOf(k: Key, d: DeviceId, registers: seq<Register>) {
    exists r <- registers :: k == (d, r.address, r.functionCode)
  }

  lemma {:induction false} RegisterWithExactly(registers: seq<Register>, d: DeviceId, k: Key)
    ensures RegisterWith(registers, d, k).Some? <==> IsNodeOf(k, d, registers)
  {
    if registers != [] {
      var init, last := registers[..|registers| - 1], registers[|registers| - 1];
      RegisterWithExactly(init, d, k);
      assert registers == init + [last] && last in registers;
    }
  }

  /** Which nodes there are, event by event. */
  lemma StepByNode(a: Agent, e: Event, k: Key)
    ensures k in Stepped(a, e).nodes <==>
      if e.Stop? then false
      else if e.Remove? then k in a.nodes && k.0 != e.device
      else k in a.nodes || (e.Add? && a.running && IsNodeOf(k, e.device, e.registers))
  {
    if e.Add? && a.running {
      RegisterWithExactly(e.registers, e.device, k);
      NodesAddedKept(a.(stats := a.stats[e.device := FRESH_STATS]), e.device, e.registers, k);
    }
  }

  /** Whether a device is marked faulted, event by event. */
  lemma StepByMark(a: Agent, e: Event, d: DeviceId)
    ensures d in Stepped(a, e).faulted <==>
      if e.Stop? || e == Remove(d) || e == RemoveFault(d) then false
      else if e == ApplyFault(d) || (e.Add? && e.device == d && e.faultSet) then a.running || d in a.faulted
      else d in a.faulted
  {
  }

  /** The counters of a device, event by event: an add starts them, and while the server is down it drops them. */
  lemma StepByStats(a: Agent, e: Event, d: DeviceId)
    ensures Get(Stepped(a, e).stats, d) ==
      if e.Stop? || e == Remove(d) then None
      else if e.Add? && e.device == d then (if a.running then Some(DeviceStats(0, 0, 0)) else None)
      else Get(a.stats, d)
  {
  }
}
