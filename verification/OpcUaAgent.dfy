/**
 The OPC UA adapter: one node per register, a cache of the latest coerced values,
 and a fault overlay that answers reads from a callback while a fault is attached.
 Pushes to a faulted device only reach the cache, because writing a node would
 detach its callback. Methods are atomic, and writes to nodes succeed.
 */
module OpcUaAgent {
  import opened Prelude
  import opened Registers
  import opened ProtocolBase

  datatype PyFloat = Finite(r: real) | NaN | PosInf | NegInf

  datatype VariantType = VInt16 | VUInt16 | VInt32 | VUInt32 | VFloat | VDouble

  datatype Value = IntValue(n: int) | FloatValue(x: PyFloat)

  /** (2 - 2^-23) * 2^127 */
  const FLOAT32_MAX := 340282346638528859811704183484516925440.0

  function VariantOf(dataType: DataType): VariantType {
    match dataType
    case Int16 => VInt16
    case UInt16 => VUInt16
    case Int32 => VInt32
    case UInt32 => VUInt32
    case Float32 => VFloat
    case Float64 | OtherType(_) => VDouble
  }

  function IntRange(v: VariantType): Option<(int, int)> {
    match v
    case VInt16 => Some((-32768, 32767))
    case VUInt16 => Some((0, 65535))
    case VInt32 => Some((-2147483648, 2147483647))
    case VUInt32 => Some((0, 4294967295))
    case VFloat | VDouble => None
  }

  /** Python's `<=` between a float and a number: false for NaN. */
  predicate AtMost(x: PyFloat, bound: real) {
    match x
    case Finite(r) => r <= bound
    case NegInf => true
    case _ => false
  }

  predicate AtLeast(x: PyFloat, bound: real) {
    match x
    case Finite(r) => r >= bound
    case PosInf => true
    case _ => false
  }

  /** `_coerce_to_range`. */
  function Coerced(x: PyFloat, v: VariantType): Value {
    match IntRange(v)
    case Some((lo, hi)) =>
      if x.NaN? then IntValue(0)
      else if AtMost(x, lo as real) then IntValue(lo)
      else if AtLeast(x, hi as real) then IntValue(hi)
      else IntValue(Truncate(x.r))
    case None =>
      if v.VFloat? && !x.NaN? then
        if AtMost(x, -FLOAT32_MAX) then FloatValue(Finite(-FLOAT32_MAX))
        else if AtLeast(x, FLOAT32_MAX) then FloatValue(Finite(FLOAT32_MAX))
        else FloatValue(x)
      else FloatValue(x)
  }

  /** What a client can read back from a node of this type. */
  predicate Writable(value: Value, v: VariantType) {
    match IntRange(v)
    case Some((lo, hi)) => value.IntValue? && lo <= value.n <= hi
    case None =>
      value.FloatValue? &&
      (v.VFloat? && !value.x.NaN? ==> value.x.Finite? && -FLOAT32_MAX <= value.x.r <= FLOAT32_MAX)
  }

  /** Coercion lands in the writable range, and is the nearest whole move only when it has to be. */
  lemma CoercedIsWritable(x: PyFloat, v: VariantType)
    ensures Writable(Coerced(x, v), v)
    ensures x.Finite? && IntRange(v).Some? && IntRange(v).value.0 as real <= x.r <= IntRange(v).value.1 as real ==>
      Coerced(x, v) == IntValue(Truncate(x.r))
    ensures IntRange(v).None? && Writable(FloatValue(x), v) ==> Coerced(x, v) == FloatValue(x)
  {
    if x.Finite? && IntRange(v).Some? {
      TruncateBetween(x.r, IntRange(v).value.0, IntRange(v).value.1);
    }
  }

  lemma TruncateBetween(r: real, lo: int, hi: int)
    requires lo <= 0 <= hi
    ensures lo as real <= r <= hi as real ==> lo <= Truncate(r) <= hi
    ensures r == lo as real ==> Truncate(r) == lo
    ensures r == hi as real ==> Truncate(r) == hi
  {
  }

  // --- The stored state ---

  type Key = (DeviceId, nat, FunctionCode)

  /** A server node: its stored value, and whether a fault callback answers for it. */
  datatype Node = Node(value: Value, variant: VariantType, callback: bool)

  datatype Cached = Cached(value: Value, variant: VariantType)

  datatype Agent = Agent(
    running: bool,
    nodes: map<Key, Node>,
    lastValues: map<Key, Cached>,
    faulted: set<DeviceId>,
    stats: map<DeviceId, DeviceStats>
  )

  const STOPPED := Agent(false, map[], map[], {}, map[])

  function KeyOf(d: DeviceId, r: Register): Key { (d, r.address, r.functionCode) }

  function Zero(v: VariantType): Value {
    if IntRange(v).Some? then IntValue(0) else FloatValue(Finite(0.0))
  }

  /** Nodes and cache entries after the first registers of a new device. */
  function NodesAdded(a: Agent, d: DeviceId, registers: seq<Register>): (r: Agent)
    ensures r == a.(nodes := r.nodes, lastValues := r.lastValues)
  {
    if registers == [] then a
    else
      var before := NodesAdded(a, d, registers[..|registers| - 1]);
      var last := registers[|registers| - 1];
      var v := VariantOf(last.dataType);
      before.(nodes := before.nodes[KeyOf(d, last) := Node(Zero(v), v, false)],
              lastValues := before.lastValues[KeyOf(d, last) := Cached(Zero(v), v)])
  }

  /** Every node of the device gets a callback; a device already faulted is left alone. */
  function FaultApplied(a: Agent, d: DeviceId): Agent {
    if !a.running || d in a.faulted then a
    else
      a.(nodes := map k <- a.nodes :: if k.0 == d then a.nodes[k].(callback := true) else a.nodes[k],
         faulted := a.faulted + {d})
  }

  /** What is written back to a node when its device's fault is cleared. */
  function RestoredFrom(lastValues: map<Key, Cached>, k: Key): Node {
    if k in lastValues then Node(lastValues[k].value, lastValues[k].variant, false)
    else Node(FloatValue(Finite(0.0)), VDouble, false)
  }

  function Restored(a: Agent, k: Key): Node {
    RestoredFrom(a.lastValues, k)
  }

  function FaultRemoved(a: Agent, d: DeviceId): Agent {
    if d !in a.faulted then a
    else
      a.(nodes := map k <- a.nodes :: if k.0 == d then Restored(a, k) else a.nodes[k],
         faulted := a.faulted - {d})
  }

  /** `faultSet`: the fault simulator already holds a fault for the device. */
  function Added(a: Agent, d: DeviceId, registers: seq<Register>, faultSet: bool): Agent {
    if !a.running then a.(stats := a.stats - {d})
    else
      var added := NodesAdded(a.(stats := a.stats[d := FRESH_STATS]), d, registers);
      if faultSet then FaultApplied(added, d) else added
  }

  function Removed(a: Agent, d: DeviceId): Agent {
    Agent(a.running,
      map k <- a.nodes | k.0 != d :: a.nodes[k],
      map k <- a.lastValues | k.0 != d :: a.lastValues[k],
      a.faulted - {d}, a.stats - {d})
  }

  function Pushed(a: Agent, k: Key, x: PyFloat, dataType: DataType): Agent {
    if k !in a.nodes then a
    else
      var v := VariantOf(dataType);
      var c := Coerced(x, v);
      var cached := a.(lastValues := a.lastValues[k := Cached(c, v)]);
      if k.0 in a.faulted then cached
      else cached.(nodes := cached.nodes[k := Node(c, v, false)])
  }

  // --- The adapter ---

  class OpcUaAdapter {
    var running: bool
    var nodes: map<Key, Node>
    var lastValues: map<Key, Cached>
    var faulted: set<DeviceId>
    var stats: map<DeviceId, DeviceStats>

    ghost function View(): Agent
      reads this
    {
      Agent(running, nodes, lastValues, faulted, stats)
    }

    constructor ()
      ensures View() == STOPPED
    {
      running, nodes, lastValues, faulted, stats := false, map[], map[], {}, map[];
    }

    method Start()
      modifies this
      ensures View() == old(View()).(running := true)
    {
      running := true;
    }

    method Stop()
      modifies this
      ensures View() == STOPPED
    {
      running, nodes, lastValues, faulted, stats := false, map[], map[], {}, map[];
    }

    /** False when the server is not running; the statistics entry is rolled back. */
    method AddDevice(d: DeviceId, registers: seq<Register>, faultSet: bool) returns (ok: bool)
      modifies this
      ensures ok == old(running) && View() == Added(old(View()), d, registers, faultSet)
    {
      ghost var before := View();
      stats := stats[d := FRESH_STATS];
      if !running {
        stats := stats - {d};
        assert stats == before.stats - {d};
        return false;
      }
      ghost var entered := View();
      for n := 0 to |registers|
        invariant View() == NodesAdded(entered, d, registers[..n])
      {
        assert registers[..n + 1][..n] == registers[..n];
        var v := VariantOf(registers[n].dataType);
        nodes := nodes[KeyOf(d, registers[n]) := Node(Zero(v), v, false)];
        lastValues := lastValues[KeyOf(d, registers[n]) := Cached(Zero(v), v)];
      }
      assert registers[..|registers|] == registers;
      if faultSet {
        ApplyFault(d);
      }
      return true;
    }

    method RemoveDevice(d: DeviceId)
      modifies this
      ensures View() == Removed(old(View()), d)
    {
      nodes := map k <- nodes | k.0 != d :: nodes[k];
      lastValues := map k <- lastValues | k.0 != d :: lastValues[k];
      faulted := faulted - {d};
      stats := stats - {d};
    }

    method UpdateRegister(k: Key, x: PyFloat, dataType: DataType)
      modifies this
      ensures View() == Pushed(old(View()), k, x, dataType)
    {
      if k !in nodes {
        return;
      }
      var v := VariantOf(dataType);
      var c := Coerced(x, v);
      lastValues := lastValues[k := Cached(c, v)];
      if k.0 in faulted {
        return;
      }
      nodes := nodes[k := Node(c, v, false)];
    }

    method ApplyFault(d: DeviceId)
      modifies this
      ensures View() == FaultApplied(old(View()), d)
    {
      if !running || d in faulted {
        return;
      }
      AttachCallbacks(d);
      faulted := faulted + {d};
    }

    method AttachCallbacks(d: DeviceId)
      modifies this`nodes
      ensures nodes == map k <- old(nodes) :: if k.0 == d then old(nodes)[k].(callback := true) else old(nodes)[k]
    {
      ghost var before := nodes;
      var left := set k <- nodes | k.0 == d;
      while left != {}
        invariant left <= nodes.Keys && nodes.Keys == before.Keys && (forall k <- left :: k.0 == d)
        invariant forall k <- nodes ::
          nodes[k] == if k.0 == d && k !in left then before[k].(callback := true) else before[k]
      {
        var k :| k in left;
        nodes := nodes[k := nodes[k].(callback := true)];
        left := left - {k};
      }
    }

    method RemoveFault(d: DeviceId)
      modifies this
      ensures View() == FaultRemoved(old(View()), d)
    {
      if d !in faulted {
        return;
      }
      RestoreNodes(d);
      faulted := faulted - {d};
    }

    /** Writes the device's nodes back from the cache, which detaches their callbacks. */
    method RestoreNodes(d: DeviceId)
      modifies this`nodes
      ensures nodes == map k <- old(nodes) :: if k.0 == d then RestoredFrom(lastValues, k) else old(nodes)[k]
    {
      ghost var before := nodes;
      var left := set k <- nodes | k.0 == d;
      while left != {}
        invariant left <= nodes.Keys && nodes.Keys == before.Keys && (forall k <- left :: k.0 == d)
        invariant forall k <- nodes ::
          nodes[k] == if k.0 == d && k !in left then RestoredFrom(lastValues, k) else before[k]
      {
        var k :| k in left;
        nodes := nodes[k := RestoredFrom(lastValues, k)];
        left := left - {k};
      }
    }
  }

  // --- What a client reads ---

  /** The fault the simulator holds for the device at the moment of the read. */
  datatype Fault = NoFault | ExceptionFault | TimeoutFault | DelayFault | IntermittentFault(failsNow: bool) | OtherFault

  datatype Status = BadDeviceFailure | BadTimeout | BadCommunicationError

  datatype Response = Good(value: Value, variant: VariantType) | Bad(status: Status)

  /** The status a fault makes the callback answer with, if it is one that shows. */
  function Shown(fault: Fault): Option<Status> {
    match fault
    case ExceptionFault => Some(BadDeviceFailure)
    case TimeoutFault => Some(BadTimeout)
    case IntermittentFault(true) => Some(BadCommunicationError)
    case NoFault | DelayFault | IntermittentFault(false) | OtherFault => None
  }

  function CallbackRead(a: Agent, k: Key, fault: Fault): Response {
    match Shown(fault)
    case Some(status) => Bad(status)
    case None => var node := Restored(a, k); Good(node.value, node.variant)
  }

  function ClientRead(a: Agent, k: Key, fault: Fault): Response
    requires k in a.nodes
  {
    if a.nodes[k].callback then CallbackRead(a, k, fault) else Good(a.nodes[k].value, a.nodes[k].variant)
  }
}
