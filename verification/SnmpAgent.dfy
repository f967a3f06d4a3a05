/**
 The SNMP adapter: an OID map, per-device OID lists and a sorted cache kept in
 step by add and remove, and the GETNEXT handler that walks the cache (section
 4.2.2 of RFC 3416). OIDs are canonical: tuples of numbers, not their text.
 */
module SnmpAgent {
  import opened Prelude
  import opened Oids
  import opened ProtocolBase

  /** The name a value is looked up by: the register's, or the OID when it has none. */
  datatype RegisterKey = Named(name: string) | ByOid(oid: Oid)

  datatype Entry = Entry(device: DeviceId, register: RegisterKey)

  datatype OidRegister = OidRegister(oid: Option<Oid>, name: Option<string>, dataType: string) {
    /** `if not reg.oid`: absent and empty OIDs are both skipped. */
    predicate HasOid() { oid.Some? && oid.value != [] }

    function Key(): RegisterKey
      requires HasOid()
    {
      if name.Some? && name.value != "" then Named(name.value) else ByOid(oid.value)
    }
  }

  datatype AddError = OidConflict(oid: Oid)

  /** Everything the adapter stores. */
  datatype Agent = Agent(
    oidMap: map<Oid, Entry>,
    dataTypes: map<Oid, string>,
    deviceOids: map<DeviceId, seq<Oid>>,
    sortedOids: seq<Oid>,
    stats: map<DeviceId, DeviceStats>
  )

  const EMPTY := Agent(map[], map[], map[], [], map[])

  // --- Registration ---

  predicate Conflicts(oidMap: map<Oid, Entry>, device: DeviceId, r: OidRegister) {
    r.HasOid() && r.oid.value in oidMap && oidMap[r.oid.value].device != device
  }

  ghost predicate Conflicting(oidMap: map<Oid, Entry>, device: DeviceId, registers: seq<OidRegister>) {
    exists r :: r in registers && Conflicts(oidMap, device, r)
  }

  function OwnedOids(registers: seq<OidRegister>): seq<Oid> {
    if registers == [] then []
    else
      var last := registers[|registers| - 1];
      OwnedOids(registers[..|registers| - 1]) + if last.HasOid() then [last.oid.value] else []
  }

  /** The map after the insertion loop has seen the registers, in order. */
  function Inserted(agent: Agent, device: DeviceId, registers: seq<OidRegister>): Agent {
    if registers == [] then agent
    else
      var before := Inserted(agent, device, registers[..|registers| - 1]);
      var last := registers[|registers| - 1];
      if last.HasOid() then
        before.(oidMap := before.oidMap[last.oid.value := Entry(device, last.Key())],
                dataTypes := before.dataTypes[last.oid.value := last.dataType])
      else before
  }

  /** `add_device` of an accepted registration. */
  function Added(agent: Agent, device: DeviceId, registers: seq<OidRegister>): Agent {
    var inserted := Inserted(agent, device, registers);
    inserted.(deviceOids := agent.deviceOids[device := OwnedOids(registers)],
              sortedOids := SortedOids(inserted.oidMap.Keys),
              stats := agent.stats[device := FRESH_STATS])
  }

  /** `add_device` of a conflicting registration: the statistics entry is rolled back. */
  function Rejected(agent: Agent, device: DeviceId): Agent {
    agent.(stats := agent.stats - {device})
  }

  /** The OIDs `remove_device` pops; a device that was never added has none. */
  function OidsOf(agent: Agent, device: DeviceId): seq<Oid> {
    if device in agent.deviceOids then agent.deviceOids[device] else []
  }

  /** `pop(oid, None)` for each OID of a list, in order. */
  function Without<V>(m: map<Oid, V>, oids: seq<Oid>): map<Oid, V> {
    if oids == [] then m else Without(m, oids[..|oids| - 1]) - {oids[|oids| - 1]}
  }

  /** `remove_device`. */
  function Removed(agent: Agent, device: DeviceId): Agent {
    var oidMap := Without(agent.oidMap, OidsOf(agent, device));
    Agent(oidMap, Without(agent.dataTypes, OidsOf(agent, device)), agent.deviceOids - {device},
      SortedOids(oidMap.Keys), agent.stats - {device})
  }

  // --- Resolution ---

  /** The simulation's current values, and the devices with an `exception` fault. */
  datatype World = World(values: map<DeviceId, map<RegisterKey, real>>, faulted: set<DeviceId>)

  datatype Reply = Value(oid: Oid, value: real, dataType: string) | EndOfMibView | GenErr

  function Resolve(agent: Agent, world: World, oid: Oid): Option<(real, string)> {
    var entry :- Get(agent.oidMap, oid);
    var values :- Get(world.values, entry.device);
    var value :- Get(values, entry.register);
    Some((value, if oid in agent.dataTypes then agent.dataTypes[oid] else "float32"))
  }

  predicate Faulted(agent: Agent, world: World, oid: Oid) {
    oid in agent.oidMap && agent.oidMap[oid].device in world.faulted
  }

  /** The answer a scan of the cache from position k on arrives at. */
  function ScanFrom(agent: Agent, world: World, k: nat): (reply: Reply)
    requires k <= |agent.sortedOids|
    ensures reply.Value? ==> exists j :: k <= j < |agent.sortedOids| && agent.sortedOids[j] == reply.oid
    decreases |agent.sortedOids| - k
  {
    if k == |agent.sortedOids| then EndOfMibView
    else if Faulted(agent, world, agent.sortedOids[k]) then GenErr
    else
      match Resolve(agent, world, agent.sortedOids[k])
      case Some((value, dataType)) => Value(agent.sortedOids[k], value, dataType)
      case None => ScanFrom(agent, world, k + 1)
  }

  /** GETNEXT: the answer among the OIDs above the requested one. */
  function NextReply(agent: Agent, world: World, oid: Oid): Reply {
    ScanFrom(agent, world, FirstAbove(agent.sortedOids, oid))
  }

  /** `get_next_oid`. */
  function NextOid(s: seq<Oid>, oid: Oid): Option<Oid> {
    OidAt(s, FirstAbove(s, oid))
  }

  function OidAt(s: seq<Oid>, k: nat): Option<Oid> {
    if k < |s| then Some(s[k]) else None
  }

  // --- The adapter ---

  class SnmpAdapter {
    var oidMap: map<Oid, Entry>
    var dataTypes: map<Oid, string>
    var deviceOids: map<DeviceId, seq<Oid>>
    var sortedOids: seq<Oid>
    var stats: map<DeviceId, DeviceStats>

    constructor ()
      ensures View() == EMPTY
    {
      oidMap, dataTypes, deviceOids, sortedOids, stats := map[], map[], map[], [], map[];
    }

    function View(): Agent
      reads this
    {
      Agent(oidMap, dataTypes, deviceOids, sortedOids, stats)
    }

    /** Whatever the cache was, it then lists the map's OIDs, each once and in ascending order. */
    method InvalidateSortedOids()
      modifies this`sortedOids
      ensures Enumerates(sortedOids, oidMap.Keys)
    {
      sortedOids := SortedOids(oidMap.Keys);
    }

    /** The checking loop of `_do_add_device`. */
    method FindConflict(device: DeviceId, registers: seq<OidRegister>) returns (conflict: Option<Oid>)
      ensures conflict.Some? <==> Conflicting(oidMap, device, registers)
      ensures conflict.Some? ==> conflict.value in oidMap && oidMap[conflict.value].device != device
    {
      for n := 0 to |registers|
        invariant forall i :: 0 <= i < n ==> !Conflicts(oidMap, device, registers[i])
      {
        if Conflicts(oidMap, device, registers[n]) {
          assert registers[n] in registers;
          return Some(registers[n].oid.value);
        }
      }
      return None;
    }

    method AddDevice(device: DeviceId, registers: seq<OidRegister>) returns (r: Result<(), AddError>)
      modifies this
      ensures r.Err? <==> Conflicting(old(oidMap), device, registers)
      ensures View() == if r.Ok? then Added(old(View()), device, registers) else Rejected(old(View()), device)
    {
      ghost var before := View();
      stats := stats[device := FRESH_STATS];
      var conflict := FindConflict(device, registers);
      if conflict.Some? {
        stats := stats - {device};
        assert stats == before.stats - {device};
        return Err(OidConflict(conflict.value));
      }
      var owned := [];
      for n := 0 to |registers|
        invariant owned == OwnedOids(registers[..n])
        invariant View() == Inserted(before, device, registers[..n]).(stats := before.stats[device := FRESH_STATS])
      {
        assert registers[..n + 1][..n] == registers[..n];
        var reg := registers[n];
        if reg.HasOid() {
          oidMap := oidMap[reg.oid.value := Entry(device, reg.Key())];
          dataTypes := dataTypes[reg.oid.value := reg.dataType];
          owned := owned + [reg.oid.value];
        }
      }
      assert registers[..|registers|] == registers;
      InsertedFrame(before, device, registers);
      deviceOids := deviceOids[device := owned];
      InvalidateSortedOids();
      EnumerationUnique(sortedOids, SortedOids(oidMap.Keys), oidMap.Keys);
      return Ok(());
    }

    method RemoveDevice(device: DeviceId)
      modifies this
      ensures View() == Removed(old(View()), device)
    {
      ghost var before := View();
      var oids := if device in deviceOids then deviceOids[device] else [];
      deviceOids := deviceOids - {device};
      for n := 0 to |oids|
        invariant oidMap == Without(before.oidMap, oids[..n])
        invariant dataTypes == Without(before.dataTypes, oids[..n])
        invariant deviceOids == before.deviceOids - {device}
        invariant stats == before.stats
      {
        assert oids[..n + 1][..n] == oids[..n];
        oidMap := oidMap - {oids[n]};
        dataTypes := dataTypes - {oids[n]};
      }
      assert oids[..|oids|] == oids;
      InvalidateSortedOids();
      EnumerationUnique(sortedOids, SortedOids(oidMap.Keys), oidMap.Keys);
      stats := stats - {device};
    }

    method Stop()
      modifies this
      ensures View() == EMPTY
    {
      oidMap, dataTypes, deviceOids, sortedOids, stats := map[], map[], map[], [], map[];
    }

    method GetNextOid(oid: Oid) returns (next: Option<Oid>)
      requires StrictlySorted(sortedOids)
      ensures next == NextOid(sortedOids, oid)
    {
      if sortedOids == [] {
        return None;
      }
      var k := BisectRight(sortedOids, oid);
      return if k < |sortedOids| then Some(sortedOids[k]) else None;
    }

    /** The GETNEXT loop: step through the cache until an OID has a value. */
    method ReadNext(world: World, oid: Oid) returns (reply: Reply)
      requires StrictlySorted(sortedOids)
      ensures reply == NextReply(View(), world, oid)
    {
      var agent := View();
      ghost var k := FirstAbove(sortedOids, oid);
      var next := GetNextOid(oid);
      while next.Some?
        invariant 0 <= k <= |agent.sortedOids| && next == OidAt(agent.sortedOids, k)
        invariant ScanFrom(agent, world, k) == NextReply(agent, world, oid)
        decreases |agent.sortedOids| - k
      {
        if Faulted(agent, world, next.value) {
          return GenErr;
        }
        var resolved := Resolve(agent, world, next.value);
        if resolved.Some? {
          return Value(next.value, resolved.value.0, resolved.value.1);
        }
        FirstAboveMember(sortedOids, k);
        next := GetNextOid(next.value);
        k := k + 1;
      }
      return EndOfMibView;
    }
  }

  lemma {:induction false} InsertedFrame(agent: Agent, device: DeviceId, registers: seq<OidRegister>)
    ensures var after := Inserted(agent, device, registers);
      after.deviceOids == agent.deviceOids && after.sortedOids == agent.sortedOids && after.stats == agent.stats
  {
    if registers != [] {
      InsertedFrame(agent, device, registers[..|registers| - 1]);
    }
  }
}
