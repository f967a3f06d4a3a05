/** What every history of registrations and removals keeps of the SNMP agent's indexes. */
module SnmpHistories {
  import opened Oids
  import opened ProtocolBase
  import opened SnmpAgent

  /** The map is the disjoint union of the live devices' lists, and the cache enumerates it. */
  ghost predicate Consistent(agent: Agent) {
    && agent.oidMap.Keys == agent.dataTypes.Keys
    && agent.deviceOids.Keys == agent.stats.Keys
    && (forall o <- agent.oidMap :: OwnedBy(agent, o, agent.oidMap[o].device))
    && (forall d, o :: OwnedBy(agent, o, d) ==> o in agent.oidMap && agent.oidMap[o].device == d)
    && Enumerates(agent.sortedOids, agent.oidMap.Keys)
  }

  ghost predicate OwnedBy(agent: Agent, o: Oid, d: DeviceId) {
    d in agent.deviceOids && o in agent.deviceOids[d]
  }

  function Members(oids: seq<Oid>): set<Oid> {
    set o | o in oids
  }

  /** The map gains the listed OIDs, for the device, and is otherwise the same. */
  ghost predicate Gains(agent: Agent, after: Agent, device: DeviceId, oids: seq<Oid>) {
    && after.oidMap.Keys == agent.oidMap.Keys + Members(oids)
    && after.dataTypes.Keys == agent.dataTypes.Keys + Members(oids)
    && forall o <- after.oidMap ::
         if o in oids then after.oidMap[o].device == device
         else o in agent.oidMap && after.oidMap[o] == agent.oidMap[o]
  }

  lemma GainsOne(
      agent: Agent, before: Agent, after: Agent, device: DeviceId, oids: seq<Oid>, o: Oid, key: RegisterKey,
      dataType: string)
    requires Gains(agent, before, device, oids)
    requires after.oidMap == before.oidMap[o := Entry(device, key)]
    requires after.dataTypes == before.dataTypes[o := dataType]
    ensures Gains(agent, after, device, oids + [o])
  {
    assert Members(oids + [o]) == Members(oids) + {o};
  }

  lemma {:induction false} InsertedMap(agent: Agent, device: DeviceId, registers: seq<OidRegister>)
    ensures Gains(agent, Inserted(agent, device, registers), device, OwnedOids(registers))
  {
    if registers == [] {
      assert Members([]) == {};
    } else {
      var n := |registers| - 1;
      var before, last := Inserted(agent, device, registers[..n]), registers[n];
      InsertedMap(agent, device, registers[..n]);
      if last.HasOid() {
        GainsOne(agent, before, Inserted(agent, device, registers), device, OwnedOids(registers[..n]), last.oid.value,
                 last.Key(), last.dataType);
      }
    }
  }

  lemma {:induction false} OwnedAppears(registers: seq<OidRegister>, o: Oid)
    requires o in OwnedOids(registers)
    ensures o != [] && exists r :: r in registers && r.HasOid() && r.oid.value == o
  {
    var n := |registers| - 1;
    if registers[n].HasOid() && registers[n].oid.value == o {
      assert registers[n] in registers;
    } else {
      OwnedAppears(registers[..n], o);
    }
  }

  /** An accepted registration takes no OID from another device. */
  lemma NoTheft(agent: Agent, device: DeviceId, registers: seq<OidRegister>, o: Oid)
    requires !Conflicting(agent.oidMap, device, registers)
    requires o in OwnedOids(registers) && o in agent.oidMap
    ensures agent.oidMap[o].device == device
  {
    OwnedAppears(registers, o);
    var r :| r in registers && r.HasOid() && r.oid.value == o;
    assert !Conflicts(agent.oidMap, device, r);
  }

  /** Registering again is safe when the new list covers the old one. */
  lemma LiveAddConsistent(agent: Agent, device: DeviceId, registers: seq<OidRegister>)
    requires Consistent(agent)
    requires device in agent.deviceOids ==> forall o <- agent.deviceOids[device] :: o in OwnedOids(registers)
    requires !Conflicting(agent.oidMap, device, registers)
    ensures Consistent(Added(agent, device, registers))
  {
    var after := Added(agent, device, registers);
    InsertedMap(agent, device, registers);
    forall o | o in after.oidMap
      ensures OwnedBy(after, o, after.oidMap[o].device)
    {
      if o !in OwnedOids(registers) {
        assert OwnedBy(agent, o, agent.oidMap[o].device);
      }
    }
    forall d, o | OwnedBy(after, o, d)
      ensures o in after.oidMap && after.oidMap[o].device == d
    {
      if d != device {
        assert OwnedBy(agent, o, d);
        assert o in agent.oidMap && agent.oidMap[o].device == d;
        if o in OwnedOids(registers) {
          NoTheft(agent, device, registers, o);
          assert false;
        }
      }
    }
  }

  lemma {:induction false} WithoutKeeps<V>(m: map<Oid, V>, oids: seq<Oid>, o: Oid)
    ensures o in Without(m, oids) <==> o in m && o !in oids
    ensures o in Without(m, oids) ==> Without(m, oids)[o] == m[o]
  {
    if oids != [] {
      WithoutKeeps(m, oids[..|oids| - 1], o);
    }
  }

  lemma RemovedMap(agent: Agent, device: DeviceId, o: Oid)
    ensures o in Removed(agent, device).oidMap <==> o in agent.oidMap && o !in OidsOf(agent, device)
    ensures o in Removed(agent, device).oidMap ==> Removed(agent, device).oidMap[o] == agent.oidMap[o]
    ensures o in Removed(agent, device).dataTypes <==> o in agent.dataTypes && o !in OidsOf(agent, device)
  {
    WithoutKeeps(agent.oidMap, OidsOf(agent, device), o);
    WithoutKeeps(agent.dataTypes, OidsOf(agent, device), o);
  }

  /** What the map keeps is still owned. */
  lemma RemovedOwner(agent: Agent, device: DeviceId, o: Oid)
    requires Consistent(agent) && o in Removed(agent, device).oidMap
    ensures OwnedBy(Removed(agent, device), o, Removed(agent, device).oidMap[o].device)
  {
    RemovedMap(agent, device, o);
    assert OwnedBy(agent, o, agent.oidMap[o].device);
  }

  /** What the lists keep is still in the map. */
  lemma RemovedListed(agent: Agent, device: DeviceId, d: DeviceId, o: Oid)
    requires Consistent(agent) && OwnedBy(Removed(agent, device), o, d)
    ensures o in Removed(agent, device).oidMap && Removed(agent, device).oidMap[o].device == d
  {
    RemovedMap(agent, device, o);
    assert OwnedBy(agent, o, d);
    assert o in OidsOf(agent, device) ==> OwnedBy(agent, o, device);
  }

  lemma RemovedKeys(agent: Agent, device: DeviceId)
    requires agent.oidMap.Keys == agent.dataTypes.Keys
    ensures Removed(agent, device).oidMap.Keys == Removed(agent, device).dataTypes.Keys
  {
    forall o
      ensures o in Removed(agent, device).oidMap <==> o in Removed(agent, device).dataTypes
    {
      RemovedMap(agent, device, o);
    }
  }

  lemma RemovedConsistent(agent: Agent, device: DeviceId)
    requires Consistent(agent)
    ensures Consistent(Removed(agent, device))
  {
    var after := Removed(agent, device);
    RemovedKeys(agent, device);
    forall o | o in after.oidMap
      ensures OwnedBy(after, o, after.oidMap[o].device)
    {
      RemovedOwner(agent, device, o);
    }
    forall d, o | OwnedBy(after, o, d)
      ensures o in after.oidMap && after.oidMap[o].device == d
    {
      RemovedListed(agent, device, d, o);
    }
  }

  /** A conflicting registration changes nothing of the map, the lists or the cache. */
  lemma RejectionLeavesNoTrace(agent: Agent, device: DeviceId)
    ensures Rejected(agent, device) == agent <==> device !in agent.stats
  {
    if device in agent.stats {
      assert device !in Rejected(agent, device).stats;
    } else {
      assert agent.stats - {device} == agent.stats;
    }
  }

  /** The device is not registered, or the add is accepted and lists all its old OIDs again. */
  ghost predicate SafeAdd(agent: Agent, device: DeviceId, registers: seq<OidRegister>) {
    || device !in agent.deviceOids
    || (!Conflicting(agent.oidMap, device, registers) &&
        forall o <- agent.deviceOids[device] :: o in OwnedOids(registers))
  }

  /** Exactly when an add keeps the agent consistent. */
  lemma AddConsistentExactly(agent: Agent, device: DeviceId, registers: seq<OidRegister>)
    requires Consistent(agent)
    ensures Consistent(Stepped(agent, Add(device, registers))) <==> SafeAdd(agent, device, registers)
  {
    var after := Stepped(agent, Add(device, registers));
    if Conflicting(agent.oidMap, device, registers) {
      if device !in agent.deviceOids {
        RejectionLeavesNoTrace(agent, device);
      } else {
        assert device in after.deviceOids && device !in after.stats;
      }
    } else if SafeAdd(agent, device, registers) {
      LiveAddConsistent(agent, device, registers);
    } else {
      var o :| o in agent.deviceOids[device] && o !in OwnedOids(registers);
      InsertedMap(agent, device, registers);
      assert OwnedBy(agent, o, device);
      assert after.oidMap[o].device == device && !OwnedBy(after, o, device);
    }
  }

  datatype Event = Add(device: DeviceId, registers: seq<OidRegister>) | Remove(device: DeviceId) | StopAgent

  ghost function Stepped(agent: Agent, e: Event): Agent {
    match e
    case Add(device, registers) =>
      if Conflicting(agent.oidMap, device, registers) then Rejected(agent, device)
      else Added(agent, device, registers)
    case Remove(device) => Removed(agent, device)
    case StopAgent => EMPTY
  }

  ghost function Run(events: seq<Event>): Agent {
    if events == [] then EMPTY else Stepped(Run(events[..|events| - 1]), events[|events| - 1])
  }

  /** The cache and the types go with the map after every history whatsoever. */
  lemma {:induction false} CacheEnumeratesMap(events: seq<Event>)
    ensures Enumerates(Run(events).sortedOids, Run(events).oidMap.Keys)
    ensures Run(events).oidMap.Keys == Run(events).dataTypes.Keys
  {
    if events != [] {
      var n := |events| - 1;
      var before := Run(events[..n]);
      CacheEnumeratesMap(events[..n]);
      match events[n]
      case Add(device, registers) => InsertedMap(before, device, registers);
      case Remove(device) => RemovedKeys(before, device);
      case StopAgent =>
    }
  }

  lemma StepConsistentExactly(agent: Agent, e: Event)
    requires Consistent(agent)
    ensures Consistent(Stepped(agent, e)) <==> (e.Add? ==> SafeAdd(agent, e.device, e.registers))
  {
    match e
    case Add(device, registers) => AddConsistentExactly(agent, device, registers);
    case Remove(device) => RemovedConsistent(agent, device);
    case StopAgent => assert Consistent(EMPTY);
  }

  ghost predicate SafeAt(events: seq<Event>, n: nat)
    requires n < |events|
  {
    events[n].Add? ==> SafeAdd(Run(events[..n]), events[n].device, events[n].registers)
  }

  ghost predicate SafeAdds(events: seq<Event>) {
    forall n :: 0 <= n < |events| ==> SafeAt(events, n)
  }

  ghost predicate ConsistentAt(events: seq<Event>, n: nat)
    requires n <= |events|
  {
    Consistent(Run(events[..n]))
  }

  ghost predicate AlwaysConsistent(events: seq<Event>) {
    forall n :: 0 <= n <= |events| ==> ConsistentAt(events, n)
  }

  lemma NextConsistentExactly(events: seq<Event>, n: nat)
    requires n < |events| && ConsistentAt(events, n)
    ensures ConsistentAt(events, n + 1) <==> SafeAt(events, n)
  {
    assert events[..n + 1][..n] == events[..n];
    StepConsistentExactly(Run(events[..n]), events[n]);
  }

  lemma {:induction false} SafeIsConsistent(events: seq<Event>, n: nat)
    requires n <= |events| && SafeAdds(events)
    ensures ConsistentAt(events, n)
  {
    if n == 0 {
      assert events[..0] == [];
    } else {
      SafeIsConsistent(events, n - 1);
      NextConsistentExactly(events, n - 1);
    }
  }

  /**
   Exactly when the map stays the union of what live devices own all through a
   history of adds, accepted or rejected, removes and stops: every add is safe.
   */
  lemma HistoriesAreConsistent(events: seq<Event>)
    ensures AlwaysConsistent(events) <==> SafeAdds(events)
  {
    if SafeAdds(events) {
      forall n: nat | n <= |events|
        ensures ConsistentAt(events, n)
      {
        SafeIsConsistent(events, n);
      }
    }
    if AlwaysConsistent(events) {
      forall n: nat | n < |events|
        ensures SafeAt(events, n)
      {
        assert ConsistentAt(events, n) && ConsistentAt(events, n + 1);
        NextConsistentExactly(events, n);
      }
    }
  }

  /** Added again without its OID, a device leaves it behind in the map. */
  lemma AddedAgainLeavesOid(d: DeviceId, r: OidRegister)
    requires r.HasOid()
    ensures var agent := Run([Add(d, [r])] + [Add(d, [])]);
      r.oid.value in agent.oidMap && agent.oidMap[r.oid.value].device == d && !OwnedBy(agent, r.oid.value, d)
  {
    assert ([Add(d, [r])] + [Add(d, [])])[..1] == [Add(d, [r])] && [Add(d, [r])][..0] == [];
    assert [r][..0] == [];
    assert OwnedOids([r]) == [r.oid.value];
    assert !Conflicting(Run([]).oidMap, d, [r]);
    assert Run([Add(d, [r])]) == Added(EMPTY, d, [r]);
    assert !Conflicting(Run([Add(d, [r])]).oidMap, d, []);
  }

  /** Rejected for another device's OID, a registered device stays registered but loses its statistics. */
  lemma RejectedAgainLosesStats(d: DeviceId, e: DeviceId, r: OidRegister)
    requires d != e && r.HasOid()
    ensures var agent := Run([Add(d, [])] + [Add(e, [r])] + [Add(d, [r])]);
      d in agent.deviceOids && d !in agent.stats && e in agent.stats
  {
    var one, two := [Add(d, [])], [Add(d, [])] + [Add(e, [r])];
    assert one[..0] == [] && two[..1] == one && (two + [Add(d, [r])])[..2] == two;
    OnlyTheFirst(d, e, r);
    assert Run(one) == Stepped(EMPTY, Add(d, []));
    RejectedAfterwards(Run(two), d, e, r);
  }

  /** Registered after it, the other device owns the OID. */
  lemma OnlyTheFirst(d: DeviceId, e: DeviceId, r: OidRegister)
    requires d != e && r.HasOid()
    ensures var agent := Stepped(Stepped(EMPTY, Add(d, [])), Add(e, [r]));
      && d in agent.deviceOids && e in agent.stats
      && r.oid.value in agent.oidMap && agent.oidMap[r.oid.value].device == e
  {
    assert [r][..0] == [] && OwnedOids([r]) == [r.oid.value];
    var first := Added(EMPTY, d, []);
    assert Stepped(EMPTY, Add(d, [])) == first;
    assert !Conflicting(first.oidMap, e, [r]);
  }

  lemma RejectedAfterwards(agent: Agent, d: DeviceId, e: DeviceId, r: OidRegister)
    requires d != e && r.HasOid() && d in agent.deviceOids && e in agent.stats
    requires r.oid.value in agent.oidMap && agent.oidMap[r.oid.value].device == e
    ensures var after := Stepped(agent, Add(d, [r])); d in after.deviceOids && d !in after.stats && e in after.stats
  {
    assert r in [r] && Conflicts(agent.oidMap, d, r);
  }

  /** Live devices share no OID, and together they own all of them. */
  lemma MapIsDisjointUnion(agent: Agent)
    requires Consistent(agent)
    ensures forall d, e, o :: OwnedBy(agent, o, d) && OwnedBy(agent, o, e) ==> d == e
    ensures forall o :: o in agent.oidMap <==> exists d :: OwnedBy(agent, o, d)
  {
    forall d, o | OwnedBy(agent, o, d)
      ensures o in agent.oidMap && agent.oidMap[o].device == d
    {
    }
    forall o | o in agent.oidMap
      ensures exists d :: OwnedBy(agent, o, d)
    {
      assert OwnedBy(agent, o, agent.oidMap[o].device);
    }
  }

  ghost predicate LeastAbove(next: Oid, oid: Oid, oids: set<Oid>) {
    && next in oids && Less(oid, next)
    && forall o <- oids :: Less(oid, o) ==> o == next || Less(next, o)
  }

  /** `get_next_oid` is the least registered OID strictly above its argument. */
  lemma NextIsLeastAbove(agent: Agent, oid: Oid)
    requires Enumerates(agent.sortedOids, agent.oidMap.Keys)
    ensures match NextOid(agent.sortedOids, oid)
      case None => forall o <- agent.oidMap :: !Less(oid, o)
      case Some(next) => LeastAbove(next, oid, agent.oidMap.Keys)
  {
    var s := agent.sortedOids;
    var k := FirstAbove(s, oid);
    forall o | o in agent.oidMap && Less(oid, o)
      ensures k < |s| && (o == s[k] || Less(s[k], o))
    {
      var i :| 0 <= i < |s| && s[i] == o;
      assert k <= i;
    }
    if k < |s| {
      assert s[k] in s;
    }
  }
}
