/** Where each SNMP answer comes from: the register that owns the OID, and the simulation's value for it. */
module SnmpReplies {
  import opened Prelude
  import opened Oids
  import opened ProtocolBase
  import opened SnmpAgent
  import opened SnmpHistories
  import opened SnmpWalk

  // --- Who owns an OID ---

  /** The last register of a list with this OID. */
  function RegisterFor(registers: seq<OidRegister>, o: Oid): Option<OidRegister> {
    if registers == [] then None
    else
      var last := registers[|registers| - 1];
      if last.oid == Some(o) && o != [] then Some(last) else RegisterFor(registers[..|registers| - 1], o)
  }

  /** Values are looked up by the register's name, or by the OID where it has none. */
  function LookupKey(r: OidRegister, o: Oid): RegisterKey {
    if r.name == None || r.name == Some("") then ByOid(o) else Named(r.name.value)
  }

  lemma {:induction false} InsertedOid(agent: Agent, d: DeviceId, registers: seq<OidRegister>, o: Oid)
    ensures var after := Inserted(agent, d, registers);
      match RegisterFor(registers, o)
      case Some(r) =>
        && Get(after.oidMap, o) == Some(Entry(d, LookupKey(r, o)))
        && Get(after.dataTypes, o) == Some(r.dataType)
      case None => Get(after.oidMap, o) == Get(agent.oidMap, o) && Get(after.dataTypes, o) == Get(agent.dataTypes, o)
    ensures o in OwnedOids(registers) <==> RegisterFor(registers, o).Some?
  {
    if registers != [] {
      InsertedOid(agent, d, registers[..|registers| - 1], o);
    }
  }

  /** Another device already has one of the OIDs. */
  ghost predicate Taken(agent: Agent, d: DeviceId, registers: seq<OidRegister>) {
    exists n :: 0 <= n < |registers| && TakenAt(agent, d, registers, n)
  }

  predicate TakenAt(agent: Agent, d: DeviceId, registers: seq<OidRegister>, n: nat)
    requires n < |registers|
  {
    var oid := registers[n].oid;
    oid.Some? && oid.value != [] && oid.value in agent.oidMap && agent.oidMap[oid.value].device != d
  }

  lemma TakenExactly(agent: Agent, d: DeviceId, registers: seq<OidRegister>)
    ensures Taken(agent, d, registers) <==> Conflicting(agent.oidMap, d, registers)
  {
    if r :| r in registers && Conflicts(agent.oidMap, d, r) {
      var n :| 0 <= n < |registers| && registers[n] == r;
      assert TakenAt(agent, d, registers, n);
    }
    if n :| 0 <= n < |registers| && TakenAt(agent, d, registers, n) {
      assert registers[n] in registers && Conflicts(agent.oidMap, d, registers[n]);
    }
  }

  /** The owner and the type of one OID, event by event. */
  lemma StepByOid(agent: Agent, e: Event, o: Oid)
    ensures var after := Stepped(agent, e);
      var owner, kind := Get(after.oidMap, o), Get(after.dataTypes, o);
      if e.StopAgent? then owner == None && kind == None
      else if e.Remove? && e.device in agent.deviceOids && o in agent.deviceOids[e.device] then
        owner == None && kind == None
      else if e.Add? && !Taken(agent, e.device, e.registers) && RegisterFor(e.registers, o).Some? then
        var r := RegisterFor(e.registers, o).value;
        owner == Some(Entry(e.device, LookupKey(r, o))) && kind == Some(r.dataType)
      else owner == Get(agent.oidMap, o) && kind == Get(agent.dataTypes, o)
  {
    match e
    case StopAgent =>
    case Remove(d) =>
      WithoutOid(agent.oidMap, OidsOf(agent, d), o);
      WithoutOid(agent.dataTypes, OidsOf(agent, d), o);
    case Add(d, registers) =>
      TakenExactly(agent, d, registers);
      InsertedOid(agent, d, registers, o);
  }

  lemma {:induction false} WithoutOid<V>(m: map<Oid, V>, oids: seq<Oid>, o: Oid)
    ensures Get(Without(m, oids), o) == if o in oids then None else Get(m, o)
  {
    if oids != [] {
      WithoutOid(m, oids[..|oids| - 1], o);
      assert oids == oids[..|oids| - 1] + [oids[|oids| - 1]];
    }
  }

  ghost predicate ListsOids(oids: seq<Oid>, registers: seq<OidRegister>) {
    forall o :: o in oids <==> RegisterFor(registers, o).Some?
  }

  /** The OIDs and the counters of one device, event by event. */
  lemma StepByDevice(agent: Agent, e: Event, d: DeviceId)
    ensures var listed, counted := Get(Stepped(agent, e).deviceOids, d), Get(Stepped(agent, e).stats, d);
      if e.StopAgent? || e == Remove(d) then listed == None && counted == None
      else if e.Remove? || e.device != d then listed == Get(agent.deviceOids, d) && counted == Get(agent.stats, d)
      else if Taken(agent, d, e.registers) then listed == Get(agent.deviceOids, d) && counted == None
      else counted == Some(DeviceStats(0, 0, 0)) && listed.Some? && ListsOids(listed.value, e.registers)
  {
    match e
    case StopAgent =>
    case Remove(_) =>
    case Add(d', registers) =>
      TakenExactly(agent, d', registers);
      InsertedFrame(agent, d', registers);
      forall o
        ensures o in OwnedOids(registers) <==> RegisterFor(registers, o).Some?
      {
        InsertedOid(agent, d', registers, o);
      }
  }

  // --- What GETNEXT answers ---

  /** The simulation holds a value for the register that owns the OID. */
  predicate HasValue(agent: Agent, world: World, o: Oid) {
    && o in agent.oidMap && agent.oidMap[o].device in world.values
    && agent.oidMap[o].register in world.values[agent.oidMap[o].device]
  }

  function ValueAt(agent: Agent, world: World, o: Oid): real
    requires HasValue(agent, world, o)
  {
    world.values[agent.oidMap[o].device][agent.oidMap[o].register]
  }

  predicate InError(agent: Agent, world: World, o: Oid) {
    o in agent.oidMap && agent.oidMap[o].device in world.faulted
  }

  /** No registered OID strictly between the two has a value or is in error. */
  ghost predicate SilentBetween(agent: Agent, world: World, low: Oid, high: Oid) {
    forall o <- agent.oidMap | Less(low, o) && Less(o, high) ::
      !HasValue(agent, world, o) && !InError(agent, world, o)
  }

  ghost predicate SilentAbove(agent: Agent, world: World, low: Oid) {
    forall o <- agent.oidMap :: Less(low, o) ==> !HasValue(agent, world, o) && !InError(agent, world, o)
  }

  /** The answer to a request for what follows an OID. */
  ghost predicate AnswersRequest(agent: Agent, world: World, low: Oid, reply: Reply) {
    match reply
    case Value(o, value, dataType) =>
      && Less(low, o) && HasValue(agent, world, o) && !InError(agent, world, o)
      && value == ValueAt(agent, world, o) && Get(agent.dataTypes, o) == Some(dataType)
      && SilentBetween(agent, world, low, o)
    case GenErr => exists o :: o in agent.oidMap && FirstError(agent, world, low, o)
    case EndOfMibView => SilentAbove(agent, world, low)
  }

  ghost predicate FirstError(agent: Agent, world: World, low: Oid, o: Oid) {
    Less(low, o) && InError(agent, world, o) && SilentBetween(agent, world, low, o)
  }

  lemma ResolveIs(agent: Agent, world: World, o: Oid)
    requires o in agent.oidMap && agent.dataTypes.Keys == agent.oidMap.Keys
    ensures Resolve(agent, world, o) ==
      if HasValue(agent, world, o) then Some((ValueAt(agent, world, o), agent.dataTypes[o])) else None
  {
  }

  /** The scan stops at position j, after nothing but silent OIDs from position k on. */
  ghost predicate ScansTo(agent: Agent, world: World, k: nat, j: nat)
    requires k <= j <= |agent.sortedOids|
  {
    && (forall i :: k <= i < j ==> SilentAt(agent, world, i))
    && ScanFrom(agent, world, k) == ScanFrom(agent, world, j)
    && (j < |agent.sortedOids| ==> !SilentAt(agent, world, j))
  }

  predicate SilentAt(agent: Agent, world: World, i: nat)
    requires i < |agent.sortedOids|
  {
    !HasValue(agent, world, agent.sortedOids[i]) && !InError(agent, world, agent.sortedOids[i])
  }

  lemma {:induction false} ScanStops(agent: Agent, world: World, k: nat) returns (j: nat)
    requires k <= |agent.sortedOids| && agent.dataTypes.Keys == agent.oidMap.Keys
    requires forall o <- agent.sortedOids :: o in agent.oidMap
    ensures k <= j <= |agent.sortedOids| && ScansTo(agent, world, k, j)
    decreases |agent.sortedOids| - k
  {
    j := k;
    if k < |agent.sortedOids| && SilentAt(agent, world, k) {
      assert agent.sortedOids[k] in agent.sortedOids;
      ResolveIs(agent, world, agent.sortedOids[k]);
      j := ScanStops(agent, world, k + 1);
    }
  }

  /** Every registered OID above the requested one is in the cache from there on. */
  lemma AboveIsLater(agent: Agent, low: Oid, o: Oid) returns (i: nat)
    requires Enumerates(agent.sortedOids, agent.oidMap.Keys) && o in agent.oidMap && Less(low, o)
    ensures FirstAbove(agent.sortedOids, low) <= i < |agent.sortedOids| && agent.sortedOids[i] == o
  {
    i :| 0 <= i < |agent.sortedOids| && agent.sortedOids[i] == o;
  }

  lemma NextAnswers(agent: Agent, world: World, low: Oid)
    requires Enumerates(agent.sortedOids, agent.oidMap.Keys) && agent.dataTypes.Keys == agent.oidMap.Keys
    ensures AnswersRequest(agent, world, low, NextReply(agent, world, low))
  {
    var s, k := agent.sortedOids, FirstAbove(agent.sortedOids, low);
    var j := ScanStops(agent, world, k);
    forall o <- agent.oidMap | Less(low, o) && (j < |s| ==> Less(o, s[j]))
      ensures !HasValue(agent, world, o) && !InError(agent, world, o)
    {
      var i := AboveIsLater(agent, low, o);
      if i >= j {
        NotBelow(s, j, i);
      }
      assert SilentAt(agent, world, i);
    }
    if j < |s| {
      assert s[j] in s;
      FirstIsAbove(s, low, j);
      ResolveIs(agent, world, s[j]);
      assert SilentBetween(agent, world, low, s[j]);
      if InError(agent, world, s[j]) {
        assert FirstError(agent, world, low, s[j]);
      }
    }
  }

  lemma FirstIsAbove(s: seq<Oid>, low: Oid, j: nat)
    requires StrictlySorted(s) && FirstAbove(s, low) <= j < |s|
    ensures Less(low, s[j])
  {
    var k := FirstAbove(s, low);
    if k < j {
      LessTransitive(low, s[k], s[j]);
    }
  }

  lemma NotBelow(s: seq<Oid>, j: nat, i: nat)
    requires StrictlySorted(s) && j <= i < |s|
    ensures !Less(s[i], s[j])
  {
    if i == j {
      LessIrreflexive(s[i]);
    } else {
      LessAsymmetric(s[j], s[i]);
    }
  }

  /**
   After every history GETNEXT answers with the least OID above the requested one
   that has a value, and with the simulation's current value of the register that
   owns it and that register's type; with an error if a device in error comes first.
   */
  lemma NextAnswersAlways(events: seq<Event>, world: World, low: Oid)
    ensures AnswersRequest(Run(events), world, low, NextReply(Run(events), world, low))
  {
    CacheEnumeratesMap(events);
    NextAnswers(Run(events), world, low);
  }

  /** A whole walk without errors: exactly the OIDs that have a value, with those values and types. */
  lemma WalkAnswersValues(events: seq<Event>, world: World)
    requires forall o <- Run(events).oidMap :: !InError(Run(events), world, o)
    ensures StrictlySorted(Run(events).sortedOids)
    ensures var agent := Run(events);
      var replies := Walk(agent, world, []).0;
      && (forall r <- replies :: r.Value? && HasValue(agent, world, r.oid) && r.value == ValueAt(agent, world, r.oid)
                                 && Get(agent.dataTypes, r.oid) == Some(r.dataType))
      && (forall o <- agent.oidMap :: HasValue(agent, world, o) ==> exists r :: r in replies && r.Value? && r.oid == o)
  {
    var agent := Run(events);
    CacheEnumeratesMap(events);
    WalkEnumeratesMib(events, world);
    forall o <- agent.oidMap
      ensures Resolve(agent, world, o) ==
        if HasValue(agent, world, o) then Some((ValueAt(agent, world, o), agent.dataTypes[o])) else None
    {
      ResolveIs(agent, world, o);
    }
  }

  // --- The order of OIDs ---

  /** Python's tuple order: the first difference decides, and a prefix comes first. */
  lemma {:induction false} LessIsTupleOrder(a: Oid, b: Oid)
    ensures Less(a, b) <==> exists k :: DiffersAt(a, b, k)
  {
    if a != [] && b != [] && a[0] == b[0] {
      LessIsTupleOrder(a[1..], b[1..]);
      if k :| DiffersAt(a[1..], b[1..], k) {
        assert DiffersAt(a, b, k + 1);
      }
      if k :| DiffersAt(a, b, k) {
        assert DiffersAt(a[1..], b[1..], k - 1);
      }
    } else if Less(a, b) {
      assert DiffersAt(a, b, 0);
    }
  }

  ghost predicate DiffersAt(a: Oid, b: Oid, k: int) {
    && 0 <= k <= |a| && k < |b| && (forall i :: 0 <= i < k ==> a[i] == b[i])
    && (k == |a| || a[k] < b[k])
  }
}
