/** Importing a snapshot twice is importing it once, and devices it never mentions are left alone. */
module ImportLaws {
  import opened Prelude
  import opened Upserts
  import C = ConfigReplacement
  import opened Snapshots
  import opened ImportStages

  // --- Rows that went through an import once ---

  lemma TemplatesOverwrite()
    ensures Overwrites(TemplateTable())
  {
    var t := TemplateTable();
    forall prior: Option<Template>, d: TemplateExport | t.write(prior, d).Ok?
      ensures WrittenAlike(t, Some(t.write(prior, d).value), prior)
    {
      var row := t.write(prior, d).value;
      assert t.write(prior, d) == WriteTemplate(prior, d);
      assert forall e: TemplateExport ::
        t.write(Some(row), e) == WriteTemplate(Some(row), e) == WriteTemplate(prior, e) == t.write(prior, e);
    }
  }

  lemma DevicesOverwrite(templateIds: map<string, Id>)
    ensures Overwrites(DeviceTable(templateIds))
  {
    var t := DeviceTable(templateIds);
    forall prior: Option<Device>, d: DeviceExport | t.write(prior, d).Ok?
      ensures WrittenAlike(t, Some(t.write(prior, d).value), prior)
    {
      var row := t.write(prior, d).value;
      assert t.write(prior, d) == WriteDevice(templateIds, prior, d);
      assert forall e: DeviceExport :: WriteDevice(templateIds, Some(row), e) == WriteDevice(templateIds, prior, e);
      assert forall e: DeviceExport :: t.write(Some(row), e) == WriteDevice(templateIds, Some(row), e);
      assert forall e: DeviceExport :: t.write(prior, e) == WriteDevice(templateIds, prior, e);
    }
  }

  /** Brokers do not simply overwrite: a masked password keeps the one before it. */
  lemma {:induction false} BrokerRunsAgree(prior: Option<Broker>, y: Broker, es: seq<Broker>, name: string)
    ensures var a, b := After(BrokerTable(), prior, es, name), After(BrokerTable(), Some(y), es, name);
      && b.Some?
      && (b == Some(y) || (a.Some? && b.value.(password := a.value.password) == a.value &&
                           (b.value.password == a.value.password || b.value.password == y.password)))
    decreases |es|
  {
    if es != [] {
      var t, init, e := BrokerTable(), es[..|es| - 1], es[|es| - 1];
      BrokerRunsAgree(prior, y, init, name);
      var a, b := After(t, prior, init, name), After(t, Some(y), init, name);
      assert t.write(a, e) == Ok(WriteBroker(a, e)) && t.write(b, e) == Ok(WriteBroker(b, e));
    }
  }

  lemma BrokersTwice(prior: Option<Broker>, es: seq<Broker>, name: string)
    requires After(BrokerTable(), prior, es, name).Some?
    ensures var once := After(BrokerTable(), prior, es, name); After(BrokerTable(), once, es, name) == once
  {
    BrokerRunsAgree(prior, After(BrokerTable(), prior, es, name).value, es, name);
  }

  // --- Each section again ---

  lemma TemplateRowsAgain(db: Database, es: seq<TemplateExport>, db1: Database)
    requires Consistent(db) && TemplatesImported(db, es).Ok? && Consistent(db1)
    requires db1.templates == TemplatesImported(db, es).value.db.templates
    ensures TemplatesImported(db1, es).Ok? && TemplatesImported(db1, es).value.db == db1
  {
    var t, load, again := TemplateTable(), TemplateLoad(db), TemplateLoad(db1);
    TemplateTableLawful();
    TemplatesOverwrite();
    forall i <- again.rows
      ensures After(t, Some(again.rows[i]), es, t.rowKey(again.rows[i])) == Some(again.rows[i])
    {
      RowsFollowEntries(t, load, es, i);
      OverwrittenTwice(t, Get(load.rows, i), es, t.rowKey(again.rows[i]));
    }
    RerunChangesNothing(t, load, es, again);
  }

  lemma SameTemplateNames(a: map<string, Id>, b: map<string, Id>, db: Database)
    requires UniqueRows(db) && NamesTemplates(a, db) && NamesTemplates(b, db)
    ensures a == b
  {
    assert forall name <- a :: db.templates[a[name]].name in b;
    assert forall name <- b :: db.templates[b[name]].name in a;
  }

  lemma TemplatesAgain(db: Database, es: seq<TemplateExport>, db1: Database)
    requires Consistent(db) && TemplatesImported(db, es).Ok? && Consistent(db1)
    requires db1.templates == TemplatesImported(db, es).value.db.templates
    ensures TemplatesImported(db1, es) == Ok(Stage(db1, TemplatesImported(db, es).value.templateIds, map[], map[]))
  {
    TemplateRowsAgain(db, es, db1);
    TemplatesKeepConsistent(db, es);
    TemplatesKeepConsistent(db1, es);
    var p, q := TemplatesImported(db, es).value, TemplatesImported(db1, es).value;
    assert NamesTemplates(p.templateIds, db1);
    SameTemplateNames(p.templateIds, q.templateIds, db1);
  }

  lemma BrokerRowsAgain(p: Stage, es: seq<Broker>, p1: Stage)
    requires Consistent(p.db) && Consistent(p1.db)
    requires BrokersImported(p, es).Ok? && p1.db.brokers == BrokersImported(p, es).value.db.brokers
    ensures BrokersImported(p1, es).Ok? && BrokersImported(p1, es).value.db == p1.db
  {
    var t, load, again := BrokerTable(), BrokerLoad(p.db), BrokerLoad(p1.db);
    BrokerTableLawful();
    forall i <- again.rows
      ensures After(t, Some(again.rows[i]), es, t.rowKey(again.rows[i])) == Some(again.rows[i])
    {
      RowsFollowEntries(t, load, es, i);
      BrokersTwice(Get(load.rows, i), es, t.rowKey(again.rows[i]));
    }
    RerunChangesNothing(t, load, es, again);
  }

  lemma SameBrokerNames(a: map<string, Id>, b: map<string, Id>, db: Database)
    requires UniqueRows(db) && NamesBrokers(a, db) && NamesBrokers(b, db)
    ensures a == b
  {
    assert forall name <- a :: db.brokers[a[name]].name in b;
    assert forall name <- b :: db.brokers[b[name]].name in a;
  }

  lemma BrokersAgain(p: Stage, es: seq<Broker>, p1: Stage)
    requires Consistent(p.db) && Consistent(p1.db)
    requires BrokersImported(p, es).Ok? && p1.db.brokers == BrokersImported(p, es).value.db.brokers
    ensures BrokersImported(p1, es) == Ok(p1.(brokerIds := BrokersImported(p, es).value.brokerIds))
  {
    BrokerRowsAgain(p, es, p1);
    BrokersKeepConsistent(p, es);
    BrokersKeepConsistent(p1, es);
    var q, q1 := BrokersImported(p, es).value, BrokersImported(p1, es).value;
    assert NamesBrokers(q.brokerIds, p1.db);
    SameBrokerNames(q.brokerIds, q1.brokerIds, p1.db);
  }

  // --- What device names lead to ---

  ghost predicate NamesEntry(es: seq<DeviceExport>, name: string) {
    exists e :: e in es && e.name == name
  }

  ghost predicate KeyedEntry(es: seq<DeviceExport>, key: DeviceKey) {
    exists e :: e in es && (e.slave, e.port) == key
  }

  lemma {:induction false} LastKeyIsEntry(templateIds: map<string, Id>, es: seq<DeviceExport>, name: string)
    ensures LastKey(DeviceTable(templateIds), es, name).Some? <==> NamesEntry(es, name)
    ensures LastKey(DeviceTable(templateIds), es, name).Some? ==>
      KeyedEntry(es, LastKey(DeviceTable(templateIds), es, name).value)
    decreases |es|
  {
    if es != [] {
      var init, e := es[..|es| - 1], es[|es| - 1];
      LastKeyIsEntry(templateIds, init, name);
      assert es == init + [e] && e in es;
      assert forall d <- init :: d in es;
    }
  }

  /** Earlier in the row order. */
  ghost predicate Before(order: seq<Id>, i: Id, j: Id) {
    exists a, b :: 0 <= a < b < |order| && order[a] == i && order[b] == j
  }

  ghost predicate CarriesName(devices: map<Id, Device>, order: seq<Id>, i: Id, name: string) {
    i in order && i in devices && devices[i].name == name
  }

  ghost predicate SomeCarries(devices: map<Id, Device>, order: seq<Id>, name: string) {
    exists i :: CarriesName(devices, order, i, name)
  }

  ghost predicate IsFirst(devices: map<Id, Device>, order: seq<Id>, i: Id, name: string) {
    CarriesName(devices, order, i, name) &&
    forall j :: CarriesName(devices, order, j, name) ==> j == i || Before(order, i, j)
  }

  /** A name the snapshot does not assign leads to the first stored device that carries it. */
  lemma {:induction false} FirstStored(ids: map<string, Id>, devices: map<Id, Device>, order: seq<Id>, name: string)
    ensures var m := WithStoredNames(ids, devices, order);
      && (name in ids ==> name in m && m[name] == ids[name])
      && (name !in ids ==> (name in m <==> SomeCarries(devices, order, name)))
      && (name !in ids && name in m ==> IsFirst(devices, order, m[name], name))
    decreases |order|
  {
    if order != [] {
      var init, last := order[..|order| - 1], order[|order| - 1];
      FirstStored(ids, devices, init, name);
      assert order == init + [last];
      forall i, j | Before(init, i, j)
        ensures Before(order, i, j)
      {
        var a, b :| 0 <= a < b < |init| && init[a] == i && init[b] == j;
        assert order[a] == i && order[b] == j;
      }
      forall i | i in init
        ensures Before(order, i, last)
      {
        var a :| 0 <= a < |init| && init[a] == i;
        assert order[a] == i && order[|order| - 1] == last;
      }
      forall i
        ensures CarriesName(devices, order, i, name) <==>
          CarriesName(devices, init, i, name) || (i == last && CarriesName(devices, order, last, name))
      {
      }
      var before, m := WithStoredNames(ids, devices, init), WithStoredNames(ids, devices, order);
      if name !in ids && name in before {
        assert CarriesName(devices, order, before[name], name);
      } else if name !in ids && name in m {
        assert CarriesName(devices, order, last, name);
      }
    }
  }

  // --- Devices the snapshot does not reach ---

  lemma {:induction false} WrittenRowsNamed(
      templateIds: map<string, Id>, prior: Option<Device>, es: seq<DeviceExport>, key: DeviceKey)
    requires Writable(DeviceTable(templateIds), es)
    ensures var after := After(DeviceTable(templateIds), prior, es, key);
      if KeyedEntry(es, key) then after.Some? && NamesEntry(es, after.value.name) else after == prior
    decreases |es|
  {
    if es != [] {
      var t, init, e := DeviceTable(templateIds), es[..|es| - 1], es[|es| - 1];
      assert es == init + [e] && e in es;
      assert forall d <- init :: d in es;
      WrittenRowsNamed(templateIds, prior, init, key);
      var before := After(t, prior, init, key);
      assert t.write(before, e) == WriteDevice(templateIds, before, e);
      assert t.write(None, e) == WriteDevice(templateIds, None, e);
    }
  }

  /** A row the entries leave without an assigned name is a stored one they do not write. */
  lemma UnnamedRowIsStored(p: Stage, order: seq<Id>, es: seq<DeviceExport>, i: Id)
    requires Consistent(p.db) && DevicesImported(p, order, es).Ok?
    requires var devices := DevicesImported(p, order, es).value.db.devices;
      i in devices && (!NamesEntry(es, devices[i].name) || !KeyedEntry(es, KeyOf(devices[i])))
    ensures var devices := DevicesImported(p, order, es).value.db.devices;
      i in p.db.devices && p.db.devices[i] == devices[i] && !KeyedEntry(es, KeyOf(devices[i]))
  {
    var t, load := DeviceTable(p.templateIds), DeviceLoad(p.templateIds, p.db);
    var row := DevicesImported(p, order, es).value.db.devices[i];
    DeviceTableLawful(p.templateIds);
    AcceptedExactly(t, load, es);
    RowsFollowEntries(t, load, es, i);
    WrittenRowsNamed(p.templateIds, Get(load.rows, i), es, KeyOf(row));
    assert t.rowKey(row) == KeyOf(row);
  }

  /** The device of a row key the snapshot has. */
  ghost predicate Keyed(devices: map<Id, Device>, es: seq<DeviceExport>, i: Id) {
    i in devices && KeyedEntry(es, KeyOf(devices[i]))
  }

  /**
   Where a name leads once the devices are imported: to a device of the snapshot if
   an entry assigns it, else to the first stored device of that name, if any.
   */
  lemma DeviceNameExactly(p: Stage, order: seq<Id>, es: seq<DeviceExport>, name: string)
    requires Consistent(p.db) && DevicesImported(p, order, es).Ok?
    ensures var q := DevicesImported(p, order, es).value;
      if NamesEntry(es, name) then name in q.deviceIds && Keyed(q.db.devices, es, q.deviceIds[name])
      else
        && (name in q.deviceIds <==> SomeCarries(q.db.devices, order, name))
        && (name in q.deviceIds ==>
              IsFirst(q.db.devices, order, q.deviceIds[name], name) && !Keyed(q.db.devices, es, q.deviceIds[name]))
  {
    var t, load := DeviceTable(p.templateIds), DeviceLoad(p.templateIds, p.db);
    var out := Upserted(t, load, es).value;
    DeviceTableLawful(p.templateIds);
    IndexFollowsLastEntry(t, load, es, name);
    LastKeyIsEntry(p.templateIds, es, name);
    FirstStored(out.index, out.rows, order, name);
    var ids := DevicesImported(p, order, es).value.deviceIds;
    if !NamesEntry(es, name) && name in ids {
      UnnamedRowIsStored(p, order, es, ids[name]);
    }
  }

  // --- The device section again ---

  ghost predicate Unmentioned(es: seq<DeviceExport>, d: Device) {
    !NamesEntry(es, d.name) && !KeyedEntry(es, KeyOf(d))
  }

  lemma DeviceRowsAgain(p: Stage, order: seq<Id>, es: seq<DeviceExport>, p1: Stage, order1: seq<Id>)
    requires Consistent(p.db) && DevicesImported(p, order, es).Ok? && Consistent(p1.db)
    requires p1.templateIds == p.templateIds && p1.db.devices == DevicesImported(p, order, es).value.db.devices
    ensures DevicesImported(p1, order1, es).Ok? && DevicesImported(p1, order1, es).value.db == p1.db
  {
    var t, load, again := DeviceTable(p.templateIds), DeviceLoad(p.templateIds, p.db), DeviceLoad(p.templateIds, p1.db);
    DeviceTableLawful(p.templateIds);
    DevicesOverwrite(p.templateIds);
    forall i <- again.rows
      ensures After(t, Some(again.rows[i]), es, t.rowKey(again.rows[i])) == Some(again.rows[i])
    {
      RowsFollowEntries(t, load, es, i);
      OverwrittenTwice(t, Get(load.rows, i), es, t.rowKey(again.rows[i]));
    }
    RerunChangesNothing(t, load, es, again);
  }

  /** What the upsert loop recorded for a name: the device of the last entry of that name. */
  function Recorded(p: Stage, es: seq<DeviceExport>): map<string, Id>
    requires UniqueRows(p.db) && IdsIssued(p.db)
    requires Upserted(DeviceTable(p.templateIds), DeviceLoad(p.templateIds, p.db), es).Ok?
  {
    Upserted(DeviceTable(p.templateIds), DeviceLoad(p.templateIds, p.db), es).value.index
  }

  lemma RecordedAgain(p: Stage, order: seq<Id>, es: seq<DeviceExport>, p1: Stage, order1: seq<Id>, name: string)
    requires Consistent(p.db) && DevicesImported(p, order, es).Ok? && Consistent(p1.db)
    requires p1.templateIds == p.templateIds && p1.db.devices == DevicesImported(p, order, es).value.db.devices
    requires DevicesImported(p1, order1, es).Ok? && DevicesImported(p1, order1, es).value.db == p1.db
    ensures Get(Recorded(p, es), name) == Get(Recorded(p1, es), name)
    ensures name in Recorded(p, es) <==> NamesEntry(es, name)
  {
    var t, load, again := DeviceTable(p.templateIds), DeviceLoad(p.templateIds, p.db), DeviceLoad(p.templateIds, p1.db);
    DeviceTableLawful(p.templateIds);
    IndexFollowsLastEntry(t, load, es, name);
    IndexFollowsLastEntry(t, again, es, name);
    LastKeyIsEntry(p.templateIds, es, name);
    UpsertedKeeps(t, load, es);
    if name in Recorded(p, es) {
      var i, j := Recorded(p, es)[name], Recorded(p1, es)[name];
      assert t.rowKey(p1.db.devices[i]) == t.rowKey(p1.db.devices[j]);
    }
  }

  /** The two scans meet the same unmentioned devices. */
  lemma CandidatesAgain(
      p: Stage, order: seq<Id>, es: seq<DeviceExport>, p1: Stage, order1: seq<Id>, name: string, i: Id)
    requires Consistent(p.db) && DevicesImported(p, order, es).Ok?
    requires p1.db.devices == DevicesImported(p, order, es).value.db.devices
    requires Lists(order, p.db.devices.Keys) && Lists(order1, p1.db.devices.Keys) && !NamesEntry(es, name)
    ensures CarriesName(p1.db.devices, order, i, name) <==> CarriesName(p1.db.devices, order1, i, name)
    ensures CarriesName(p1.db.devices, order, i, name) ==>
      i in p.db.devices && p.db.devices[i].name == name && Unmentioned(es, p.db.devices[i])
  {
    if i in p1.db.devices && p1.db.devices[i].name == name {
      UnnamedRowIsStored(p, order, es, i);
    }
  }

  /** A name that an entry assigns leads to the same device in the second import. */
  lemma AssignedNameAgain(
      p: Stage, order: seq<Id>, es: seq<DeviceExport>, p1: Stage, order1: seq<Id>, name: string)
    requires Consistent(p.db) && DevicesImported(p, order, es).Ok? && Consistent(p1.db)
    requires p1.templateIds == p.templateIds && p1.db.devices == DevicesImported(p, order, es).value.db.devices
    requires Lists(order, p.db.devices.Keys) && Lists(order1, p1.db.devices.Keys)
    requires DevicesImported(p1, order1, es).Ok? && DevicesImported(p1, order1, es).value.db == p1.db
    requires NamesEntry(es, name)
    ensures var m, m1 := DevicesImported(p, order, es).value.deviceIds, DevicesImported(p1, order1, es).value.deviceIds;
      name in m && Get(m, name) == Get(m1, name)
  {
    RecordedAgain(p, order, es, p1, order1, name);
    FirstStored(Recorded(p, es), p1.db.devices, order, name);
    FirstStored(Recorded(p1, es), p1.db.devices, order1, name);
  }

  lemma CarriedAgain(
      p: Stage, order: seq<Id>, es: seq<DeviceExport>, p1: Stage, order1: seq<Id>, name: string)
    requires Consistent(p.db) && DevicesImported(p, order, es).Ok?
    requires p1.db.devices == DevicesImported(p, order, es).value.db.devices
    requires Lists(order, p.db.devices.Keys) && Lists(order1, p1.db.devices.Keys) && !NamesEntry(es, name)
    ensures SomeCarries(p1.db.devices, order, name) <==> SomeCarries(p1.db.devices, order1, name)
  {
    forall i
      ensures CarriesName(p1.db.devices, order, i, name) <==> CarriesName(p1.db.devices, order1, i, name)
    {
      CandidatesAgain(p, order, es, p1, order1, name, i);
    }
  }

  /** Any other name is known to both or to none. */
  lemma OtherNameAgain(
      p: Stage, order: seq<Id>, es: seq<DeviceExport>, p1: Stage, order1: seq<Id>, name: string)
    requires Consistent(p.db) && DevicesImported(p, order, es).Ok? && Consistent(p1.db)
    requires p1.templateIds == p.templateIds && p1.db.devices == DevicesImported(p, order, es).value.db.devices
    requires Lists(order, p.db.devices.Keys) && Lists(order1, p1.db.devices.Keys)
    requires DevicesImported(p1, order1, es).Ok? && DevicesImported(p1, order1, es).value.db == p1.db
    requires !NamesEntry(es, name)
    ensures name in DevicesImported(p, order, es).value.deviceIds
       <==> name in DevicesImported(p1, order1, es).value.deviceIds
  {
    DeviceNameExactly(p, order, es, name);
    DeviceNameExactly(p1, order1, es, name);
    CarriedAgain(p, order, es, p1, order1, name);
  }

  /** Two names share a device only if entries assign both. */
  lemma SharedAreAssigned(p: Stage, order: seq<Id>, es: seq<DeviceExport>, a: string, b: string)
    requires Consistent(p.db) && DevicesImported(p, order, es).Ok? && a != b
    requires var ids := DevicesImported(p, order, es).value.deviceIds; a in ids && b in ids && ids[a] == ids[b]
    ensures NamesEntry(es, a) && NamesEntry(es, b)
  {
    DeviceNameExactly(p, order, es, a);
    DeviceNameExactly(p, order, es, b);
  }

  lemma DevicesAgain(p: Stage, order: seq<Id>, es: seq<DeviceExport>, p1: Stage, order1: seq<Id>)
    requires Consistent(p.db) && DevicesImported(p, order, es).Ok? && Consistent(p1.db)
    requires p1.templateIds == p.templateIds && p1.db.devices == DevicesImported(p, order, es).value.db.devices
    requires Lists(order, p.db.devices.Keys) && Lists(order1, p1.db.devices.Keys)
    ensures DevicesImported(p1, order1, es).Ok? && DevicesImported(p1, order1, es).value.db == p1.db
    ensures var q, q1 := DevicesImported(p, order, es).value, DevicesImported(p1, order1, es).value;
      C.SamePattern(q.deviceIds, q1.deviceIds)
  {
    DeviceRowsAgain(p, order, es, p1, order1);
    var m, m1 := DevicesImported(p, order, es).value.deviceIds, DevicesImported(p1, order1, es).value.deviceIds;
    forall name: string
      ensures name in m <==> name in m1
      ensures NamesEntry(es, name) ==> Get(m, name) == Get(m1, name)
    {
      if NamesEntry(es, name) {
        AssignedNameAgain(p, order, es, p1, order1, name);
      } else {
        OtherNameAgain(p, order, es, p1, order1, name);
      }
    }
    forall a <- m, b <- m
      ensures m[a] == m[b] <==> m1[a] == m1[b]
    {
      if a != b && m[a] == m[b] {
        SharedAreAssigned(p, order, es, a, b);
      } else if a != b && m1[a] == m1[b] {
        SharedAreAssigned(p1, order1, es, a, b);
      }
    }
  }

  // --- The sections that hang on devices again ---

  ghost predicate ConfigsName<R, S>(es: seq<C.ConfigExport<R, S>>, name: string) {
    exists e :: e in es && e.device == name
  }

  /** The two devices agree in each section that mentions the name. */
  ghost predicate AgreeWhere(db: Database, s: Snapshot, name: string, i: Id, j: Id) {
    && (ConfigsName(s.simulations, name) ==> C.SameRows(db.simulations, i, j))
    && (ConfigsName(s.schedules, name) ==> C.SameRows(db.schedules, i, j))
    && (forall e <- s.publishes, b <- db.brokers :: e.device == name && db.brokers[b].name == e.broker ==>
          Get(db.publishes, (i, b)) == Get(db.publishes, (j, b)))
  }

  ghost predicate AllLeadAlike(db: Database, s: Snapshot, ids: map<string, Id>, ids1: map<string, Id>)
    requires ids.Keys == ids1.Keys
  {
    forall name <- ids :: AgreeWhere(db, s, name, ids[name], ids1[name])
  }

  lemma LeadAlikeByName(
      db: Database, s: Snapshot, ids: map<string, Id>, ids1: map<string, Id>, brokers: map<string, Id>)
    requires ids.Keys == ids1.Keys && UniqueRows(db) && NamesBrokers(brokers, db)
    ensures AllLeadAlike(db, s, ids, ids1) <==>
      && C.LeadAlike(ids, ids1, s.simulations, db.simulations)
      && C.LeadAlike(ids, ids1, s.schedules, db.schedules)
      && C.PublishAlike(ids, ids1, brokers, s.publishes, db.publishes)
  {
    if AllLeadAlike(db, s, ids, ids1) {
      assert forall e <- s.simulations | e.device in ids :: AgreeWhere(db, s, e.device, ids[e.device], ids1[e.device]);
      assert forall e <- s.schedules | e.device in ids :: AgreeWhere(db, s, e.device, ids[e.device], ids1[e.device]);
      assert forall e <- s.publishes | e.device in ids :: AgreeWhere(db, s, e.device, ids[e.device], ids1[e.device]);
    }
    forall e <- s.publishes, b <- db.brokers | db.brokers[b].name == e.broker
      ensures e.broker in brokers && brokers[e.broker] == b
    {
    }
  }

  lemma ConfigsAgain(p: Stage, s: Snapshot, p1: Stage)
    requires ConfigsImported(p, s).Ok? && C.SamePattern(p.deviceIds, p1.deviceIds)
    requires p1.db.simulations == ConfigsImported(p, s).value.db.simulations
    requires p1.db.schedules == ConfigsImported(p, s).value.db.schedules
    ensures ConfigsImported(p1, s).Ok?
    ensures ConfigsImported(p1, s).value.db == p1.db <==>
      && C.LeadAlike(p.deviceIds, p1.deviceIds, s.simulations, p1.db.simulations)
      && C.LeadAlike(p.deviceIds, p1.deviceIds, s.schedules, p1.db.schedules)
  {
    C.ReplaceAgainExactly(p.deviceIds, p.db.simulations, s.simulations, p1.deviceIds);
    C.ReplaceAgainExactly(p.deviceIds, p.db.schedules, s.schedules, p1.deviceIds);
  }

  lemma CompletedIs(p: Stage, s: Snapshot, q: Stage, b: Stage)
    requires Consistent(p.db) && NamesDevices(p.deviceIds, p.db)
    requires ConfigsImported(p, s) == Ok(q) && Consistent(q.db) && BrokersImported(q, BrokerEntries(s)) == Ok(b)
    ensures Completed(p, s) == Ok(PublishesImported(b, s.publishes))
  {
  }

  lemma PublishesAgain(b: Stage, es: seq<C.PublishExport<PublishSpec>>, b1: Stage)
    requires C.SamePattern(b.deviceIds, b1.deviceIds) && b1.brokerIds == b.brokerIds
    requires b1.db.publishes == PublishesImported(b, es).db.publishes
    ensures PublishesImported(b1, es).db == b1.db <==>
      C.PublishAlike(b.deviceIds, b1.deviceIds, b.brokerIds, es, b1.db.publishes)
  {
    C.PublishAgainExactly(b.deviceIds, b.brokerIds, b.db.publishes, es, b1.deviceIds);
  }

  lemma ConfigStage(p: Stage, s: Snapshot) returns (q: Stage)
    requires Consistent(p.db) && NamesDevices(p.deviceIds, p.db) && ConfigsImported(p, s).Ok?
    ensures ConfigsImported(p, s) == Ok(q) && Consistent(q.db)
    ensures q == p.(db := p.db.(simulations := q.db.simulations, schedules := q.db.schedules))
  {
    ConfigsKeepConsistent(p, s);
    q := ConfigsImported(p, s).value;
  }

  /** The stages an import goes through: after the configs, and after the brokers. */
  lemma StagesOf(p: Stage, s: Snapshot) returns (q: Stage, b: Stage)
    requires Consistent(p.db) && NamesDevices(p.deviceIds, p.db) && Completed(p, s).Ok?
    ensures ConfigsImported(p, s) == Ok(q) && Consistent(q.db) && BrokersImported(q, BrokerEntries(s)) == Ok(b)
    ensures Completed(p, s) == Ok(PublishesImported(b, s.publishes)) && NamesBrokers(b.brokerIds, b.db)
    ensures b.db == q.db.(brokers := b.db.brokers, nextId := b.db.nextId) && b.deviceIds == q.deviceIds == p.deviceIds
    ensures q.db == p.db.(simulations := q.db.simulations, schedules := q.db.schedules)
  {
    q := ConfigStage(p, s);
    BrokersKeepConsistent(q, BrokerEntries(s));
    b := BrokersImported(q, BrokerEntries(s)).value;
    CompletedIs(p, s, q, b);
  }

  /** The stages of the second import. */
  lemma StagesAgain(p: Stage, s: Snapshot, p1: Stage, q: Stage, b: Stage) returns (q1: Stage, b1: Stage)
    requires ConfigsImported(p, s) == Ok(q) && Consistent(q.db) && BrokersImported(q, BrokerEntries(s)) == Ok(b)
    requires p1.db.simulations == q.db.simulations && p1.db.schedules == q.db.schedules
    requires p1.db.brokers == b.db.brokers && C.SamePattern(p.deviceIds, p1.deviceIds)
    requires Consistent(p1.db) && NamesDevices(p1.deviceIds, p1.db)
    ensures ConfigsImported(p1, s) == Ok(q1) && Consistent(q1.db) && BrokersImported(q1, BrokerEntries(s)) == Ok(b1)
    ensures b1 == q1.(brokerIds := b.brokerIds) && b1.deviceIds == p1.deviceIds
  {
    ConfigsAgain(p, s, p1);
    q1 := ConfigStage(p1, s);
    BrokersAgain(q, BrokerEntries(s), q1);
    b1 := q1.(brokerIds := b.brokerIds);
  }

  lemma StagesAgree(p: Stage, s: Snapshot, p1: Stage, q: Stage, q1: Stage, b: Stage, b1: Stage)
    requires C.SamePattern(p.deviceIds, p1.deviceIds) && UniqueRows(p1.db)
    requires p1.db == PublishesImported(b, s.publishes).db
    requires ConfigsImported(p, s) == Ok(q) && ConfigsImported(p1, s) == Ok(q1)
    requires b.db.simulations == q.db.simulations && b.db.schedules == q.db.schedules
    requires b1 == q1.(brokerIds := b.brokerIds) && NamesBrokers(b.brokerIds, p1.db)
    requires b.deviceIds == p.deviceIds && b1.deviceIds == p1.deviceIds
    ensures PublishesImported(b1, s.publishes).db == p1.db <==> AllLeadAlike(p1.db, s, p.deviceIds, p1.deviceIds)
  {
    ConfigsAgain(p, s, p1);
    PublishesAgain(b, s.publishes, b1);
    LeadAlikeByName(p1.db, s, p.deviceIds, p1.deviceIds, b.brokerIds);
    TablesApart(p1.db, q1.db, PublishesImported(b1, s.publishes).db.publishes);
  }

  lemma TablesApart(db: Database, q: Database, publishes: map<(Id, Id), PublishSpec>)
    requires q == db.(simulations := q.simulations, schedules := q.schedules)
    ensures q.(publishes := publishes) == db <==> q == db && publishes == q.publishes
  {
  }

  lemma CompletedAgainExactly(p: Stage, s: Snapshot, p1: Stage)
    requires Consistent(p.db) && NamesDevices(p.deviceIds, p.db) && Completed(p, s).Ok?
    requires p1.db == Completed(p, s).value.db && C.SamePattern(p.deviceIds, p1.deviceIds)
    requires Consistent(p1.db) && NamesDevices(p1.deviceIds, p1.db)
    ensures Completed(p1, s).Ok?
    ensures Completed(p1, s).value.db == p1.db <==> AllLeadAlike(p1.db, s, p.deviceIds, p1.deviceIds)
  {
    var q, b := StagesOf(p, s);
    var q1, b1 := StagesAgain(p, s, p1, q, b);
    CompletedIs(p1, s, q1, b1);
    StagesAgree(p, s, p1, q, q1, b, b1);
  }

  // --- The whole import again ---

  lemma NeverBothBefore(order: seq<Id>, keys: set<Id>, i: Id, j: Id)
    requires Lists(order, keys) && Before(order, i, j)
    ensures !Before(order, j, i)
  {
  }

  lemma FirstIsUnique(devices: map<Id, Device>, order: seq<Id>, keys: set<Id>, name: string, i: Id, j: Id)
    requires Lists(order, keys) && IsFirst(devices, order, i, name) && IsFirst(devices, order, j, name)
    ensures i == j
  {
    assert CarriesName(devices, order, i, name) && CarriesName(devices, order, j, name);
    if Before(order, i, j) {
      NeverBothBefore(order, keys, i, j);
    }
  }

  /**
   Wherever the two imports find a different first device for a name the snapshot
   does not assign, the two devices agree in each section that mentions the name.
   */
  ghost predicate ScansAgree(db1: Database, s: Snapshot, order: seq<Id>, order1: seq<Id>) {
    forall name: string, i: Id, j: Id ::
      !NamesEntry(s.devices, name) && IsFirst(db1.devices, order, i, name) && IsFirst(db1.devices, order1, j, name) ==>
        AgreeWhere(db1, s, name, i, j)
  }

  lemma FirstIsLed(p: Stage, order: seq<Id>, es: seq<DeviceExport>, name: string, i: Id)
    requires Consistent(p.db) && DevicesImported(p, order, es).Ok? && Lists(order, p.db.devices.Keys)
    requires !NamesEntry(es, name) && IsFirst(DevicesImported(p, order, es).value.db.devices, order, i, name)
    ensures Get(DevicesImported(p, order, es).value.deviceIds, name) == Some(i)
  {
    var q := DevicesImported(p, order, es).value;
    DeviceNameExactly(p, order, es, name);
    assert CarriesName(q.db.devices, order, i, name);
    FirstIsUnique(q.db.devices, order, p.db.devices.Keys, name, i, q.deviceIds[name]);
  }

  /** What the two imports look up, in terms of their scans. */
  lemma AgreeAtName(p: Stage, order: seq<Id>, s: Snapshot, p1: Stage, order1: seq<Id>, db1: Database, name: string)
    requires Consistent(p.db) && DevicesImported(p, order, s.devices).Ok? && Consistent(p1.db)
    requires p1.templateIds == p.templateIds && p1.db.devices == DevicesImported(p, order, s.devices).value.db.devices
    requires Lists(order, p.db.devices.Keys) && Lists(order1, p1.db.devices.Keys)
    requires DevicesImported(p1, order1, s.devices).Ok? && DevicesImported(p1, order1, s.devices).value.db == p1.db
    requires db1.devices == p1.db.devices && ScansAgree(db1, s, order, order1)
    requires name in DevicesImported(p, order, s.devices).value.deviceIds
    requires name in DevicesImported(p1, order1, s.devices).value.deviceIds
    ensures AgreeWhere(db1, s, name, DevicesImported(p, order, s.devices).value.deviceIds[name],
                       DevicesImported(p1, order1, s.devices).value.deviceIds[name])
  {
    if NamesEntry(s.devices, name) {
      AssignedNameAgain(p, order, s.devices, p1, order1, name);
    } else {
      DeviceNameExactly(p, order, s.devices, name);
      DeviceNameExactly(p1, order1, s.devices, name);
    }
  }

  lemma ScansAgreeByName(
      p: Stage, order: seq<Id>, s: Snapshot, p1: Stage, order1: seq<Id>, db1: Database,
      ids: map<string, Id>, ids1: map<string, Id>)
    requires Consistent(p.db) && DevicesImported(p, order, s.devices).Ok? && Consistent(p1.db)
    requires p1.templateIds == p.templateIds && p1.db.devices == DevicesImported(p, order, s.devices).value.db.devices
    requires Lists(order, p.db.devices.Keys) && Lists(order1, p1.db.devices.Keys)
    requires DevicesImported(p1, order1, s.devices).Ok? && DevicesImported(p1, order1, s.devices).value.db == p1.db
    requires ids == DevicesImported(p, order, s.devices).value.deviceIds
    requires ids1 == DevicesImported(p1, order1, s.devices).value.deviceIds
    requires ids.Keys == ids1.Keys && db1.devices == p1.db.devices
    ensures AllLeadAlike(db1, s, ids, ids1) <==> ScansAgree(db1, s, order, order1)
  {
    if ScansAgree(db1, s, order, order1) {
      forall name <- ids
        ensures AgreeWhere(db1, s, name, ids[name], ids1[name])
      {
        AgreeAtName(p, order, s, p1, order1, db1, name);
      }
    }
    if AllLeadAlike(db1, s, ids, ids1) {
      forall name: string, i: Id, j: Id |
        !NamesEntry(s.devices, name) && IsFirst(db1.devices, order, i, name) && IsFirst(db1.devices, order1, j, name)
        ensures AgreeWhere(db1, s, name, i, j)
      {
        FirstIsLed(p, order, s.devices, name, i);
        FirstIsLed(p1, order1, s.devices, name, j);
        assert ids[name] == i && ids1[name] == j;
      }
    }
  }

  /** Templates and devices again, over what the first import left. */
  lemma PreparedAgain(db: Database, order: seq<Id>, s: Snapshot, db1: Database, order1: seq<Id>)
    requires Consistent(db) && Lists(order, db.devices.Keys) && Prepared(db, order, s).Ok?
    requires Consistent(db1) && Lists(order1, db1.devices.Keys)
    requires db1.templates == Prepared(db, order, s).value.db.templates
    requires db1.devices == Prepared(db, order, s).value.db.devices
    ensures Prepared(db1, order1, s).Ok? && Prepared(db1, order1, s).value.db == db1
    ensures var ids, ids1 := Prepared(db, order, s).value.deviceIds, Prepared(db1, order1, s).value.deviceIds;
      && C.SamePattern(ids, ids1)
      && (AllLeadAlike(db1, s, ids, ids1) <==> ScansAgree(db1, s, order, order1))
  {
    var t := TemplatesImported(db, s.templates).value;
    TemplatesKeepConsistent(db, s.templates);
    TemplatesAgain(db, s.templates, db1);
    var t1 := TemplatesImported(db1, s.templates).value;
    DevicesAgain(t, order, s.devices, t1, order1);
    var p, p1 := Prepared(db, order, s).value, Prepared(db1, order1, s).value;
    ScansAgreeByName(t, order, s, t1, order1, db1, p.deviceIds, p1.deviceIds);
  }

  /**
   Importing the same snapshot again always succeeds, and changes nothing exactly
   when its scan of the stored devices agrees with the first one.
   */
  lemma ImportTwiceExactly(db: Database, order: seq<Id>, s: Snapshot, order1: seq<Id>)
    requires Consistent(db) && Lists(order, db.devices.Keys) && Imported(db, order, s).Ok?
    requires Consistent(Imported(db, order, s).value.db) && Lists(order1, Imported(db, order, s).value.db.devices.Keys)
    ensures var db1 := Imported(db, order, s).value.db;
      && Imported(db1, order1, s).Ok?
      && (Imported(db1, order1, s).value.db == db1 <==> ScansAgree(db1, s, order, order1))
  {
    var p, db1 := Prepared(db, order, s).value, Imported(db, order, s).value.db;
    PreparedKeepsConsistent(db, order, s);
    var q, b := StagesOf(p, s);
    PreparedAgain(db, order, s, db1, order1);
    PreparedKeepsConsistent(db1, order1, s);
    CompletedAgainExactly(p, s, Prepared(db1, order1, s).value);
  }

  /**
   Both queries list the unmentioned devices that share a name in the same order.
   Holds if device names are unique, or if the row order is stable.
   */
  ghost predicate ScansAlike(devices: map<Id, Device>, es: seq<DeviceExport>, order: seq<Id>, order1: seq<Id>) {
    forall i <- devices, j <- devices | devices[i].name == devices[j].name && Before(order, i, j) ::
      Unmentioned(es, devices[i]) && Unmentioned(es, devices[j]) ==> Before(order1, i, j)
  }

  lemma SameFirst(
      p: Stage, order: seq<Id>, es: seq<DeviceExport>, p1: Stage, order1: seq<Id>, name: string, i: Id, j: Id)
    requires Consistent(p.db) && DevicesImported(p, order, es).Ok?
    requires p1.db.devices == DevicesImported(p, order, es).value.db.devices
    requires Lists(order, p.db.devices.Keys) && Lists(order1, p1.db.devices.Keys) && !NamesEntry(es, name)
    requires ScansAlike(p.db.devices, es, order, order1)
    requires IsFirst(p1.db.devices, order, i, name) && IsFirst(p1.db.devices, order1, j, name)
    ensures i == j
  {
    CandidatesAgain(p, order, es, p1, order1, name, i);
    CandidatesAgain(p, order, es, p1, order1, name, j);
    if Before(order, i, j) && Before(order1, j, i) {
      NeverBothBefore(order1, p1.db.devices.Keys, j, i);
    }
  }

  lemma AlikeAgree(p: Stage, order: seq<Id>, s: Snapshot, p1: Stage, order1: seq<Id>, db1: Database)
    requires Consistent(p.db) && DevicesImported(p, order, s.devices).Ok?
    requires p1.db.devices == DevicesImported(p, order, s.devices).value.db.devices == db1.devices
    requires Lists(order, p.db.devices.Keys) && Lists(order1, p1.db.devices.Keys)
    requires ScansAlike(p.db.devices, s.devices, order, order1)
    ensures ScansAgree(db1, s, order, order1)
  {
    forall name: string, i: Id, j: Id |
      !NamesEntry(s.devices, name) && IsFirst(db1.devices, order, i, name) && IsFirst(db1.devices, order1, j, name)
      ensures AgreeWhere(db1, s, name, i, j)
    {
      SameFirst(p, order, s.devices, p1, order1, name, i, j);
    }
  }

  /** Then importing twice is importing once. */
  lemma ImportTwice(db: Database, order: seq<Id>, s: Snapshot, order1: seq<Id>)
    requires Consistent(db) && Lists(order, db.devices.Keys) && Imported(db, order, s).Ok?
    requires Consistent(Imported(db, order, s).value.db) && Lists(order1, Imported(db, order, s).value.db.devices.Keys)
    requires ScansAlike(db.devices, s.devices, order, order1)
    ensures Imported(Imported(db, order, s).value.db, order1, s).Ok?
    ensures Imported(Imported(db, order, s).value.db, order1, s).value.db == Imported(db, order, s).value.db
  {
    ImportTwiceExactly(db, order, s, order1);
    var t, p := TemplatesImported(db, s.templates).value, Prepared(db, order, s).value;
    TemplatesKeepConsistent(db, s.templates);
    PreparedKeepsConsistent(db, order, s);
    var q, b := StagesOf(p, s);
    AlikeAgree(t, order, s, p, order1, Imported(db, order, s).value.db);
  }

  // --- When another device comes first ---

  /** The snapshot holds one simulation config and nothing else. */
  ghost predicate JustConfig(s: Snapshot, e: C.ConfigExport<string, SimulationSpec>) {
    && s.templates == [] && s.devices == [] && s.simulations == [e] && s.schedules == []
    && s.brokers == [] && s.legacy.None? && s.publishes == []
  }

  lemma NoDevicesImported(p: Stage, order: seq<Id>)
    requires Consistent(p.db)
    ensures DevicesImported(p, order, []) == Ok(p.(deviceIds := WithStoredNames(map[], p.db.devices, order)))
  {
  }

  lemma NothingPrepared(db: Database, order: seq<Id>, s: Snapshot)
    requires Consistent(db) && s.templates == [] && s.devices == []
    ensures Prepared(db, order, s).Ok?
    ensures Prepared(db, order, s).value.db == db
    ensures Prepared(db, order, s).value.deviceIds == WithStoredNames(map[], db.devices, order)
  {
    TemplatesKeepConsistent(db, []);
    NoDevicesImported(TemplatesImported(db, []).value, order);
  }

  lemma NoBrokersImported(q: Stage)
    requires Consistent(q.db)
    ensures BrokersImported(q, []).Ok? && PublishesImported(BrokersImported(q, []).value, []).db == q.db
  {
  }

  lemma JustConfigCompleted(p: Stage, s: Snapshot, e: C.ConfigExport<string, SimulationSpec>)
    requires Consistent(p.db) && NamesDevices(p.deviceIds, p.db) && JustConfig(s, e) && e.device in p.deviceIds
    ensures Completed(p, s).Ok?
    ensures var i := p.deviceIds[e.device];
      Completed(p, s).value.db == p.db.(simulations := C.Without(p.db.simulations, i)[(i, e.item) := e.spec])
  {
    C.OneConfigReplaces(p.deviceIds, p.db.simulations, e);
    var q := ConfigStage(p, s);
    NoBrokersImported(q);
    CompletedIs(p, s, q, BrokersImported(q, []).value);
  }

  /** The config takes over the first device of its name. */
  lemma JustConfigImported(
      db: Database, order: seq<Id>, s: Snapshot, e: C.ConfigExport<string, SimulationSpec>, i: Id)
    requires Consistent(db) && Lists(order, db.devices.Keys) && JustConfig(s, e)
    requires IsFirst(db.devices, order, i, e.device)
    ensures Imported(db, order, s).Ok?
    ensures Imported(db, order, s).value.db == db.(simulations := C.Without(db.simulations, i)[(i, e.item) := e.spec])
  {
    NothingPrepared(db, order, s);
    PreparedKeepsConsistent(db, order, s);
    var p := Prepared(db, order, s).value;
    FirstStored(map[], db.devices, order, e.device);
    assert CarriesName(db.devices, order, i, e.device);
    FirstIsUnique(db.devices, order, db.devices.Keys, e.device, i, p.deviceIds[e.device]);
    JustConfigCompleted(p, s, e);
  }

  lemma TakenOverDiffers(
      db: Database, db1: Database, s: Snapshot, e: C.ConfigExport<string, SimulationSpec>, i: Id, j: Id)
    requires s.simulations == [e] && i != j && Get(db.simulations, (j, e.item)) != Some(e.spec)
    requires db1.simulations == C.Without(db.simulations, i)[(i, e.item) := e.spec]
    ensures !AgreeWhere(db1, s, e.device, i, j)
  {
    assert e in s.simulations;
    assert Get(db1.simulations, (i, e.item)) != Get(db1.simulations, (j, e.item));
  }

  /** Imported again while another device comes first, the config reaches that device too. */
  lemma OtherFirstChanges(
      db: Database, order: seq<Id>, order1: seq<Id>, s: Snapshot, e: C.ConfigExport<string, SimulationSpec>, i: Id,
      j: Id)
    requires Consistent(db) && Lists(order, db.devices.Keys) && Lists(order1, db.devices.Keys) && JustConfig(s, e)
    requires IsFirst(db.devices, order, i, e.device) && IsFirst(db.devices, order1, j, e.device) && i != j
    requires Get(db.simulations, (j, e.item)) != Some(e.spec)
    ensures Imported(db, order, s).Ok? && Consistent(Imported(db, order, s).value.db)
    ensures Imported(Imported(db, order, s).value.db, order1, s).Ok?
    ensures Imported(Imported(db, order, s).value.db, order1, s).value.db != Imported(db, order, s).value.db
  {
    JustConfigImported(db, order, s, e, i);
    ImportKeepsConsistent(db, order, s);
    ImportTwiceExactly(db, order, s, order1);
    TakenOverDiffers(db, Imported(db, order, s).value.db, s, e, i, j);
    assert !NamesEntry(s.devices, e.device);
  }

  // --- Devices the snapshot never mentions ---

  ghost predicate PublishesName(es: seq<C.PublishExport<PublishSpec>>, name: string) {
    exists e :: e in es && e.device == name
  }

  /** By its unit and port, or by its name in a config. */
  ghost predicate Mentions(s: Snapshot, d: Device) {
    KeyedEntry(s.devices, KeyOf(d)) || ConfigsName(s.simulations, d.name) || ConfigsName(s.schedules, d.name) ||
    PublishesName(s.publishes, d.name)
  }

  lemma UnmentionedRowKept(p: Stage, order: seq<Id>, es: seq<DeviceExport>, i: Id)
    requires Consistent(p.db) && DevicesImported(p, order, es).Ok?
    requires i in p.db.devices && !KeyedEntry(es, KeyOf(p.db.devices[i]))
    ensures i in DevicesImported(p, order, es).value.db.devices
    ensures DevicesImported(p, order, es).value.db.devices[i] == p.db.devices[i]
  {
    var t, load := DeviceTable(p.templateIds), DeviceLoad(p.templateIds, p.db);
    DeviceTableLawful(p.templateIds);
    UpsertedKeeps(t, load, es);
    var row := DevicesImported(p, order, es).value.db.devices[i];
    assert t.rowKey(row) == t.rowKey(p.db.devices[i]);
    UnnamedRowIsStored(p, order, es, i);
  }

  /** Only its own name leads to such a device. */
  lemma OnlyOwnNameLeads(p: Stage, order: seq<Id>, es: seq<DeviceExport>, i: Id, name: string)
    requires Consistent(p.db) && DevicesImported(p, order, es).Ok?
    requires i in p.db.devices && !KeyedEntry(es, KeyOf(p.db.devices[i]))
    requires Get(DevicesImported(p, order, es).value.deviceIds, name) == Some(i)
    ensures name == p.db.devices[i].name
  {
    UnmentionedRowKept(p, order, es, i);
    DeviceNameExactly(p, order, es, name);
  }

  lemma ConfigsKept<R(!new), S>(
      ids: map<string, Id>, rows: map<(Id, R), S>, es: seq<C.ConfigExport<R, S>>, i: Id, own: string)
    requires C.Replaced(ids, rows, es).Ok? && !ConfigsName(es, own)
    requires forall name: string :: Get(ids, name) == Some(i) ==> name == own
    ensures forall r: R :: Get(C.Replaced(ids, rows, es).value.rows, (i, r)) == Get(rows, (i, r))
  {
    forall e <- es
      ensures !C.Reaches(ids, e, i)
    {
      assert C.Reaches(ids, e, i) ==> Get(ids, e.device) == Some(i);
    }
    forall r: R
      ensures Get(C.Replaced(ids, rows, es).value.rows, (i, r)) == Get(rows, (i, r))
    {
      C.UntouchedKeepRows(ids, rows, es, (i, r));
    }
  }

  lemma PublishesKept(
      ids: map<string, Id>, brokers: map<string, Id>, rows: map<(Id, Id), PublishSpec>,
      es: seq<C.PublishExport<PublishSpec>>,
      i: Id, own: string)
    requires !PublishesName(es, own)
    requires forall name: string :: Get(ids, name) == Some(i) ==> name == own
    ensures forall b: Id :: Get(C.Published(ids, brokers, rows, es), (i, b)) == Get(rows, (i, b))
  {
    forall b: Id
      ensures Get(C.Published(ids, brokers, rows, es), (i, b)) == Get(rows, (i, b))
    {
      forall e <- es
        ensures !C.Links(ids, brokers, e, (i, b))
      {
        assert C.Links(ids, brokers, e, (i, b)) ==> Get(ids, e.device) == Some(i);
      }
      C.LastSpecUnlinked(ids, brokers, es, (i, b));
      C.PublishedRows(ids, brokers, rows, es, (i, b));
    }
  }

  /** The device's row and everything it owns are the same in both databases. */
  ghost predicate SameDevice(a: Database, b: Database, i: Id) {
    && Get(a.devices, i) == Get(b.devices, i)
    && (forall r: string :: Get(a.simulations, (i, r)) == Get(b.simulations, (i, r)))
    && (forall r: ScheduleItem :: Get(a.schedules, (i, r)) == Get(b.schedules, (i, r)))
    && (forall k: Id :: Get(a.publishes, (i, k)) == Get(b.publishes, (i, k)))
  }

  lemma OwnedKept(p: Stage, s: Snapshot, i: Id, own: string)
    requires Consistent(p.db) && NamesDevices(p.deviceIds, p.db) && Completed(p, s).Ok?
    requires !ConfigsName(s.simulations, own) && !ConfigsName(s.schedules, own) && !PublishesName(s.publishes, own)
    requires forall name: string :: Get(p.deviceIds, name) == Some(i) ==> name == own
    ensures SameDevice(p.db, Completed(p, s).value.db, i)
  {
    var q, b := StagesOf(p, s);
    ConfigsKept(p.deviceIds, p.db.simulations, s.simulations, i, own);
    ConfigsKept(p.deviceIds, p.db.schedules, s.schedules, i, own);
    PublishesKept(p.deviceIds, b.brokerIds, p.db.publishes, s.publishes, i, own);
  }

  lemma OwnersKept(db: Database, order: seq<Id>, s: Snapshot, i: Id)
    requires Consistent(db) && Prepared(db, order, s).Ok?
    requires i in db.devices && !KeyedEntry(s.devices, KeyOf(db.devices[i]))
    ensures SameDevice(db, Prepared(db, order, s).value.db, i)
    ensures forall name: string | Get(Prepared(db, order, s).value.deviceIds, name) == Some(i) ::
      name == db.devices[i].name
  {
    var t := TemplatesImported(db, s.templates).value;
    TemplatesKeepConsistent(db, s.templates);
    UnmentionedRowKept(t, order, s.devices, i);
    forall name: string | Get(Prepared(db, order, s).value.deviceIds, name) == Some(i)
      ensures name == db.devices[i].name
    {
      OnlyOwnNameLeads(t, order, s.devices, i, name);
    }
  }

  /** A device the snapshot never mentions keeps its row and all its configs. */
  lemma UnmentionedKept(db: Database, order: seq<Id>, s: Snapshot, i: Id)
    requires Consistent(db) && Imported(db, order, s).Ok?
    requires i in db.devices && !Mentions(s, db.devices[i])
    ensures SameDevice(db, Imported(db, order, s).value.db, i)
  {
    OwnersKept(db, order, s, i);
    PreparedKeepsConsistent(db, order, s);
    OwnedKept(Prepared(db, order, s).value, s, i, db.devices[i].name);
  }
}
