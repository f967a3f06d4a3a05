/**
 Restoring an export onto an installation that has only the built-in templates:
 ids are new, everything the snapshot carries is the same.
 */
module SnapshotRestore {
  import opened Prelude
  import opened Upserts
  import opened Snapshots
  import opened ImportStages
  import opened ImportLaws
  import opened SnapshotRoundTrip

  /** No devices and no brokers, and no built-in template where the source has its own. */
  ghost predicate FreshTarget(db: Database, target: Database) {
    && Consistent(target) && target.devices == map[] && target.brokers == map[]
    && (forall i <- db.templates :: db.templates[i].builtin ==> HasTemplate(target, db.templates[i].name))
    && (forall i <- db.templates, j <- target.templates | target.templates[j].name == db.templates[i].name ::
          !db.templates[i].builtin ==> !target.templates[j].builtin)
  }

  ghost predicate HasTemplate(db: Database, name: string) {
    exists i <- db.templates :: db.templates[i].name == name
  }

  // --- Templates ---

  lemma TemplateKeysDistinct(db: Database, o: RowOrder)
    requires Consistent(db) && OrdersRows(o, db)
    ensures DistinctKeys(TemplateTable(), ExportTemplates(db, o.registers, o.templates))
    ensures Writable(TemplateTable(), ExportTemplates(db, o.registers, o.templates))
  {
    var t, es := TemplateTable(), ExportTemplates(db, o.registers, o.templates);
    TemplateEntries(db, o);
    forall i, j | 0 <= i < j < |es| && !t.skips(es[j])
      ensures !Concerns(t, es[i], t.entryKey(es[j]))
    {
      assert o.templates[i] != o.templates[j];
    }
    forall e <- es
      ensures t.skips(e) || t.write(None, e).Ok?
    {
      var n :| 0 <= n < |es| && es[n] == e;
      if !db.templates[o.templates[n]].builtin {
        TemplateWritten(db, o, o.templates[n], None);
        assert t.write(None, e) == WriteTemplate(None, e);
      }
    }
  }

  lemma TemplatesAccepted(db: Database, o: RowOrder, target: Database)
    requires Consistent(db) && OrdersRows(o, db) && Consistent(target)
    ensures TemplatesImported(target, ExportTemplates(db, o.registers, o.templates)).Ok?
  {
    TemplateTableLawful();
    TemplateKeysDistinct(db, o);
    DistinctAccepted(TemplateTable(), TemplateLoad(target), ExportTemplates(db, o.registers, o.templates));
  }

  /** The restored template equals the exported one. */
  ghost predicate Restored(db: Database, i: Id, after: Database) {
    i in db.templates && exists j <- after.templates :: after.templates[j] == StrippedTemplate(db.templates[i])
  }

  lemma TemplateEntryWrites(db: Database, o: RowOrder, target: Database, n: nat) returns (j: Id)
    requires Consistent(db) && OrdersRows(o, db) && Consistent(target)
    requires n < |ExportTemplates(db, o.registers, o.templates)|
    requires !ExportTemplates(db, o.registers, o.templates)[n].builtin
    requires TemplatesImported(target, ExportTemplates(db, o.registers, o.templates)).Ok?
    ensures var e, after := ExportTemplates(db, o.registers, o.templates)[n],
        TemplatesImported(target, ExportTemplates(db, o.registers, o.templates)).value.db;
      && j in after.templates && WriteTemplate(Get(target.templates, j), e) == Ok(after.templates[j])
      && (j in target.templates ==> target.templates[j].name == e.name)
  {
    var t, load, es := TemplateTable(), TemplateLoad(target), ExportTemplates(db, o.registers, o.templates);
    TemplateTableLawful();
    TemplateKeysDistinct(db, o);
    j := EntryWrites(t, load, es, n);
    assert t.write(Get(load.rows, j), es[n]) == WriteTemplate(Get(load.rows, j), es[n]);
  }

  lemma TemplateIsRestored(db: Database, o: RowOrder, target: Database, i: Id)
    requires Consistent(db) && OrdersRows(o, db) && FreshTarget(db, target) && i in db.templates
    requires !db.templates[i].builtin
    requires TemplatesImported(target, ExportTemplates(db, o.registers, o.templates)).Ok?
    ensures Restored(db, i, TemplatesImported(target, ExportTemplates(db, o.registers, o.templates)).value.db)
  {
    TemplateEntries(db, o);
    var n :| 0 <= n < |o.templates| && o.templates[n] == i;
    var j := TemplateEntryWrites(db, o, target, n);
    TemplateWritten(db, o, i, Get(target.templates, j));
  }

  lemma TemplateNamesKnown(db: Database, o: RowOrder, target: Database, i: Id)
    requires Consistent(db) && OrdersRows(o, db) && FreshTarget(db, target) && i in db.templates
    requires TemplatesImported(target, ExportTemplates(db, o.registers, o.templates)).Ok?
    ensures var r := TemplatesImported(target, ExportTemplates(db, o.registers, o.templates));
      db.templates[i].name in r.value.templateIds
  {
    var es := ExportTemplates(db, o.registers, o.templates);
    var p := TemplatesImported(target, es).value;
    TemplatesKeepConsistent(target, es);
    if db.templates[i].builtin {
      var j :| j in target.templates && target.templates[j].name == db.templates[i].name;
      TemplateTableLawful();
      UpsertedKeeps(TemplateTable(), TemplateLoad(target), es);
      assert TemplateTable().rowKey(p.db.templates[j]) == TemplateTable().rowKey(target.templates[j]);
    } else {
      TemplateIsRestored(db, o, target, i);
      var j :| j in p.db.templates && p.db.templates[j] == StrippedTemplate(db.templates[i]);
      assert p.db.templates[j].name == db.templates[i].name;
    }
  }

  // --- Devices ---

  /** The same device in the two databases: all a snapshot carries of it agrees. */
  ghost predicate Twins(db: Database, i: Id, after: Database, j: Id) {
    && i in db.devices && j in after.devices
    && var d, e := db.devices[i], after.devices[j];
       && d.name == e.name && KeyOf(d) == KeyOf(e) && d.description == e.description && e.status == Stopped
       && d.templateId in db.templates && e.templateId in after.templates
       && db.templates[d.templateId].name == after.templates[e.templateId].name
  }

  /** Template names lead to templates of the stage, for every template the source uses. */
  ghost predicate Ready(db: Database, p: Stage) {
    && Consistent(p.db) && p.db.devices == map[] && NamesTemplates(p.templateIds, p.db)
    && forall i <- db.templates :: db.templates[i].name in p.templateIds
  }

  lemma DeviceKeysDistinct(db: Database, order: seq<Id>, p: Stage)
    requires Consistent(db) && Lists(order, db.devices.Keys) && Ready(db, p)
    ensures DistinctKeys(DeviceTable(p.templateIds), ExportDevices(db, order))
    ensures Writable(DeviceTable(p.templateIds), ExportDevices(db, order))
  {
    var t, es := DeviceTable(p.templateIds), ExportDevices(db, order);
    DeviceEntries(db, order);
    forall i, j | 0 <= i < j < |es|
      ensures !Concerns(t, es[i], t.entryKey(es[j]))
    {
      assert order[i] != order[j];
      assert KeyOf(db.devices[order[i]]) != KeyOf(db.devices[order[j]]);
    }
    forall e <- es
      ensures t.write(None, e).Ok?
    {
      var n :| 0 <= n < |es| && es[n] == e;
      assert t.write(None, e) == WriteDevice(p.templateIds, None, e);
    }
  }

  lemma DevicesAccepted(db: Database, order: seq<Id>, p: Stage, scan: seq<Id>)
    requires Consistent(db) && Lists(order, db.devices.Keys) && Ready(db, p)
    ensures DevicesImported(p, scan, ExportDevices(db, order)).Ok?
  {
    DeviceTableLawful(p.templateIds);
    DeviceKeysDistinct(db, order, p);
    DistinctAccepted(DeviceTable(p.templateIds), DeviceLoad(p.templateIds, p.db), ExportDevices(db, order));
  }

  /** Rows of one key are twins. */
  lemma SameKeyTwins(db: Database, order: seq<Id>, p: Stage, scan: seq<Id>, n: nat, j: Id)
    requires Consistent(db) && Lists(order, db.devices.Keys) && Ready(db, p)
    requires DevicesImported(p, scan, ExportDevices(db, order)).Ok?
    requires var after := DevicesImported(p, scan, ExportDevices(db, order)).value.db;
      && n < |order| && order[n] in db.devices && j in after.devices
      && KeyOf(after.devices[j]) == KeyOf(db.devices[order[n]])
    ensures Twins(db, order[n], DevicesImported(p, scan, ExportDevices(db, order)).value.db, j)
  {
    var t, load, es := DeviceTable(p.templateIds), DeviceLoad(p.templateIds, p.db), ExportDevices(db, order);
    DeviceTableLawful(p.templateIds);
    DeviceEntries(db, order);
    DeviceKeysDistinct(db, order, p);
    var after := DevicesImported(p, scan, es).value.db;
    assert t.rowKey(after.devices[j]) == KeyOf(after.devices[j]);
    WrittenByOwn(t, load, es, j, n);
    assert t.write(None, es[n]) == WriteDevice(p.templateIds, None, es[n]);
  }

  /** Every restored device comes from one of the source. */
  lemma TwinBack(db: Database, order: seq<Id>, p: Stage, scan: seq<Id>, j: Id) returns (i: Id)
    requires Consistent(db) && Lists(order, db.devices.Keys) && Ready(db, p)
    requires DevicesImported(p, scan, ExportDevices(db, order)).Ok?
    requires j in DevicesImported(p, scan, ExportDevices(db, order)).value.db.devices
    ensures Twins(db, i, DevicesImported(p, scan, ExportDevices(db, order)).value.db, j)
  {
    var t, load, es := DeviceTable(p.templateIds), DeviceLoad(p.templateIds, p.db), ExportDevices(db, order);
    DeviceTableLawful(p.templateIds);
    DeviceEntries(db, order);
    var n := WrittenBySome(t, load, es, j);
    i := order[n];
    SameKeyTwins(db, order, p, scan, n, j);
  }

  /** Names lead to twins. */
  ghost predicate LeadToTwins(db: Database, after: Database, ids: map<string, Id>) {
    && (forall i <- db.devices :: db.devices[i].name in ids && Twins(db, i, after, ids[db.devices[i].name]))
    && (forall name <- ids :: ids[name] in after.devices)
  }

  lemma NameLeadsToTwin(db: Database, order: seq<Id>, p: Stage, scan: seq<Id>, i: Id)
    requires Consistent(db) && Lists(order, db.devices.Keys) && UniqueDeviceNames(db) && Ready(db, p) && i in db.devices
    requires DevicesImported(p, scan, ExportDevices(db, order)).Ok?
    ensures var q := DevicesImported(p, scan, ExportDevices(db, order)).value;
      db.devices[i].name in q.deviceIds && Twins(db, i, q.db, q.deviceIds[db.devices[i].name])
  {
    var t, load, es := DeviceTable(p.templateIds), DeviceLoad(p.templateIds, p.db), ExportDevices(db, order);
    var name := db.devices[i].name;
    DeviceTableLawful(p.templateIds);
    UniqueAreListedLast(db, order, i);
    LastKeyOfExport(p.templateIds, db, order, name);
    IndexFollowsLastEntry(t, load, es, name);
    var out := Upserted(t, load, es).value;
    FirstStored(out.index, out.rows, scan, name);
    var n :| 0 <= n < |order| && order[n] == i;
    SameKeyTwins(db, order, p, scan, n, out.index[name]);
  }

  // --- What twins own ---

  /** Every device's name leads somewhere, different devices' names to different devices. */
  ghost predicate Separated(names: map<Id, string>, ids: map<string, Id>) {
    && (forall i <- names :: names[i] in ids)
    && (forall i <- names, k <- names :: ids[names[i]] == ids[names[k]] ==> i == k)
  }

  lemma TwinsSeparated(db: Database, after: Database, ids: map<string, Id>)
    requires Consistent(db) && LeadToTwins(db, after, ids)
    ensures Separated(DeviceNames(db), ids)
  {
    forall i <- db.devices, k <- db.devices | ids[db.devices[i].name] == ids[db.devices[k].name]
      ensures i == k
    {
      assert Twins(db, i, after, ids[db.devices[i].name]) && Twins(db, k, after, ids[db.devices[k].name]);
    }
  }

  lemma RestoredTargets<R(!new), S>(
      names: map<Id, string>, ids: map<string, Id>, rows: map<(Id, R), S>, order: seq<(Id, R)>)
    requires Separated(names, ids) && Lists(order, rows.Keys) && forall k <- rows :: k.0 in names
    ensures var es := ExportConfigs(names, rows, order);
      && |es| == |order|
      && (forall n :: 0 <= n < |es| ==> order[n] in rows && es[n].spec == rows[order[n]])
      && (forall n, i, r | 0 <= n < |es| && i in names ::
            C.Targets(ids, es[n], (ids[names[i]], r)) <==> order[n] == (i, r))
  {
    var es := ExportConfigs(names, rows, order);
    ConfigEntries(names, rows, order);
    forall n, i, r: R | 0 <= n < |es| && i in names
      ensures C.Targets(ids, es[n], (ids[names[i]], r)) <==> order[n] == (i, r)
    {
      assert order[n] in rows;
    }
  }

  lemma RestoredAccepted<R(!new), S>(
      names: map<Id, string>, ids: map<string, Id>, rows: map<(Id, R), S>, order: seq<(Id, R)>)
    requires Separated(names, ids) && Lists(order, rows.Keys) && forall k <- rows :: k.0 in names
    ensures C.Separate(ids, ExportConfigs(names, rows, order))
    ensures C.Replaced(ids, map[], ExportConfigs(names, rows, order)).Ok?
  {
    var es := ExportConfigs(names, rows, order);
    ConfigEntries(names, rows, order);
    RestoredTargets(names, ids, rows, order);
    forall d <- es, e <- es | d.device in ids && e.device in ids && ids[d.device] == ids[e.device]
      ensures d.device == e.device
    {
      var m :| 0 <= m < |es| && es[m] == d;
      var n :| 0 <= n < |es| && es[n] == e;
      assert order[m] in rows && order[n] in rows;
    }
    forall m, n | 0 <= m < n < |es|
      ensures !C.SameTarget(ids, es[m], es[n])
    {
      assert order[m] != order[n] && order[n] in rows;
      assert (order[n].0, order[n].1) == order[n];
    }
    C.SeparateExactly(ids, map[], es);
  }

  /** A device's configs end up at what its name leads to. */
  lemma RestoredConfig<R(!new), S>(
      names: map<Id, string>, ids: map<string, Id>, rows: map<(Id, R), S>, order: seq<(Id, R)>, i: Id, r: R)
    requires Separated(names, ids) && Lists(order, rows.Keys) && (forall k <- rows :: k.0 in names) && i in names
    requires C.Replaced(ids, map[], ExportConfigs(names, rows, order)).Ok?
    ensures var out := C.Replaced(ids, map[], ExportConfigs(names, rows, order)).value.rows;
      Get(out, (ids[names[i]], r)) == Get(rows, (i, r))
  {
    var es, k := ExportConfigs(names, rows, order), (ids[names[i]], r);
    RestoredTargets(names, ids, rows, order);
    RestoredAccepted(names, ids, rows, order);
    if (i, r) in rows {
      var n :| 0 <= n < |order| && order[n] == (i, r);
      assert es[n] in es && C.Targets(ids, es[n], k) && C.Reaches(ids, es[n], k.0);
      C.SeparateRows(ids, map[], es, k);
    } else {
      forall e <- es
        ensures !C.Targets(ids, e, k)
      {
        var n :| 0 <= n < |es| && es[n] == e;
      }
      if C.Touched(ids, es, k.0) {
        C.SeparateRows(ids, map[], es, k);
      } else {
        C.UntouchedKeepRows(ids, map[], es, k);
      }
    }
  }

  // --- Brokers and publish configs ---

  function BrokerNames(db: Database): map<Id, string> {
    map b <- db.brokers :: db.brokers[b].name
  }

  /** Broker names lead to equal brokers, and there are no others. */
  ghost predicate BrokersRestored(db: Database, after: Database, ids: map<string, Id>) {
    && (forall b <- db.brokers :: Get(ids, db.brokers[b].name).Some? &&
          Get(after.brokers, ids[db.brokers[b].name]) == Some(db.brokers[b]))
    && (forall c <- after.brokers :: HasBroker(db, after.brokers[c]))
  }

  ghost predicate HasBroker(db: Database, broker: Broker) {
    exists b <- db.brokers :: db.brokers[b] == broker
  }

  lemma BrokerKeysDistinct(db: Database, order: seq<Id>)
    requires Consistent(db) && Lists(order, db.brokers.Keys)
    ensures DistinctKeys(BrokerTable(), ExportBrokers(db, order))
  {
    BrokerEntriesListed(db, order);
    var t, es := BrokerTable(), ExportBrokers(db, order);
    forall i, j | 0 <= i < j < |es|
      ensures !Concerns(t, es[i], t.entryKey(es[j]))
    {
      assert order[i] != order[j];
      assert db.brokers[order[i]].name != db.brokers[order[j]].name;
    }
  }

  lemma BrokerEntryWritten(p: Stage, es: seq<Broker>, n: nat) returns (c: Id)
    requires Consistent(p.db) && p.db.brokers == map[] && BrokersImported(p, es).Ok?
    requires DistinctKeys(BrokerTable(), es) && n < |es|
    ensures Get(BrokersImported(p, es).value.db.brokers, c) == Some(es[n])
  {
    var t := BrokerTable();
    BrokerTableLawful();
    c := EntryWrites(t, BrokerLoad(p.db), es, n);
    assert t.write(None, es[n]) == Ok(WriteBroker(None, es[n]));
  }

  lemma BrokerWritten(db: Database, order: seq<Id>, p: Stage, b: Id) returns (c: Id)
    requires Consistent(db) && Lists(order, db.brokers.Keys) && b in db.brokers
    requires Consistent(p.db) && p.db.brokers == map[] && BrokersImported(p, ExportBrokers(db, order)).Ok?
    ensures Get(BrokersImported(p, ExportBrokers(db, order)).value.db.brokers, c) == Some(db.brokers[b])
  {
    BrokerEntriesListed(db, order);
    BrokerKeysDistinct(db, order);
    var n :| 0 <= n < |order| && order[n] == b;
    c := BrokerEntryWritten(p, ExportBrokers(db, order), n);
  }

  lemma BrokerForward(db: Database, order: seq<Id>, p: Stage, b: Id)
    requires Consistent(db) && Lists(order, db.brokers.Keys) && b in db.brokers
    requires Consistent(p.db) && p.db.brokers == map[] && BrokersImported(p, ExportBrokers(db, order)).Ok?
    ensures var q := BrokersImported(p, ExportBrokers(db, order)).value;
      && Get(q.brokerIds, db.brokers[b].name).Some?
      && Get(q.db.brokers, q.brokerIds[db.brokers[b].name]) == Some(db.brokers[b])
  {
    var c := BrokerWritten(db, order, p, b);
    BrokersKeepConsistent(p, ExportBrokers(db, order));
  }

  lemma BrokerBack(db: Database, order: seq<Id>, p: Stage, c: Id)
    requires Consistent(db) && Lists(order, db.brokers.Keys)
    requires Consistent(p.db) && p.db.brokers == map[] && BrokersImported(p, ExportBrokers(db, order)).Ok?
    requires c in BrokersImported(p, ExportBrokers(db, order)).value.db.brokers
    ensures HasBroker(db, BrokersImported(p, ExportBrokers(db, order)).value.db.brokers[c])
  {
    var t, load, es := BrokerTable(), BrokerLoad(p.db), ExportBrokers(db, order);
    BrokerTableLawful();
    BrokerEntriesListed(db, order);
    BrokerKeysDistinct(db, order);
    var n := WrittenBySome(t, load, es, c);
    WrittenByOwn(t, load, es, c, n);
    assert t.write(None, es[n]) == Ok(WriteBroker(None, es[n]));
    assert db.brokers[order[n]] == es[n];
  }

  lemma BrokersAreRestored(db: Database, order: seq<Id>, p: Stage)
    requires Consistent(db) && Lists(order, db.brokers.Keys) && Consistent(p.db) && p.db.brokers == map[]
    ensures var r := BrokersImported(p, ExportBrokers(db, order));
      r.Ok? && BrokersRestored(db, r.value.db, r.value.brokerIds)
  {
    var es := ExportBrokers(db, order);
    BrokersKeepConsistent(p, es);
    var q := BrokersImported(p, es).value;
    forall b <- db.brokers
      ensures Get(q.brokerIds, db.brokers[b].name).Some?
      ensures Get(q.db.brokers, q.brokerIds[db.brokers[b].name]) == Some(db.brokers[b])
    {
      BrokerForward(db, order, p, b);
    }
    forall c <- q.db.brokers
      ensures HasBroker(db, q.db.brokers[c])
    {
      BrokerBack(db, order, p, c);
    }
  }

  lemma BrokersSeparated(db: Database, after: Database, ids: map<string, Id>)
    requires Consistent(db) && BrokersRestored(db, after, ids)
    ensures Separated(BrokerNames(db), ids)
  {
    forall a <- db.brokers, b <- db.brokers | ids[db.brokers[a].name] == ids[db.brokers[b].name]
      ensures a == b
    {
      assert Get(after.brokers, ids[db.brokers[a].name]) == Some(db.brokers[a]);
      assert Get(after.brokers, ids[db.brokers[b].name]) == Some(db.brokers[b]);
    }
  }

  /** The entries name the owners of the rows they come from. */
  ghost predicate PublishesListed(
      names: map<Id, string>, brokers: map<Id, string>, rows: map<(Id, Id), PublishSpec>,
      order: seq<(Id, Id)>, es: seq<C.PublishExport<PublishSpec>>)
  {
    && Lists(order, rows.Keys) && |es| == |order|
    && (forall k <- rows :: k.0 in names && k.1 in brokers)
    && (forall n :: 0 <= n < |es| ==> order[n] in rows)
    && (forall n :: 0 <= n < |es| ==> es[n] == C.PublishExport(names[order[n].0], brokers[order[n].1], rows[order[n]]))
  }

  lemma PublishesAreListed(db: Database, order: seq<(Id, Id)>)
    requires Consistent(db) && Lists(order, db.publishes.Keys)
    ensures PublishesListed(DeviceNames(db), BrokerNames(db), db.publishes, order, ExportPublishes(db, order))
  {
    PublishEntries(db, order);
  }

  lemma RestoredPublish(
      names: map<Id, string>, brokers: map<Id, string>, rows: map<(Id, Id), PublishSpec>,
      order: seq<(Id, Id)>, es: seq<C.PublishExport<PublishSpec>>,
      ids: map<string, Id>, brokerIds: map<string, Id>, i: Id, b: Id)
    requires Separated(names, ids) && Separated(brokers, brokerIds) && PublishesListed(names, brokers, rows, order, es)
    requires i in names && b in brokers
    ensures Get(C.Published(ids, brokerIds, map[], es), (ids[names[i]], brokerIds[brokers[b]])) == Get(rows, (i, b))
  {
    var k := (ids[names[i]], brokerIds[brokers[b]]);
    forall n | 0 <= n < |es|
      ensures C.Links(ids, brokerIds, es[n], k) <==> order[n] == (i, b)
    {
      assert order[n] in rows && order[n] == (order[n].0, order[n].1);
    }
    C.PublishedRows(ids, brokerIds, map[], es, k);
    if (i, b) in rows {
      var n :| 0 <= n < |order| && order[n] == (i, b);
      C.LastSpecAt(ids, brokerIds, es, k, n);
    } else {
      C.LastSpecUnlinked(ids, brokerIds, es, k);
    }
  }

  // --- The whole restore ---

  /** Twins own the same simulation configs and schedules. */
  ghost predicate SameConfigs(db: Database, after: Database) {
    && (forall i, j, r: string | Twins(db, i, after, j) ::
          Get(after.simulations, (j, r)) == Get(db.simulations, (i, r)))
    && (forall i, j, r: ScheduleItem | Twins(db, i, after, j) ::
          Get(after.schedules, (j, r)) == Get(db.schedules, (i, r)))
  }

  ghost predicate SameBroker(db: Database, b: Id, after: Database, c: Id) {
    b in db.brokers && Get(after.brokers, c) == Some(db.brokers[b])
  }

  ghost predicate SamePublishes(db: Database, after: Database) {
    forall i, j, b, c :: Twins(db, i, after, j) && SameBroker(db, b, after, c) ==>
      Get(after.publishes, (j, c)) == Get(db.publishes, (i, b))
  }

  ghost predicate HasTwin(db: Database, i: Id, after: Database) {
    exists j :: Twins(db, i, after, j)
  }

  ghost predicate IsTwin(db: Database, after: Database, j: Id) {
    exists i :: Twins(db, i, after, j)
  }

  /** The same system under other ids: devices, brokers and own templates correspond, with all they own. */
  ghost predicate SameSystem(db: Database, after: Database) {
    && (forall i <- db.templates :: db.templates[i].builtin || Restored(db, i, after))
    && (forall i <- db.devices :: HasTwin(db, i, after))
    && (forall j <- after.devices :: IsTwin(db, after, j))
    && (forall b <- db.brokers :: HasBroker(after, db.brokers[b]))
    && (forall c <- after.brokers :: HasBroker(db, after.brokers[c]))
    && SameConfigs(db, after) && SamePublishes(db, after)
  }

  lemma TwinIsNamed(db: Database, after: Database, ids: map<string, Id>, i: Id, j: Id)
    requires Consistent(after) && LeadToTwins(db, after, ids) && Twins(db, i, after, j)
    ensures ids[db.devices[i].name] == j
  {
    assert Twins(db, i, after, ids[db.devices[i].name]);
  }

  lemma ReadyToRestore(db: Database, o: RowOrder, target: Database)
    requires Consistent(db) && OrdersRows(o, db) && FreshTarget(db, target)
    ensures var r := TemplatesImported(target, ExportTemplates(db, o.registers, o.templates));
      r.Ok? && Ready(db, r.value)
  {
    var es := ExportTemplates(db, o.registers, o.templates);
    TemplatesAccepted(db, o, target);
    TemplatesKeepConsistent(target, es);
    forall i <- db.templates
      ensures db.templates[i].name in TemplatesImported(target, es).value.templateIds
    {
      TemplateNamesKnown(db, o, target, i);
    }
  }

  lemma DevicesAreRestored(db: Database, order: seq<Id>, p: Stage, scan: seq<Id>)
    requires Consistent(db) && Lists(order, db.devices.Keys) && UniqueDeviceNames(db) && Ready(db, p)
    ensures var r := DevicesImported(p, scan, ExportDevices(db, order));
      && r.Ok? && LeadToTwins(db, r.value.db, r.value.deviceIds)
      && forall j <- r.value.db.devices :: IsTwin(db, r.value.db, j)
  {
    DevicesAccepted(db, order, p, scan);
    var q := DevicesImported(p, scan, ExportDevices(db, order)).value;
    DevicesKeepConsistent(p, scan, ExportDevices(db, order));
    forall i <- db.devices
      ensures db.devices[i].name in q.deviceIds && Twins(db, i, q.db, q.deviceIds[db.devices[i].name])
    {
      NameLeadsToTwin(db, order, p, scan, i);
    }
    forall j <- q.db.devices
      ensures IsTwin(db, q.db, j)
    {
      var i := TwinBack(db, order, p, scan, j);
    }
  }

  /** What the first two sections leave on the target. */
  ghost predicate OwnersRestored(db: Database, p: Stage) {
    && (forall i <- db.templates :: db.templates[i].builtin || Restored(db, i, p.db))
    && LeadToTwins(db, p.db, p.deviceIds)
    && (forall j <- p.db.devices :: IsTwin(db, p.db, j))
    && p.db.brokers == map[] && p.db.simulations == map[] && p.db.schedules == map[] && p.db.publishes == map[]
  }

  lemma OwnersAreRestored(db: Database, o: RowOrder, target: Database, scan: seq<Id>)
    requires Consistent(db) && OrdersRows(o, db) && FreshTarget(db, target) && UniqueDeviceNames(db)
    ensures var r := Prepared(target, scan, Exported(db, o)); r.Ok? && OwnersRestored(db, r.value)
  {
    var s := Exported(db, o);
    ReadyToRestore(db, o, target);
    var p := TemplatesImported(target, s.templates).value;
    TemplatesKeepConsistent(target, s.templates);
    DevicesAreRestored(db, o.devices, p, scan);
    forall i <- db.templates | !db.templates[i].builtin
      ensures Restored(db, i, p.db)
    {
      TemplateIsRestored(db, o, target, i);
    }
  }

  /** A table of configs, moved along the names. */
  ghost predicate Moved<R(!new), S>(
      names: map<Id, string>, ids: map<string, Id>, rows: map<(Id, R), S>, after: map<(Id, R), S>)
    requires Separated(names, ids)
  {
    forall i <- names, r: R :: Get(after, (ids[names[i]], r)) == Get(rows, (i, r))
  }

  lemma ConfigsMoved<R(!new), S>(
      names: map<Id, string>, ids: map<string, Id>, rows: map<(Id, R), S>, order: seq<(Id, R)>)
    requires Separated(names, ids) && Lists(order, rows.Keys) && (forall k <- rows :: k.0 in names)
    ensures var r := C.Replaced(ids, map[], ExportConfigs(names, rows, order));
      r.Ok? && Moved(names, ids, rows, r.value.rows)
  {
    RestoredAccepted(names, ids, rows, order);
    var out := C.Replaced(ids, map[], ExportConfigs(names, rows, order)).value.rows;
    forall i <- names, r: R
      ensures Get(out, (ids[names[i]], r)) == Get(rows, (i, r))
    {
      RestoredConfig(names, ids, rows, order, i, r);
    }
  }

  lemma ConfigsAreRestored(db: Database, o: RowOrder, p: Stage)
    requires Consistent(db) && OrdersRows(o, db) && Separated(DeviceNames(db), p.deviceIds)
    requires p.db.simulations == map[] && p.db.schedules == map[]
    ensures var r := ConfigsImported(p, Exported(db, o));
      && r.Ok?
      && Moved(DeviceNames(db), p.deviceIds, db.simulations, r.value.db.simulations)
      && Moved(DeviceNames(db), p.deviceIds, db.schedules, r.value.db.schedules)
  {
    ConfigsMoved(DeviceNames(db), p.deviceIds, db.simulations, o.simulations);
    ConfigsMoved(DeviceNames(db), p.deviceIds, db.schedules, o.schedules);
  }

  /** Publish configs, moved along the names of devices and brokers. */
  ghost predicate PublishesMoved(
      names: map<Id, string>, brokers: map<Id, string>, ids: map<string, Id>, brokerIds: map<string, Id>,
      rows: map<(Id, Id), PublishSpec>, after: map<(Id, Id), PublishSpec>)
    requires Separated(names, ids) && Separated(brokers, brokerIds)
  {
    forall i <- names, b <- brokers :: Get(after, (ids[names[i]], brokerIds[brokers[b]])) == Get(rows, (i, b))
  }

  lemma PublishersAreRestored(db: Database, o: RowOrder, q: Stage)
    requires Consistent(db) && OrdersRows(o, db) && Separated(DeviceNames(db), q.deviceIds)
    requires Consistent(q.db) && q.db.brokers == map[] && q.db.publishes == map[]
    ensures BrokersImported(q, ExportBrokers(db, o.brokers)).Ok?
    ensures var b := BrokersImported(q, ExportBrokers(db, o.brokers)).value;
      && BrokersRestored(db, b.db, b.brokerIds) && Separated(BrokerNames(db), b.brokerIds)
      && PublishesMoved(DeviceNames(db), BrokerNames(db), q.deviceIds, b.brokerIds, db.publishes,
           PublishesImported(b, ExportPublishes(db, o.publishes)).db.publishes)
  {
    BrokersAreRestored(db, o.brokers, q);
    var b := BrokersImported(q, ExportBrokers(db, o.brokers)).value;
    BrokersSeparated(db, b.db, b.brokerIds);
    PublishesAreListed(db, o.publishes);
    var es := ExportPublishes(db, o.publishes);
    var out := C.Published(q.deviceIds, b.brokerIds, map[], es);
    forall i <- DeviceNames(db), k <- BrokerNames(db)
      ensures Get(out, (q.deviceIds[DeviceNames(db)[i]], b.brokerIds[BrokerNames(db)[k]])) == Get(db.publishes, (i, k))
    {
      RestoredPublish(DeviceNames(db), BrokerNames(db), db.publishes, o.publishes, es, q.deviceIds, b.brokerIds, i, k);
    }
  }

  lemma MovedAreTwins(db: Database, after: Database, ids: map<string, Id>)
    requires Consistent(db) && Consistent(after) && LeadToTwins(db, after, ids) && Separated(DeviceNames(db), ids)
    requires Moved(DeviceNames(db), ids, db.simulations, after.simulations)
    requires Moved(DeviceNames(db), ids, db.schedules, after.schedules)
    ensures SameConfigs(db, after)
  {
    forall i, j | Twins(db, i, after, j)
      ensures i in DeviceNames(db) && ids[DeviceNames(db)[i]] == j
    {
      TwinIsNamed(db, after, ids, i, j);
    }
  }

  lemma PublishesMovedAreTwins(db: Database, after: Database, ids: map<string, Id>, brokerIds: map<string, Id>)
    requires Consistent(db) && Consistent(after) && LeadToTwins(db, after, ids) && BrokersRestored(db, after, brokerIds)
    requires Separated(DeviceNames(db), ids) && Separated(BrokerNames(db), brokerIds)
    requires PublishesMoved(DeviceNames(db), BrokerNames(db), ids, brokerIds, db.publishes, after.publishes)
    ensures SamePublishes(db, after)
  {
    forall i, j, b, c | Twins(db, i, after, j) && SameBroker(db, b, after, c)
      ensures Get(after.publishes, (j, c)) == Get(db.publishes, (i, b))
    {
      TwinIsNamed(db, after, ids, i, j);
      assert i in DeviceNames(db) && b in BrokerNames(db);
      assert after.brokers[brokerIds[db.brokers[b].name]].name == after.brokers[c].name;
    }
  }

  lemma OwnedAreRestored(db: Database, o: RowOrder, p: Stage)
    requires Consistent(db) && OrdersRows(o, db) && OwnersRestored(db, p)
    requires Consistent(p.db) && NamesDevices(p.deviceIds, p.db)
    ensures Completed(p, Exported(db, o)).Ok? && SameSystem(db, Completed(p, Exported(db, o)).value.db)
  {
    var s := Exported(db, o);
    TwinsSeparated(db, p.db, p.deviceIds);
    ConfigsAreRestored(db, o, p);
    var q := ConfigStage(p, s);
    PublishersAreRestored(db, o, q);
    var b := BrokersImported(q, s.brokers).value;
    CompletedIs(p, s, q, b);
    CompletedKeepsConsistent(p, s);
    SameSystemFromParts(db, p, b, PublishesImported(b, s.publishes).db);
  }

  lemma SameSystemFromParts(db: Database, p: Stage, b: Stage, after: Database)
    requires Consistent(db) && Consistent(after) && OwnersRestored(db, p)
    requires after.templates == p.db.templates && after.devices == p.db.devices && after.brokers == b.db.brokers
    requires Separated(DeviceNames(db), p.deviceIds) && Separated(BrokerNames(db), b.brokerIds)
    requires Moved(DeviceNames(db), p.deviceIds, db.simulations, after.simulations)
    requires Moved(DeviceNames(db), p.deviceIds, db.schedules, after.schedules)
    requires BrokersRestored(db, b.db, b.brokerIds)
    requires PublishesMoved(DeviceNames(db), BrokerNames(db), p.deviceIds, b.brokerIds, db.publishes, after.publishes)
    ensures SameSystem(db, after)
  {
    forall i, j
      ensures Twins(db, i, p.db, j) <==> Twins(db, i, after, j)
    {
    }
    assert LeadToTwins(db, after, p.deviceIds);
    MovedAreTwins(db, after, p.deviceIds);
    PublishesMovedAreTwins(db, after, p.deviceIds, b.brokerIds);
    TwinsBothWays(db, p, after);
    forall k <- db.brokers
      ensures HasBroker(after, db.brokers[k])
    {
      assert after.brokers[b.brokerIds[db.brokers[k].name]] == db.brokers[k];
    }
  }

  lemma TwinsBothWays(db: Database, p: Stage, after: Database)
    requires OwnersRestored(db, p) && after.templates == p.db.templates && after.devices == p.db.devices
    ensures forall i <- db.templates :: db.templates[i].builtin || Restored(db, i, after)
    ensures forall i <- db.devices :: HasTwin(db, i, after)
    ensures forall j <- after.devices :: IsTwin(db, after, j)
  {
    forall i <- db.devices
      ensures HasTwin(db, i, after)
    {
      assert Twins(db, i, after, p.deviceIds[db.devices[i].name]);
    }
    forall j <- after.devices
      ensures IsTwin(db, after, j)
    {
      assert IsTwin(db, p.db, j);
      var i :| Twins(db, i, p.db, j);
      assert Twins(db, i, after, j);
    }
  }

  /**
   An export whose device names are unique, imported where only the built-in templates
   are, gives the same system back: every device with its template, configs, schedules
   and publish configs, every broker and every own template, and nothing else.
   */
  lemma RestoredElsewhere(db: Database, o: RowOrder, target: Database, scan: seq<Id>)
    requires Consistent(db) && OrdersRows(o, db) && UniqueDeviceNames(db) && FreshTarget(db, target)
    ensures Imported(target, scan, Exported(db, o)).Ok?
    ensures SameSystem(db, Imported(target, scan, Exported(db, o)).value.db)
  {
    OwnersAreRestored(db, o, target, scan);
    PreparedKeepsConsistent(target, scan, Exported(db, o));
    OwnedAreRestored(db, o, Prepared(target, scan, Exported(db, o)).value);
  }
}
