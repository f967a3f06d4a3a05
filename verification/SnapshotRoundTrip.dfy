/** A system that imports its own export is as it was, up to what snapshots do not carry. */
module SnapshotRoundTrip {
  import opened Prelude
  import opened Upserts
  import opened Snapshots
  import opened ImportStages
  import opened ImportLaws

  /** Snapshots carry no object identifiers; templates that ship with the system are not imported. */
  function StrippedTemplate(t: Template): Template {
    if t.builtin then t else t.(registers := WithoutOids(t.registers))
  }

  function WithoutOids(registers: map<string, RegisterRow>): map<string, RegisterRow> {
    map name <- registers :: registers[name].(oid := None)
  }

  function StrippedDevice(d: Device): Device {
    d.(status := if d.status.Running? then Stopped else d.status)
  }

  /** The database without what a round trip cannot keep. */
  function Stripped(db: Database): Database {
    db.(templates := map i <- db.templates :: StrippedTemplate(db.templates[i]),
        devices := map i <- db.devices :: StrippedDevice(db.devices[i]))
  }

  // --- Templates ---

  /** The registers written so far are those exported so far. */
  lemma {:induction false} RegistersSoFar(i: Id, registers: map<string, RegisterRow>, order: seq<(Id, string)>)
    requires UniqueRegisters(registers) && Distinct(order)
    ensures var r := RegistersFrom(ExportRegisters(i, registers, order));
      && r.Ok?
      && (forall name :: name in r.value <==> name in registers && (i, name) in order)
      && (forall name <- r.value :: name in registers && r.value[name] == registers[name].(oid := None))
    decreases |order|
  {
    if order != [] {
      var init, k := order[..|order| - 1], order[|order| - 1];
      RegistersSoFar(i, registers, init);
      assert order == init + [k];
      var es, before := ExportRegisters(i, registers, order), ExportRegisters(i, registers, init);
      if ExportRegister(i, registers, k).Some? {
        assert es[..|es| - 1] == before;
        assert k !in init;
        assert k == (i, k.1);
        assert !Clashes(RegistersFrom(before).value, es[|es| - 1]);
      } else {
        assert es == before;
      }
    }
  }

  lemma RegistersRoundTrip(db: Database, o: RowOrder, i: Id)
    requires Consistent(db) && OrdersRows(o, db) && i in db.templates
    ensures var registers := db.templates[i].registers;
      RegistersFrom(ExportRegisters(i, registers, o.registers)) ==
        Ok(WithoutOids(registers))
  {
    var registers := db.templates[i].registers;
    RegistersSoFar(i, registers, o.registers);
    var written := RegistersFrom(ExportRegisters(i, registers, o.registers)).value;
    forall name <- registers
      ensures name in written
    {
      assert (i, name) in RegisterKeys(db);
    }
    assert written == WithoutOids(registers);
  }

  lemma TemplateEntries(db: Database, o: RowOrder)
    requires Consistent(db) && OrdersRows(o, db)
    ensures var es := ExportTemplates(db, o.registers, o.templates);
      && |es| == |o.templates|
      && (forall n :: 0 <= n < |es| ==> o.templates[n] in db.templates)
      && (forall n :: 0 <= n < |es| ==> ExportTemplate(db, o.registers, o.templates[n]) == Some(es[n]))
  {
    CollectAll(o.templates, (i: Id) => ExportTemplate(db, o.registers, i));
  }

  /** Writing a template's export over it, over another template of one's own, or over nothing. */
  lemma TemplateWritten(db: Database, o: RowOrder, i: Id, prior: Option<Template>)
    requires Consistent(db) && OrdersRows(o, db) && i in db.templates && !db.templates[i].builtin
    requires prior.Some? ==> !prior.value.builtin
    ensures WriteTemplate(prior, ExportTemplate(db, o.registers, i).value) == Ok(StrippedTemplate(db.templates[i]))
  {
    RegistersRoundTrip(db, o, i);
  }

  lemma TemplatesExported(db: Database, o: RowOrder)
    requires Consistent(db) && OrdersRows(o, db)
    ensures var es := ExportTemplates(db, o.registers, o.templates);
      ExportsAll(TemplateTable(), db.templates, o.templates, es, Stripped(db).templates)
  {
    var t, es := TemplateTable(), ExportTemplates(db, o.registers, o.templates);
    TemplateEntries(db, o);
    forall n | 0 <= n < |es|
      ensures ExportOf(t, db.templates[o.templates[n]], es[n], StrippedTemplate(db.templates[o.templates[n]]))
    {
      var row := db.templates[o.templates[n]];
      if !row.builtin {
        TemplateWritten(db, o, o.templates[n], Some(row));
        assert t.write(Some(row), es[n]) == WriteTemplate(Some(row), es[n]);
      }
    }
  }

  lemma TemplateRowsRoundTrip(db: Database, o: RowOrder)
    requires Consistent(db) && OrdersRows(o, db)
    ensures var r := Upserted(TemplateTable(), TemplateLoad(db), ExportTemplates(db, o.registers, o.templates));
      r.Ok? && r.value.rows == Stripped(db).templates && r.value.nextId == db.nextId
  {
    TemplateTableLawful();
    TemplatesExported(db, o);
    var es := ExportTemplates(db, o.registers, o.templates);
    OwnExportRows(TemplateTable(), TemplateLoad(db), o.templates, es, Stripped(db).templates);
  }

  lemma TemplatesRoundTrip(db: Database, o: RowOrder)
    requires Consistent(db) && OrdersRows(o, db)
    ensures var r := TemplatesImported(db, ExportTemplates(db, o.registers, o.templates));
      r.Ok? && r.value.db == db.(templates := Stripped(db).templates)
  {
    TemplateRowsRoundTrip(db, o);
  }

  // --- Devices ---

  lemma DeviceEntries(db: Database, order: seq<Id>)
    requires Consistent(db) && (forall i <- order :: i in db.devices)
    ensures var es := ExportDevices(db, order);
      && |es| == |order|
      && (forall n :: 0 <= n < |es| ==> order[n] in db.devices && ExportDevice(db, order[n]) == Some(es[n]))
  {
    CollectAll(order, (i: Id) => ExportDevice(db, i));
  }

  /** Template names lead where they led on export. */
  ghost predicate LeadsBack(ids: map<string, Id>, db: Database) {
    forall i <- db.templates :: Get(ids, db.templates[i].name) == Some(i)
  }

  lemma DeviceOverItself(ids: map<string, Id>, db: Database, i: Id)
    requires Consistent(db) && LeadsBack(ids, db) && i in db.devices
    ensures WriteDevice(ids, Some(db.devices[i]), ExportDevice(db, i).value) == Ok(StrippedDevice(db.devices[i]))
  {
    assert Get(ids, db.templates[db.devices[i].templateId].name) == Some(db.devices[i].templateId);
  }

  lemma DevicesExported(ids: map<string, Id>, db: Database, order: seq<Id>)
    requires Consistent(db) && LeadsBack(ids, db) && Lists(order, db.devices.Keys)
    ensures ExportsAll(DeviceTable(ids), db.devices, order, ExportDevices(db, order), Stripped(db).devices)
  {
    var t, es := DeviceTable(ids), ExportDevices(db, order);
    DeviceEntries(db, order);
    forall n | 0 <= n < |es|
      ensures ExportOf(t, db.devices[order[n]], es[n], StrippedDevice(db.devices[order[n]]))
    {
      DeviceOverItself(ids, db, order[n]);
      assert t.write(Some(db.devices[order[n]]), es[n]) == WriteDevice(ids, Some(db.devices[order[n]]), es[n]);
    }
  }

  lemma DeviceRowsRoundTrip(ids: map<string, Id>, db: Database, order: seq<Id>)
    requires Consistent(db) && LeadsBack(ids, db) && Lists(order, db.devices.Keys)
    ensures var r := Upserted(DeviceTable(ids), DeviceLoad(ids, db), ExportDevices(db, order));
      r.Ok? && r.value.rows == Stripped(db).devices && r.value.nextId == db.nextId
  {
    DeviceTableLawful(ids);
    DevicesExported(ids, db, order);
    OwnExportRows(DeviceTable(ids), DeviceLoad(ids, db), order, ExportDevices(db, order), Stripped(db).devices);
  }

  lemma DevicesRoundTrip(p: Stage, order: seq<Id>, scan: seq<Id>)
    requires Consistent(p.db) && LeadsBack(p.templateIds, p.db) && Lists(order, p.db.devices.Keys)
    ensures var r := DevicesImported(p, scan, ExportDevices(p.db, order));
      r.Ok? && r.value.db == p.db.(devices := Stripped(p.db).devices)
  {
    DeviceRowsRoundTrip(p.templateIds, p.db, order);
  }

  // --- What names lead to after importing one's own export ---

  /** The last device of a name, in the order the export lists them. */
  function LastCarrier(devices: map<Id, Device>, order: seq<Id>, name: string): Option<Id> {
    if order == [] then None
    else
      var i := order[|order| - 1];
      if i in devices && devices[i].name == name then Some(i)
      else LastCarrier(devices, order[..|order| - 1], name)
  }

  lemma {:induction false} LastCarrierCarries(devices: map<Id, Device>, order: seq<Id>, name: string)
    ensures LastCarrier(devices, order, name).Some? <==> exists i :: CarriesName(devices, order, i, name)
    ensures LastCarrier(devices, order, name).Some? ==>
      CarriesName(devices, order, LastCarrier(devices, order, name).value, name)
    decreases |order|
  {
    if order != [] {
      var init, last := order[..|order| - 1], order[|order| - 1];
      LastCarrierCarries(devices, init, name);
      assert order == init + [last];
      assert CarriesName(devices, order, last, name) <==> last in devices && devices[last].name == name;
      forall i
        ensures CarriesName(devices, order, i, name) <==>
          CarriesName(devices, init, i, name) || (i == last && CarriesName(devices, order, last, name))
      {
      }
    }
  }

  lemma {:induction false} LastKeyOfExport(ids: map<string, Id>, db: Database, order: seq<Id>, name: string)
    requires Consistent(db) && (forall i <- order :: i in db.devices)
    ensures var last := LastCarrier(db.devices, order, name);
      LastKey(DeviceTable(ids), ExportDevices(db, order), name) ==
        if last.Some? && last.value in db.devices then Some(KeyOf(db.devices[last.value])) else None
    decreases |order|
  {
    if order != [] {
      var init, i := order[..|order| - 1], order[|order| - 1];
      var es := ExportDevices(db, order);
      assert i in order;
      LastKeyOfExport(ids, db, init, name);
      LastCarrierCarries(db.devices, init, name);
      assert es == ExportDevices(db, init) + [ExportDevice(db, i).value];
      assert es[..|es| - 1] == ExportDevices(db, init);
    }
  }

  ghost predicate LeadToLast(ids: map<string, Id>, devices: map<Id, Device>, order: seq<Id>) {
    forall name: string :: Get(ids, name) == LastCarrier(devices, order, name)
  }

  lemma RecordedIsLast(p: Stage, order: seq<Id>, name: string)
    requires Consistent(p.db) && LeadsBack(p.templateIds, p.db) && Lists(order, p.db.devices.Keys)
    requires var r := Upserted(DeviceTable(p.templateIds), DeviceLoad(p.templateIds, p.db), ExportDevices(p.db, order));
      r.Ok? && r.value.rows == Stripped(p.db).devices
    ensures Get(Recorded(p, ExportDevices(p.db, order)), name) == LastCarrier(p.db.devices, order, name)
  {
    var t, es := DeviceTable(p.templateIds), ExportDevices(p.db, order);
    DeviceTableLawful(p.templateIds);
    IndexFollowsLastEntry(t, DeviceLoad(p.templateIds, p.db), es, name);
    LastKeyOfExport(p.templateIds, p.db, order, name);
    LastCarrierCarries(p.db.devices, order, name);
    if name in Recorded(p, es) {
      var i := Recorded(p, es)[name];
      assert t.rowKey(StrippedDevice(p.db.devices[i])) == KeyOf(p.db.devices[i]);
    }
  }

  /** Whatever the scan of the stored names adds, it is no other name. */
  lemma NameLeadsToLast(p: Stage, order: seq<Id>, scan: seq<Id>, name: string)
    requires Consistent(p.db) && LeadsBack(p.templateIds, p.db) && Lists(order, p.db.devices.Keys)
    requires var r := Upserted(DeviceTable(p.templateIds), DeviceLoad(p.templateIds, p.db), ExportDevices(p.db, order));
      r.Ok? && r.value.rows == Stripped(p.db).devices
    ensures Get(WithStoredNames(Recorded(p, ExportDevices(p.db, order)), Stripped(p.db).devices, scan), name) ==
      LastCarrier(p.db.devices, order, name)
  {
    var recorded := Recorded(p, ExportDevices(p.db, order));
    RecordedIsLast(p, order, name);
    FirstStored(recorded, Stripped(p.db).devices, scan, name);
    if name !in recorded {
      LastCarrierCarries(p.db.devices, order, name);
      forall i
        ensures !CarriesName(Stripped(p.db).devices, scan, i, name)
      {
        assert !CarriesName(p.db.devices, order, i, name);
      }
    }
  }

  lemma DeviceNamesLeadToLast(p: Stage, order: seq<Id>, scan: seq<Id>)
    requires Consistent(p.db) && LeadsBack(p.templateIds, p.db) && Lists(order, p.db.devices.Keys)
    requires DevicesImported(p, scan, ExportDevices(p.db, order)).Ok?
    ensures LeadToLast(DevicesImported(p, scan, ExportDevices(p.db, order)).value.deviceIds, p.db.devices, order)
  {
    DeviceRowsRoundTrip(p.templateIds, p.db, order);
    forall name: string
      ensures Get(DevicesImported(p, scan, ExportDevices(p.db, order)).value.deviceIds, name) ==
        LastCarrier(p.db.devices, order, name)
    {
      NameLeadsToLast(p, order, scan, name);
    }
  }

  // --- Simulation configs and schedules ---

  /** Ids and names of the devices fit together. */
  ghost predicate NamesFit<R, S>(ids: map<string, Id>, names: map<Id, string>, rows: map<(Id, R), S>) {
    && (forall k <- rows :: k.0 in names && names[k.0] in ids)
    && (forall name <- ids :: ids[name] in names && names[ids[name]] == name)
  }

  /** Every owner is what its name leads to. */
  ghost predicate OwnersReachable<R, S>(ids: map<string, Id>, names: map<Id, string>, rows: map<(Id, R), S>)
    requires NamesFit(ids, names, rows)
  {
    forall k <- rows :: ids[names[k.0]] == k.0
  }

  lemma ConfigEntries<R(!new), S>(names: map<Id, string>, rows: map<(Id, R), S>, order: seq<(Id, R)>)
    requires Lists(order, rows.Keys) && forall k <- rows :: k.0 in names
    ensures var es := ExportConfigs(names, rows, order);
      && |es| == |order|
      && forall n :: 0 <= n < |es| ==> es[n] == C.ConfigExport(names[order[n].0], order[n].1, rows[order[n]])
  {
    CollectAll(order, (k: (Id, R)) => ExportConfig(names, rows, k));
  }

  lemma ExportIsSeparate<R(!new), S>(
      ids: map<string, Id>, names: map<Id, string>, rows: map<(Id, R), S>, es: seq<C.ConfigExport<R, S>>)
    requires NamesFit(ids, names, rows)
    ensures C.Separate(ids, es)
  {
    forall d <- es, e <- es | d.device in ids && e.device in ids && ids[d.device] == ids[e.device]
      ensures d.device == e.device
    {
      assert names[ids[d.device]] == d.device && names[ids[e.device]] == e.device;
    }
  }

  lemma ReachableAreUnchanged<R(!new), S>(
      ids: map<string, Id>, names: map<Id, string>, rows: map<(Id, R), S>, order: seq<(Id, R)>)
    requires Lists(order, rows.Keys) && NamesFit(ids, names, rows) && OwnersReachable(ids, names, rows)
    ensures var r := C.Replaced(ids, rows, ExportConfigs(names, rows, order)); r.Ok? && r.value.rows == rows
  {
    var es := ExportConfigs(names, rows, order);
    ConfigEntries(names, rows, order);
    ExportIsSeparate(ids, names, rows, es);
    forall n, k: (Id, R) | 0 <= n < |es|
      ensures C.Targets(ids, es[n], k) <==> order[n] == k
    {
      assert order[n] in rows;
    }
    C.SeparateExactly(ids, rows, es);
    var out := C.Replaced(ids, rows, es).value.rows;
    forall k: (Id, R)
      ensures Get(out, k) == Get(rows, k)
    {
      forall e <- es
        ensures C.Targets(ids, e, k) ==> k in rows
      {
        var n :| 0 <= n < |es| && es[n] == e;
        assert order[n] in rows;
      }
      if C.Touched(ids, es, k.0) {
        C.SeparateRows(ids, rows, es, k);
        if k in rows {
          var n :| 0 <= n < |order| && order[n] == k;
          assert es[n] in es && C.Targets(ids, es[n], k);
        }
      } else {
        C.UntouchedKeepRows(ids, rows, es, k);
      }
    }
    C.SameByGet(out, rows);
  }

  /** An export that lands on an exported row is that row's own. */
  lemma LandsOnItself<R(!new), S>(
      ids: map<string, Id>, names: map<Id, string>, rows: map<(Id, R), S>, order: seq<(Id, R)>, k: (Id, R))
    requires Lists(order, rows.Keys) && NamesFit(ids, names, rows) && k in rows
    requires C.TargetsDiffer(ids, ExportConfigs(names, rows, order)) && (ids[names[k.0]], k.1) in rows
    ensures ids[names[k.0]] == k.0
  {
    var es, target := ExportConfigs(names, rows, order), (ids[names[k.0]], k.1);
    ConfigEntries(names, rows, order);
    var n :| 0 <= n < |order| && order[n] == k;
    var m :| 0 <= m < |order| && order[m] == target;
    var first, second := if n < m then n else m, if n < m then m else n;
    assert n == m || C.SameTarget(ids, es[first], es[second]);
  }

  lemma UnchangedAreReachable<R(!new), S>(
      ids: map<string, Id>, names: map<Id, string>, rows: map<(Id, R), S>, order: seq<(Id, R)>, k: (Id, R))
    requires Lists(order, rows.Keys) && NamesFit(ids, names, rows) && k in rows
    requires var r := C.Replaced(ids, rows, ExportConfigs(names, rows, order)); r.Ok? && r.value.rows == rows
    ensures ids[names[k.0]] == k.0
  {
    var es, target := ExportConfigs(names, rows, order), (ids[names[k.0]], k.1);
    ConfigEntries(names, rows, order);
    ExportIsSeparate(ids, names, rows, es);
    C.SeparateExactly(ids, rows, es);
    var n :| 0 <= n < |order| && order[n] == k;
    assert es[n] in es && C.Targets(ids, es[n], target);
    C.SeparateRows(ids, rows, es, target);
    LandsOnItself(ids, names, rows, order, k);
  }

  /** A table of configs survives exactly when every owner is what its name leads to. */
  lemma ConfigsUnchangedExactly<R(!new), S>(
      ids: map<string, Id>, names: map<Id, string>, rows: map<(Id, R), S>, order: seq<(Id, R)>)
    requires Lists(order, rows.Keys) && NamesFit(ids, names, rows)
    ensures (var r := C.Replaced(ids, rows, ExportConfigs(names, rows, order)); r.Ok? && r.value.rows == rows) <==>
      OwnersReachable(ids, names, rows)
  {
    var r := C.Replaced(ids, rows, ExportConfigs(names, rows, order));
    if OwnersReachable(ids, names, rows) {
      ReachableAreUnchanged(ids, names, rows, order);
    }
    if r.Ok? && r.value.rows == rows {
      forall k <- rows
        ensures ids[names[k.0]] == k.0
      {
        UnchangedAreReachable(ids, names, rows, order, k);
      }
    }
  }

  // --- Brokers ---

  lemma BrokerEntriesListed(db: Database, order: seq<Id>)
    requires Lists(order, db.brokers.Keys)
    ensures |ExportBrokers(db, order)| == |order|
    ensures forall n :: 0 <= n < |order| ==> Get(db.brokers, order[n]) == Some(ExportBrokers(db, order)[n])
  {
    CollectAll(order, (i: Id) => Get(db.brokers, i));
  }

  lemma BrokerRowsRoundTrip(db: Database, order: seq<Id>)
    requires Consistent(db) && Lists(order, db.brokers.Keys)
    ensures var r := Upserted(BrokerTable(), BrokerLoad(db), ExportBrokers(db, order));
      r.Ok? && r.value.rows == db.brokers && r.value.nextId == db.nextId
  {
    var t, es := BrokerTable(), ExportBrokers(db, order);
    BrokerTableLawful();
    BrokerEntriesListed(db, order);
    forall n | 0 <= n < |es|
      ensures ExportOf(t, db.brokers[order[n]], es[n], db.brokers[order[n]])
    {
      assert t.write(Some(db.brokers[order[n]]), es[n]) == Ok(WriteBroker(Some(db.brokers[order[n]]), es[n]));
    }
    OwnExportRows(t, BrokerLoad(db), order, es, db.brokers);
  }

  lemma BrokersRoundTrip(p: Stage, order: seq<Id>)
    requires Consistent(p.db) && Lists(order, p.db.brokers.Keys)
    ensures var r := BrokersImported(p, ExportBrokers(p.db, order));
      r.Ok? && r.value.db == p.db && r.value.deviceIds == p.deviceIds && NamesBrokers(r.value.brokerIds, p.db)
  {
    BrokerRowsRoundTrip(p.db, order);
    BrokersKeepConsistent(p, ExportBrokers(p.db, order));
  }

  // --- Publish configs ---

  /** Two rows whose exports name the same device and broker. */
  ghost predicate SameNames(db: Database, k: (Id, Id), l: (Id, Id)) {
    k.0 in db.devices && l.0 in db.devices && db.devices[k.0].name == db.devices[l.0].name && k.1 == l.1
  }

  /** No later row names the same device and broker. */
  ghost predicate LastOfNames(db: Database, order: seq<(Id, Id)>, n: nat)
    requires n < |order|
  {
    forall m :: n < m < |order| ==> !SameNames(db, order[n], order[m])
  }

  /** The row that takes the export of this row already holds the same config. */
  ghost predicate Settled(db: Database, devices: seq<Id>, k: (Id, Id)) {
    && k in db.publishes && k.0 in db.devices
    && var last := LastCarrier(db.devices, devices, db.devices[k.0].name);
       last.Some? && Get(db.publishes, (last.value, k.1)) == Some(db.publishes[k])
  }

  ghost predicate PublishesSettle(db: Database, o: RowOrder) {
    forall n :: 0 <= n < |o.publishes| && LastOfNames(db, o.publishes, n) ==> Settled(db, o.devices, o.publishes[n])
  }

  lemma PublishEntries(db: Database, order: seq<(Id, Id)>)
    requires Consistent(db) && Lists(order, db.publishes.Keys)
    ensures |ExportPublishes(db, order)| == |order|
    ensures forall n | 0 <= n < |order| ::
      order[n] in db.publishes && ExportPublish(db, order[n]) == Some(ExportPublishes(db, order)[n])
  {
    forall k <- order
      ensures ExportPublish(db, k).Some?
    {
      assert k in db.publishes;
    }
    CollectAll(order, (k: (Id, Id)) => ExportPublish(db, k));
  }

  /** Where the export of a row lands. */
  lemma PublishLinks(db: Database, o: RowOrder, ids: map<string, Id>, brokerIds: map<string, Id>, l: (Id, Id),
                     e: C.PublishExport<PublishSpec>, k: (Id, Id))
    requires Consistent(db) && OrdersRows(o, db) && LeadToLast(ids, db.devices, o.devices)
    requires NamesBrokers(brokerIds, db)
    requires l in db.publishes && ExportPublish(db, l) == Some(e)
    ensures l.0 in db.devices && LastCarrier(db.devices, o.devices, db.devices[l.0].name).Some?
    ensures C.Links(ids, brokerIds, e, k) <==>
      LastCarrier(db.devices, o.devices, db.devices[l.0].name) == Some(k.0) && k.1 == l.1
  {
    assert Get(ids, e.device) == LastCarrier(db.devices, o.devices, e.device);
    LastCarrierCarries(db.devices, o.devices, e.device);
    assert CarriesName(db.devices, o.devices, l.0, e.device);
    assert db.brokers[l.1].name in brokerIds;
  }

  /** Rows land together exactly when they name the same device and broker. */
  lemma LandTogether(
      db: Database, o: RowOrder, ids: map<string, Id>, brokerIds: map<string, Id>, a: (Id, Id), b: (Id, Id),
                     ea: C.PublishExport<PublishSpec>, eb: C.PublishExport<PublishSpec>, k: (Id, Id))
    requires Consistent(db) && OrdersRows(o, db) && LeadToLast(ids, db.devices, o.devices)
    requires NamesBrokers(brokerIds, db)
    requires a in db.publishes && b in db.publishes && ExportPublish(db, a) == Some(ea)
    requires ExportPublish(db, b) == Some(eb)
    requires C.Links(ids, brokerIds, ea, k)
    ensures C.Links(ids, brokerIds, eb, k) <==> SameNames(db, a, b)
  {
    PublishLinks(db, o, ids, brokerIds, a, ea, k);
    PublishLinks(db, o, ids, brokerIds, b, eb, k);
    LastCarrierCarries(db.devices, o.devices, db.devices[a.0].name);
    LastCarrierCarries(db.devices, o.devices, db.devices[b.0].name);
  }

  lemma SettledAreUnchanged(db: Database, o: RowOrder, ids: map<string, Id>, brokerIds: map<string, Id>, k: (Id, Id))
    requires Consistent(db) && OrdersRows(o, db) && LeadToLast(ids, db.devices, o.devices)
    requires NamesBrokers(brokerIds, db)
    requires PublishesSettle(db, o) && C.LastSpec(ids, brokerIds, ExportPublishes(db, o.publishes), k).Some?
    ensures Get(db.publishes, k) == C.LastSpec(ids, brokerIds, ExportPublishes(db, o.publishes), k)
  {
    var es := ExportPublishes(db, o.publishes);
    PublishEntries(db, o.publishes);
    var n := C.LastSpecIsLinked(ids, brokerIds, es, k);
    forall m | n < m < |es|
      ensures !SameNames(db, o.publishes[n], o.publishes[m])
    {
      LandTogether(db, o, ids, brokerIds, o.publishes[n], o.publishes[m], es[n], es[m], k);
    }
    assert LastOfNames(db, o.publishes, n);
    PublishLinks(db, o, ids, brokerIds, o.publishes[n], es[n], k);
    assert Settled(db, o.devices, o.publishes[n]);
  }

  lemma UnchangedAreSettled(db: Database, o: RowOrder, ids: map<string, Id>, brokerIds: map<string, Id>, n: nat)
    requires Consistent(db) && OrdersRows(o, db) && LeadToLast(ids, db.devices, o.devices)
    requires NamesBrokers(brokerIds, db)
    requires n < |o.publishes| && LastOfNames(db, o.publishes, n)
    requires C.Published(ids, brokerIds, db.publishes, ExportPublishes(db, o.publishes)) == db.publishes
    ensures Settled(db, o.devices, o.publishes[n])
  {
    var es, l := ExportPublishes(db, o.publishes), o.publishes[n];
    PublishEntries(db, o.publishes);
    var last := LastCarrier(db.devices, o.devices, db.devices[l.0].name);
    PublishLinks(db, o, ids, brokerIds, l, es[n], l);
    var k := (last.value, l.1);
    PublishLinks(db, o, ids, brokerIds, l, es[n], k);
    forall m | n < m < |es|
      ensures !C.Links(ids, brokerIds, es[m], k)
    {
      LandTogether(db, o, ids, brokerIds, l, o.publishes[m], es[n], es[m], k);
    }
    C.LastSpecAt(ids, brokerIds, es, k, n);
    C.PublishedRows(ids, brokerIds, db.publishes, es, k);
  }

  lemma PublishesSettleExactly(db: Database, o: RowOrder, ids: map<string, Id>, brokerIds: map<string, Id>)
    requires Consistent(db) && OrdersRows(o, db) && LeadToLast(ids, db.devices, o.devices)
    requires NamesBrokers(brokerIds, db)
    ensures C.Published(ids, brokerIds, db.publishes, ExportPublishes(db, o.publishes)) == db.publishes
       <==> PublishesSettle(db, o)
  {
    var es := ExportPublishes(db, o.publishes);
    C.PublishedUnchangedExactly(ids, brokerIds, db.publishes, es);
    if PublishesSettle(db, o) {
      forall k: (Id, Id) | C.LastSpec(ids, brokerIds, es, k).Some?
        ensures Get(db.publishes, k) == C.LastSpec(ids, brokerIds, es, k)
      {
        SettledAreUnchanged(db, o, ids, brokerIds, k);
      }
    }
    if C.Published(ids, brokerIds, db.publishes, es) == db.publishes {
      forall n | 0 <= n < |o.publishes| && LastOfNames(db, o.publishes, n)
        ensures Settled(db, o.devices, o.publishes[n])
      {
        UnchangedAreSettled(db, o, ids, brokerIds, n);
      }
    }
  }

  // --- The whole round trip ---

  lemma DeviceExportsUnchanged(db: Database, order: seq<Id>)
    requires Consistent(db)
    ensures ExportDevices(db.(templates := Stripped(db).templates), order) == ExportDevices(db, order)
  {
    var db1 := db.(templates := Stripped(db).templates);
    CollectSame(order, (i: Id) => ExportDevice(db1, i), (i: Id) => ExportDevice(db, i));
  }

  lemma NamesLeadBack(ids: map<string, Id>, db: Database)
    requires UniqueRows(db) && NamesTemplates(ids, db)
    ensures LeadsBack(ids, db)
  {
  }

  lemma PreparedOwn(db: Database, o: RowOrder, scan: seq<Id>)
    requires Consistent(db) && OrdersRows(o, db)
    ensures var r := Prepared(db, scan, Exported(db, o));
      r.Ok? && r.value.db == Stripped(db) && LeadToLast(r.value.deviceIds, db.devices, o.devices)
  {
    var s := Exported(db, o);
    TemplatesRoundTrip(db, o);
    TemplatesKeepConsistent(db, s.templates);
    var p := TemplatesImported(db, s.templates).value;
    NamesLeadBack(p.templateIds, p.db);
    DeviceExportsUnchanged(db, o.devices);
    DevicesRoundTrip(p, o.devices, scan);
    DeviceNamesLeadToLast(p, o.devices, scan);
  }

  lemma OwnNamesFit<R, S>(ids: map<string, Id>, db: Database, order: seq<Id>, rows: map<(Id, R), S>)
    requires Consistent(db) && Lists(order, db.devices.Keys) && LeadToLast(ids, db.devices, order)
    requires forall k <- rows :: k.0 in db.devices
    ensures NamesFit(ids, DeviceNames(db), rows)
    ensures OwnersReachable(ids, DeviceNames(db), rows) <==> forall k <- rows :: ListedLast(db, order, k.0)
  {
    var names := DeviceNames(db);
    forall i <- db.devices
      ensures Get(ids, names[i]) == LastCarrier(db.devices, order, names[i]) && names[i] in ids
    {
      LastCarrierCarries(db.devices, order, names[i]);
      assert CarriesName(db.devices, order, i, names[i]);
    }
    forall name <- ids
      ensures ids[name] in names && names[ids[name]] == name
    {
      assert Get(ids, name) == LastCarrier(db.devices, order, name);
      LastCarrierCarries(db.devices, order, name);
    }
  }

  /** No device listed later carries this device's name. */
  ghost predicate ListedLast(db: Database, order: seq<Id>, i: Id) {
    i in db.devices && LastCarrier(db.devices, order, db.devices[i].name) == Some(i)
  }

  ghost predicate OwnersListedLast<R, S>(db: Database, order: seq<Id>, rows: map<(Id, R), S>) {
    forall k <- rows :: ListedLast(db, order, k.0)
  }

  ghost predicate ConfigOwnersListedLast(db: Database, order: seq<Id>) {
    OwnersListedLast(db, order, db.simulations) && OwnersListedLast(db, order, db.schedules)
  }

  /** Among devices of one name only the last listed one owns configs, up to publish configs that agree. */
  ghost predicate NamesSuffice(db: Database, o: RowOrder) {
    ConfigOwnersListedLast(db, o.devices) && PublishesSettle(db, o)
  }

  /** The table is what importing its own export leaves. */
  ghost predicate TableSurvives<R(!new), S>(
      ids: map<string, Id>, names: map<Id, string>, rows: map<(Id, R), S>, rowOrder: seq<(Id, R)>)
  {
    var r := C.Replaced(ids, rows, ExportConfigs(names, rows, rowOrder));
    r.Ok? && r.value.rows == rows
  }

  /** One table of configs survives exactly when its owners are listed last. */
  lemma OwnConfigsExactly<R(!new), S>(
      ids: map<string, Id>, db: Database, order: seq<Id>, rows: map<(Id, R), S>, rowOrder: seq<(Id, R)>)
    requires Consistent(db) && Lists(order, db.devices.Keys) && LeadToLast(ids, db.devices, order)
    requires (forall k <- rows :: k.0 in db.devices) && Lists(rowOrder, rows.Keys)
    ensures TableSurvives(ids, DeviceNames(db), rows, rowOrder) <==> OwnersListedLast(db, order, rows)
  {
    OwnNamesFit(ids, db, order, rows);
    ConfigsUnchangedExactly(ids, DeviceNames(db), rows, rowOrder);
  }

  lemma ConfigsSurviveExactly(p: Stage, db: Database, o: RowOrder)
    requires p.db.simulations == db.simulations && p.db.schedules == db.schedules
    ensures var r := ConfigsImported(p, Exported(db, o));
      (r.Ok? && r.value.db.simulations == db.simulations && r.value.db.schedules == db.schedules) <==>
      && TableSurvives(p.deviceIds, DeviceNames(db), db.simulations, o.simulations)
      && TableSurvives(p.deviceIds, DeviceNames(db), db.schedules, o.schedules)
  {
  }

  lemma ConfigsOwn(p: Stage, db: Database, o: RowOrder)
    requires Consistent(db) && OrdersRows(o, db) && LeadToLast(p.deviceIds, db.devices, o.devices)
    requires p.db.simulations == db.simulations && p.db.schedules == db.schedules
    ensures var r := ConfigsImported(p, Exported(db, o));
      (r.Ok? && r.value.db.simulations == db.simulations && r.value.db.schedules == db.schedules) <==>
      ConfigOwnersListedLast(db, o.devices)
  {
    OwnConfigsExactly(p.deviceIds, db, o.devices, db.simulations, o.simulations);
    OwnConfigsExactly(p.deviceIds, db, o.devices, db.schedules, o.schedules);
    ConfigsSurviveExactly(p, db, o);
  }

  /** Brokers and publish configs, after the configs before them went through. */
  lemma PublishersOwn(q: Stage, db: Database, o: RowOrder)
    requires Consistent(db) && OrdersRows(o, db) && LeadToLast(q.deviceIds, db.devices, o.devices) && Consistent(q.db)
    requires q.db.brokers == db.brokers && q.db.publishes == db.publishes
    ensures var r, es := BrokersImported(q, ExportBrokers(db, o.brokers)), ExportPublishes(db, o.publishes);
      && r.Ok?
      && PublishesImported(r.value, es).db
           == q.db.(publishes := C.Published(r.value.deviceIds, r.value.brokerIds, db.publishes, es))
      && (C.Published(r.value.deviceIds, r.value.brokerIds, db.publishes, es) == db.publishes <==>
            PublishesSettle(db, o))
  {
    CollectSame(o.brokers, (i: Id) => Get(q.db.brokers, i), (i: Id) => Get(db.brokers, i));
    BrokersRoundTrip(q, o.brokers);
    var b := BrokersImported(q, ExportBrokers(db, o.brokers)).value;
    assert NamesBrokers(b.brokerIds, db);
    PublishesSettleExactly(db, o, b.deviceIds, b.brokerIds);
  }

  lemma CompletedOwnIs(p: Stage, db: Database, o: RowOrder) returns (q: Stage, r: Database)
    requires Consistent(db) && OrdersRows(o, db) && LeadToLast(p.deviceIds, db.devices, o.devices)
    requires Consistent(p.db) && NamesDevices(p.deviceIds, p.db)
    requires p.db.brokers == db.brokers && p.db.publishes == db.publishes
    requires ConfigsImported(p, Exported(db, o)).Ok?
    ensures ConfigsImported(p, Exported(db, o)) == Ok(q)
    ensures Completed(p, Exported(db, o)).Ok? && Completed(p, Exported(db, o)).value.db == r
    ensures q.db == p.db.(simulations := q.db.simulations, schedules := q.db.schedules)
    ensures r == q.db.(publishes := r.publishes) && (r.publishes == db.publishes <==> PublishesSettle(db, o))
  {
    var s := Exported(db, o);
    q := ConfigStage(p, s);
    PublishersOwn(q, db, o);
    var b := BrokersImported(q, s.brokers).value;
    CompletedIs(p, s, q, b);
    r := PublishesImported(b, s.publishes).db;
  }

  lemma SameByTables(s: Database, q: Database, r: Database)
    requires q == s.(simulations := q.simulations, schedules := q.schedules) && r == q.(publishes := r.publishes)
    ensures r == s <==> q.simulations == s.simulations && q.schedules == s.schedules && r.publishes == s.publishes
  {
  }

  lemma CompletedOwnEquals(p: Stage, db: Database, o: RowOrder)
    requires Consistent(db) && OrdersRows(o, db) && LeadToLast(p.deviceIds, db.devices, o.devices)
    requires Consistent(p.db) && NamesDevices(p.deviceIds, p.db)
    requires p.db.brokers == db.brokers && p.db.publishes == db.publishes
    requires ConfigsImported(p, Exported(db, o)).Ok?
    ensures Completed(p, Exported(db, o)).Ok?
    ensures var q := ConfigsImported(p, Exported(db, o)).value.db;
      Completed(p, Exported(db, o)).value.db == p.db <==>
      q.simulations == p.db.simulations && q.schedules == p.db.schedules && PublishesSettle(db, o)
  {
    var q, r := CompletedOwnIs(p, db, o);
    SameByTables(p.db, q.db, r);
  }

  lemma CompletedOwn(p: Stage, db: Database, o: RowOrder)
    requires Consistent(db) && OrdersRows(o, db) && p.db == Stripped(db)
    requires LeadToLast(p.deviceIds, db.devices, o.devices)
    requires Consistent(p.db) && NamesDevices(p.deviceIds, p.db)
    ensures var r := Completed(p, Exported(db, o)); (r.Ok? && r.value.db == Stripped(db)) <==> NamesSuffice(db, o)
  {
    ConfigsOwn(p, db, o);
    if ConfigsImported(p, Exported(db, o)).Ok? {
      CompletedOwnEquals(p, db, o);
    }
  }

  /**
   Importing one's own export gives the same database back, minus object identifiers
   and running states, exactly when names suffice to tell the owners of configs apart.
   */
  lemma RoundTripExactly(db: Database, o: RowOrder, scan: seq<Id>)
    requires Consistent(db) && OrdersRows(o, db)
    ensures (var r := Imported(db, scan, Exported(db, o)); r.Ok? && r.value.db == Stripped(db)) <==> NamesSuffice(db, o)
  {
    PreparedOwn(db, o, scan);
    PreparedKeepsConsistent(db, scan, Exported(db, o));
    CompletedOwn(Prepared(db, scan, Exported(db, o)).value, db, o);
  }

  ghost predicate UniqueDeviceNames(db: Database) {
    forall i <- db.devices, j <- db.devices :: db.devices[i].name == db.devices[j].name ==> i == j
  }

  lemma UniqueAreListedLast(db: Database, order: seq<Id>, i: Id)
    requires UniqueDeviceNames(db) && Lists(order, db.devices.Keys) && i in db.devices
    ensures ListedLast(db, order, i)
  {
    LastCarrierCarries(db.devices, order, db.devices[i].name);
    assert CarriesName(db.devices, order, i, db.devices[i].name);
  }

  lemma UniqueNamesSuffice(db: Database, o: RowOrder)
    requires Consistent(db) && OrdersRows(o, db) && UniqueDeviceNames(db)
    ensures NamesSuffice(db, o)
  {
    forall i <- db.devices
      ensures ListedLast(db, o.devices, i)
    {
      UniqueAreListedLast(db, o.devices, i);
    }
    forall n | 0 <= n < |o.publishes|
      ensures Settled(db, o.devices, o.publishes[n])
    {
      assert o.publishes[n] in db.publishes;
      assert ListedLast(db, o.devices, o.publishes[n].0);
    }
  }

  /** So a system whose device names are unique survives the round trip. */
  lemma RoundTrip(db: Database, o: RowOrder, scan: seq<Id>)
    requires Consistent(db) && OrdersRows(o, db) && UniqueDeviceNames(db)
    ensures Imported(db, scan, Exported(db, o)).Ok?
    ensures Imported(db, scan, Exported(db, o)).value.db == Stripped(db)
  {
    UniqueNamesSuffice(db, o);
    RoundTripExactly(db, o, scan);
  }

  /** Two meters of one name, of which the first listed has a simulation config. */
  function TwoMeters(spec: SimulationSpec): Database {
    Database(
      map[0 := Template("T", "modbus_tcp", None, false, map[])],
      map[1 := Device("M", 0, 1, 502, Stopped, None), 2 := Device("M", 0, 2, 502, Stopped, None)],
      map[(1, "v") := spec], map[], map[], map[], 3)
  }

  const TWO_METERS_ORDER := RowOrder([0], [], [1, 2], [(1, "v")], [], [], [])

  lemma TwoMetersConsistent(spec: SimulationSpec)
    ensures Consistent(TwoMeters(spec))
  {
  }

  lemma TwoMetersOrdered(spec: SimulationSpec)
    ensures OrdersRows(TWO_METERS_ORDER, TwoMeters(spec))
  {
    assert RegisterKeys(TwoMeters(spec)) == {};
  }

  lemma FirstMeterNotLast(spec: SimulationSpec)
    ensures !ListedLast(TwoMeters(spec), TWO_METERS_ORDER.devices, 1)
  {
    assert LastCarrier(TwoMeters(spec).devices, TWO_METERS_ORDER.devices, "M") == Some(2);
  }

  /** Their round trip fails: the name leads to the second meter, which takes the config over. */
  lemma SharedNameBreaksRoundTrip(spec: SimulationSpec, scan: seq<Id>)
    ensures Consistent(TwoMeters(spec)) && OrdersRows(TWO_METERS_ORDER, TwoMeters(spec))
    ensures var db := TwoMeters(spec);
      var r := Imported(db, scan, Exported(db, TWO_METERS_ORDER)); !(r.Ok? && r.value.db == Stripped(db))
  {
    TwoMetersConsistent(spec);
    TwoMetersOrdered(spec);
    FirstMeterNotLast(spec);
    assert (1, "v") in TwoMeters(spec).simulations;
    RoundTripExactly(TwoMeters(spec), TWO_METERS_ORDER, scan);
  }

  lemma FirstMeter(spec: SimulationSpec, order: seq<Id>, i: Id)
    requires |order| == 2 && order[0] == i && {order[0], order[1]} == {1, 2}
    ensures Lists(order, TwoMeters(spec).devices.Keys) && IsFirst(TwoMeters(spec).devices, order, i, "M")
  {
    assert order[0] in {1, 2} && order[1] in {1, 2} && order[0] != order[1];
  }

  /** Importing one config for that name again changes more, if the query lists the meters the other way round. */
  lemma SharedNameChangesAgain(spec: SimulationSpec, s: Snapshot, e: C.ConfigExport<string, SimulationSpec>)
    requires JustConfig(s, e) && e.device == "M"
    ensures var db := TwoMeters(spec);
      && Consistent(db) && Imported(db, [1, 2], s).Ok? && Consistent(Imported(db, [1, 2], s).value.db)
      && Imported(Imported(db, [1, 2], s).value.db, [2, 1], s).Ok?
      && Imported(Imported(db, [1, 2], s).value.db, [2, 1], s).value.db != Imported(db, [1, 2], s).value.db
  {
    TwoMetersConsistent(spec);
    FirstMeter(spec, [1, 2], 1);
    FirstMeter(spec, [2, 1], 2);
    OtherFirstChanges(TwoMeters(spec), [1, 2], [2, 1], s, e, 1, 2);
  }
}
