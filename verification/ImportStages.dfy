/** Each section of an import keeps the database's constraints. */
module ImportStages {
  import opened Prelude
  import opened Upserts
  import opened ConfigReplacement
  import opened Snapshots

  lemma TemplateTableLawful()
    ensures Lawful(TemplateTable())
  {
    var t := TemplateTable();
    forall prior: Option<Template>, e: TemplateExport
      ensures WritesKey(t, prior, e) && (t.write(prior, e).Ok? <==> t.write(None, e).Ok?)
    {
      assert t.write(prior, e) == WriteTemplate(prior, e) && t.write(None, e) == WriteTemplate(None, e);
    }
  }

  lemma DeviceTableLawful(templateIds: map<string, Id>)
    ensures Lawful(DeviceTable(templateIds))
  {
    var t := DeviceTable(templateIds);
    forall prior: Option<Device>, e: DeviceExport
      ensures WritesKey(t, prior, e) && (t.write(prior, e).Ok? <==> t.write(None, e).Ok?)
    {
      assert t.write(prior, e) == WriteDevice(templateIds, prior, e);
    }
  }

  lemma BrokerTableLawful()
    ensures Lawful(BrokerTable())
  {
    var t := BrokerTable();
    forall prior: Option<Broker>, e: Broker
      ensures WritesKey(t, prior, e) && (t.write(prior, e).Ok? <==> t.write(None, e).Ok?)
    {
      assert t.write(prior, e) == Ok(WriteBroker(prior, e));
    }
  }

  function TemplateLoad(db: Database): (load: Load<string, Template>)
    requires UniqueRows(db) && IdsIssued(db)
    ensures Sound(TemplateTable(), load) && Complete(TemplateTable(), load)
  {
    Load(db.templates, TemplatesByName(db.templates), map[], db.nextId)
  }

  function DeviceLoad(templateIds: map<string, Id>, db: Database): (load: Load<DeviceKey, Device>)
    requires UniqueRows(db) && IdsIssued(db)
    ensures Sound(DeviceTable(templateIds), load) && Complete(DeviceTable(templateIds), load)
  {
    Load(db.devices, DevicesByKey(db.devices), map[], db.nextId)
  }

  function BrokerLoad(db: Database): (load: Load<string, Broker>)
    requires UniqueRows(db) && IdsIssued(db)
    ensures Sound(BrokerTable(), load) && Complete(BrokerTable(), load)
  {
    Load(db.brokers, BrokersByName(db.brokers), map[], db.nextId)
  }

  // --- Registers ---

  lemma {:induction false} FreshRegistersUnique(es: seq<RegisterExport>)
    requires RegistersFrom(es).Ok?
    ensures UniqueRegisters(RegistersFrom(es).value)
    decreases |es|
  {
    if es != [] {
      FreshRegistersUnique(es[..|es| - 1]);
      var before, e := RegistersFrom(es[..|es| - 1]).value, es[|es| - 1];
      assert !Clashes(before, e);
    }
  }

  // --- Templates ---

  lemma {:induction false} RegistersStayUnique(load: Load<string, Template>, es: seq<TemplateExport>)
    requires Sound(TemplateTable(), load) && Upserted(TemplateTable(), load, es).Ok?
    requires forall i <- load.rows :: UniqueRegisters(load.rows[i].registers)
    ensures forall i <- Upserted(TemplateTable(), load, es).value.rows ::
      UniqueRegisters(Upserted(TemplateTable(), load, es).value.rows[i].registers)
    decreases |es|
  {
    if es != [] {
      var t, e := TemplateTable(), es[|es| - 1];
      RegistersStayUnique(load, es[..|es| - 1]);
      var before := Upserted(t, load, es[..|es| - 1]).value;
      if RegistersFrom(e.registers).Ok? {
        FreshRegistersUnique(e.registers);
      }
      assert t.write(Known(before, e.name), e) == WriteTemplate(Known(before, e.name), e);
    }
  }

  /** Template names lead to the template of that name, for every template. */
  ghost predicate NamesTemplates(ids: map<string, Id>, db: Database) {
    && (forall name <- ids :: ids[name] in db.templates && db.templates[ids[name]].name == name)
    && (forall i <- db.templates :: db.templates[i].name in ids)
  }

  lemma TemplatesKeepConsistent(db: Database, es: seq<TemplateExport>)
    requires Consistent(db) && TemplatesImported(db, es).Ok?
    ensures Consistent(TemplatesImported(db, es).value.db)
    ensures NamesTemplates(TemplatesImported(db, es).value.templateIds, TemplatesImported(db, es).value.db)
  {
    var t, load := TemplateTable(), TemplateLoad(db);
    var out := Upserted(t, load, es).value;
    var p := TemplatesImported(db, es).value;
    TemplateTableLawful();
    UpsertedKeeps(t, load, es);
    RegistersStayUnique(load, es);
    assert UniqueRows(p.db) by {
      assert UniqueKeys(t, out.rows);
      forall i <- out.rows, j <- out.rows | out.rows[i].name == out.rows[j].name
        ensures i == j
      {
        assert t.rowKey(out.rows[i]) == t.rowKey(out.rows[j]);
      }
    }
    forall name <- p.templateIds
      ensures p.templateIds[name] in out.rows && out.rows[p.templateIds[name]].name == name
    {
      IndexIsByKey(t, load, es, name);
      if name !in out.index {
        assert load.known[name] in load.rows;
        assert t.rowKey(out.rows[load.known[name]]) == t.rowKey(load.rows[load.known[name]]);
      }
    }
    forall i <- out.rows
      ensures out.rows[i].name in p.templateIds
    {
      if i in load.rows {
        assert t.rowKey(out.rows[i]) == t.rowKey(load.rows[i]);
      } else {
        InsertedAreIndexed(t, load, es, i);
      }
    }
  }

  // --- Devices ---

  /** Every id a device name leads to is a device. */
  ghost predicate NamesDevices(ids: map<string, Id>, db: Database) {
    forall name <- ids :: ids[name] in db.devices
  }

  lemma {:induction false} StoredNamesLead(ids: map<string, Id>, devices: map<Id, Device>, order: seq<Id>)
    requires forall name <- ids :: ids[name] in devices
    ensures forall name <- WithStoredNames(ids, devices, order) :: WithStoredNames(ids, devices, order)[name] in devices
    decreases |order|
  {
    if order != [] {
      StoredNamesLead(ids, devices, order[..|order| - 1]);
    }
  }

  lemma {:induction false} TemplateIdsStayKnown(
      ids: map<string, Id>, templates: map<Id, Template>, load: Load<DeviceKey, Device>, es: seq<DeviceExport>)
    requires forall name <- ids :: ids[name] in templates
    requires forall i <- load.rows :: load.rows[i].templateId in templates
    requires Upserted(DeviceTable(ids), load, es).Ok?
    ensures forall i <- Upserted(DeviceTable(ids), load, es).value.rows ::
      Upserted(DeviceTable(ids), load, es).value.rows[i].templateId in templates
    decreases |es|
  {
    if es != [] {
      var t, e := DeviceTable(ids), es[|es| - 1];
      TemplateIdsStayKnown(ids, templates, load, es[..|es| - 1]);
      var before := Upserted(t, load, es[..|es| - 1]).value;
      assert t.write(Known(before, t.entryKey(e)), e) == WriteDevice(ids, Known(before, t.entryKey(e)), e);
    }
  }

  lemma DevicesKeepConsistent(p: Stage, order: seq<Id>, es: seq<DeviceExport>)
    requires Consistent(p.db) && NamesTemplates(p.templateIds, p.db) && DevicesImported(p, order, es).Ok?
    ensures Consistent(DevicesImported(p, order, es).value.db)
    ensures NamesDevices(DevicesImported(p, order, es).value.deviceIds, DevicesImported(p, order, es).value.db)
    ensures forall i <- p.db.devices :: i in DevicesImported(p, order, es).value.db.devices
  {
    var t, load := DeviceTable(p.templateIds), DeviceLoad(p.templateIds, p.db);
    var out := Upserted(t, load, es).value;
    DeviceTableLawful(p.templateIds);
    UpsertedKeeps(t, load, es);
    TemplateIdsStayKnown(p.templateIds, p.db.templates, load, es);
    StoredNamesLead(out.index, out.rows, order);
    forall i <- out.rows, j <- out.rows | KeyOf(out.rows[i]) == KeyOf(out.rows[j])
      ensures i == j
    {
      assert t.rowKey(out.rows[i]) == t.rowKey(out.rows[j]);
    }
  }

  // --- Configs, brokers and publish configs ---

  lemma {:induction false} ReplacedStayOwned<R(!new), S>(
      ids: map<string, Id>, rows: map<(Id, R), S>, es: seq<ConfigExport<R, S>>, devices: set<Id>)
    requires Replaced(ids, rows, es).Ok?
    requires (forall name <- ids :: ids[name] in devices) && (forall k <- rows :: k.0 in devices)
    ensures forall k <- Replaced(ids, rows, es).value.rows :: k.0 in devices
    decreases |es|
  {
    if es != [] {
      ReplacedStayOwned(ids, rows, es[..|es| - 1], devices);
    }
  }

  lemma ConfigsKeepConsistent(p: Stage, s: Snapshot)
    requires Consistent(p.db) && NamesDevices(p.deviceIds, p.db) && ConfigsImported(p, s).Ok?
    ensures Consistent(ConfigsImported(p, s).value.db)
  {
    ReplacedStayOwned(p.deviceIds, p.db.simulations, s.simulations, p.db.devices.Keys);
    ReplacedStayOwned(p.deviceIds, p.db.schedules, s.schedules, p.db.devices.Keys);
  }

  /** Broker names lead to the broker of that name, for every broker. */
  ghost predicate NamesBrokers(ids: map<string, Id>, db: Database) {
    && (forall name <- ids :: ids[name] in db.brokers && db.brokers[ids[name]].name == name)
    && (forall i <- db.brokers :: db.brokers[i].name in ids)
  }

  lemma BrokersKeepConsistent(p: Stage, es: seq<Broker>)
    requires Consistent(p.db)
    ensures BrokersImported(p, es).Ok?
    ensures Consistent(BrokersImported(p, es).value.db)
    ensures NamesBrokers(BrokersImported(p, es).value.brokerIds, BrokersImported(p, es).value.db)
  {
    var t, load := BrokerTable(), BrokerLoad(p.db);
    BrokerTableLawful();
    AcceptedExactly(t, load, es);
    var out := Upserted(t, load, es).value;
    var q := BrokersImported(p, es).value;
    UpsertedKeeps(t, load, es);
    RememberedComplete(t, load, es);
    forall i <- out.rows, j <- out.rows | out.rows[i].name == out.rows[j].name
      ensures i == j
    {
      assert t.rowKey(out.rows[i]) == t.rowKey(out.rows[j]);
    }
    forall name <- q.brokerIds
      ensures q.brokerIds[name] in out.rows && out.rows[q.brokerIds[name]].name == name
    {
      IndexIsByKey(t, load, es, name);
    }
    forall i <- out.rows
      ensures out.rows[i].name in q.brokerIds
    {
      assert t.rowKey(out.rows[i]) in out.known;
    }
  }

  lemma {:induction false} PublishedStayLinked(
      devices: map<string, Id>, brokers: map<string, Id>, rows: map<(Id, Id), PublishSpec>,
      es: seq<PublishExport<PublishSpec>>,
      ds: set<Id>, bs: set<Id>)
    requires (forall name <- devices :: devices[name] in ds) && (forall name <- brokers :: brokers[name] in bs)
    requires forall k <- rows :: k.0 in ds && k.1 in bs
    ensures forall k <- Published(devices, brokers, rows, es) :: k.0 in ds && k.1 in bs
    decreases |es|
  {
    if es != [] {
      PublishedStayLinked(devices, brokers, rows, es[..|es| - 1], ds, bs);
    }
  }

  lemma PublishesKeepConsistent(p: Stage, es: seq<PublishExport<PublishSpec>>)
    requires Consistent(p.db) && NamesDevices(p.deviceIds, p.db) && NamesBrokers(p.brokerIds, p.db)
    ensures Consistent(PublishesImported(p, es).db)
  {
    PublishedStayLinked(p.deviceIds, p.brokerIds, p.db.publishes, es, p.db.devices.Keys, p.db.brokers.Keys);
  }

  // --- The whole import ---

  /** Templates and devices, which give the other sections their ids. */
  function Prepared(db: Database, order: seq<Id>, s: Snapshot): Result<Stage, ImportError>
    requires Consistent(db)
  {
    var p :- TemplatesImported(db, s.templates);
    TemplatesKeepConsistent(db, s.templates);
    DevicesImported(p, order, s.devices)
  }

  lemma PreparedKeepsConsistent(db: Database, order: seq<Id>, s: Snapshot)
    requires Consistent(db) && Prepared(db, order, s).Ok?
    ensures Consistent(Prepared(db, order, s).value.db)
    ensures NamesDevices(Prepared(db, order, s).value.deviceIds, Prepared(db, order, s).value.db)
  {
    TemplatesKeepConsistent(db, s.templates);
    DevicesKeepConsistent(TemplatesImported(db, s.templates).value, order, s.devices);
  }

  /** Everything that hangs on devices. */
  function Completed(p: Stage, s: Snapshot): Result<Stage, ImportError>
    requires Consistent(p.db) && NamesDevices(p.deviceIds, p.db)
  {
    var q :- ConfigsImported(p, s);
    ConfigsKeepConsistent(p, s);
    var b :- BrokersImported(q, BrokerEntries(s));
    Ok(PublishesImported(b, s.publishes))
  }

  lemma CompletedKeepsConsistent(p: Stage, s: Snapshot)
    requires Consistent(p.db) && NamesDevices(p.deviceIds, p.db) && Completed(p, s).Ok?
    ensures Consistent(Completed(p, s).value.db)
  {
    var q := ConfigsImported(p, s).value;
    ConfigsKeepConsistent(p, s);
    BrokersKeepConsistent(q, BrokerEntries(s));
    PublishesKeepConsistent(BrokersImported(q, BrokerEntries(s)).value, s.publishes);
  }

  /** All sections in order; `order` lists the stored devices as the query returns them. */
  function Imported(db: Database, order: seq<Id>, s: Snapshot): Result<Stage, ImportError>
    requires Consistent(db)
  {
    var p :- Prepared(db, order, s);
    PreparedKeepsConsistent(db, order, s);
    Completed(p, s)
  }

  /** What a successful import leaves satisfies every constraint of the database again. */
  lemma ImportKeepsConsistent(db: Database, order: seq<Id>, s: Snapshot)
    requires Consistent(db) && Imported(db, order, s).Ok?
    ensures Consistent(Imported(db, order, s).value.db)
  {
    PreparedKeepsConsistent(db, order, s);
    CompletedKeepsConsistent(Prepared(db, order, s).value, s);
  }
}
