/**
 The export and import services over the configuration tables. The loops fill
 dictionaries and change rows in place; an import that fails rolls everything back.
 */
module SystemService {
  import opened Prelude
  import opened Upserts
  import C = ConfigReplacement
  import opened Snapshots
  import opened ImportStages

  class Session {
    var templates: map<Id, Template>
    var devices: map<Id, Device>
    var simulations: map<(Id, string), SimulationSpec>
    var schedules: map<(Id, ScheduleItem), ScheduleSpec>
    var brokers: map<Id, Broker>
    var publishes: map<(Id, Id), PublishSpec>
    var nextId: Id

    function View(): Database
      reads this
    {
      Database(templates, devices, simulations, schedules, brokers, publishes, nextId)
    }

    constructor ()
      ensures View() == Database(map[], map[], map[], map[], map[], map[], 0)
    {
      templates, devices, simulations, schedules := map[], map[], map[], map[];
      brokers, publishes, nextId := map[], map[], 0;
    }

    method Restore(db: Database)
      modifies this
      ensures View() == db
    {
      templates, devices, simulations, schedules := db.templates, db.devices, db.simulations, db.schedules;
      brokers, publishes, nextId := db.brokers, db.publishes, db.nextId;
    }

    // --- Export ---

    method ExportSystem(o: RowOrder) returns (s: Snapshot)
      requires Consistent(View()) && OrdersRows(o, View())
      ensures s == Exported(View(), o)
    {
      var templateExports := ExportTemplateRows(o.registers, o.templates);
      var deviceExports, names := ExportDeviceRows(o.devices);
      var simulationExports := ExportConfigRows(names, simulations, o.simulations);
      var scheduleExports := ExportConfigRows(names, schedules, o.schedules);
      var brokerExports := ExportBrokerRows(o.brokers);
      var publishExports := ExportPublishRows(names, o.publishes);
      return Snapshot(
        templateExports, deviceExports, simulationExports, scheduleExports, brokerExports, None, publishExports);
    }

    method ExportTemplateRows(registerOrder: seq<(Id, string)>, order: seq<Id>) returns (es: seq<TemplateExport>)
      requires Lists(order, templates.Keys)
      ensures es == ExportTemplates(View(), registerOrder, order)
    {
      es := [];
      for n := 0 to |order|
        invariant es == ExportTemplates(View(), registerOrder, order[..n])
      {
        assert order[n] in templates;
        var t := templates[order[n]];
        var registers := ExportRegisterRows(order[n], t.registers, registerOrder);
        es := es + [TemplateExport(t.name, t.protocol, t.description, t.builtin, registers)];
        assert order[..n + 1][..n] == order[..n];
      }
      assert order[..|order|] == order;
    }

    method ExportBrokerRows(order: seq<Id>) returns (es: seq<Broker>)
      requires Lists(order, brokers.Keys)
      ensures es == ExportBrokers(View(), order)
    {
      es := [];
      for n := 0 to |order|
        invariant es == ExportBrokers(View(), order[..n])
      {
        assert order[n] in brokers;
        es := es + [brokers[order[n]]];
        assert order[..n + 1][..n] == order[..n];
      }
      assert order[..|order|] == order;
    }

    static method ExportRegisterRows(i: Id, registers: map<string, RegisterRow>, order: seq<(Id, string)>)
      returns (es: seq<RegisterExport>)
      ensures es == ExportRegisters(i, registers, order)
    {
      es := [];
      for n := 0 to |order|
        invariant es == ExportRegisters(i, registers, order[..n])
      {
        if order[n].0 == i && order[n].1 in registers {
          es := es + [RegisterExport(order[n].1, registers[order[n].1].spec)];
        }
        assert order[..n + 1][..n] == order[..n];
      }
      assert order[..|order|] == order;
    }

    /** Also gives the device names the later sections use. */
    method ExportDeviceRows(order: seq<Id>) returns (es: seq<DeviceExport>, names: map<Id, string>)
      requires Lists(order, devices.Keys)
      ensures es == ExportDevices(View(), order)
      ensures names == DeviceNames(View())
    {
      es, names := [], map[];
      for n := 0 to |order|
        invariant es == ExportDevices(View(), order[..n])
        invariant forall i :: i in names <==> i in order[..n] && i in DeviceNames(View())
        invariant forall i <- names :: i in devices && names[i] == devices[i].name
      {
        var i := order[n];
        assert i in devices;
        var d := devices[i];
        if d.templateId in templates {
          names := names[i := d.name];
          es := es + [DeviceExport(d.name, templates[d.templateId].name, d.slave, d.port, d.description)];
        }
        assert order[..n + 1] == order[..n] + [i];
        assert order[..n + 1][..n] == order[..n];
      }
      assert order[..|order|] == order;
    }

    static method ExportConfigRows<R(==), S>(names: map<Id, string>, rows: map<(Id, R), S>, order: seq<(Id, R)>)
      returns (es: seq<C.ConfigExport<R, S>>)
      ensures es == ExportConfigs(names, rows, order)
    {
      es := [];
      for n := 0 to |order|
        invariant es == ExportConfigs(names, rows, order[..n])
      {
        var k := order[n];
        if k in rows && k.0 in names {
          es := es + [C.ConfigExport(names[k.0], k.1, rows[k])];
        }
        assert order[..n + 1][..n] == order[..n];
      }
      assert order[..|order|] == order;
    }

    method ExportPublishRows(
        names: map<Id, string>, order: seq<(Id, Id)>) returns (es: seq<C.PublishExport<PublishSpec>>)
      requires names == DeviceNames(View())
      ensures es == ExportPublishes(View(), order)
    {
      es := [];
      for n := 0 to |order|
        invariant es == ExportPublishes(View(), order[..n])
      {
        var k := order[n];
        if k in publishes && k.0 in names && k.1 in brokers {
          es := es + [C.PublishExport(names[k.0], brokers[k.1].name, publishes[k])];
        }
        assert order[..n + 1][..n] == order[..n];
      }
      assert order[..|order|] == order;
    }

    // --- Import ---

    /** All or nothing. */
    method ImportSystem(order: seq<Id>, s: Snapshot) returns (r: Result<(), ImportError>)
      requires Consistent(View())
      modifies this
      ensures r.Ok? <==> Imported(old(View()), order, s).Ok?
      ensures r.Ok? ==> View() == Imported(old(View()), order, s).value.db && Consistent(View())
      ensures r.Err? ==> View() == old(View()) && r.error == Imported(old(View()), order, s).error
    {
      var before := View();
      r := ImportSections(order, s);
      if r.Err? {
        Restore(before);
      } else {
        ImportKeepsConsistent(before, order, s);
      }
    }

    method ImportSections(order: seq<Id>, s: Snapshot) returns (r: Result<(), ImportError>)
      requires Consistent(View())
      modifies this
      ensures match Imported(old(View()), order, s)
        case Ok(p) => r == Ok(()) && View() == p.db
        case Err(e) => r == Err(e)
    {
      ghost var db := View();
      var deviceIds := ImportOwners(order, s);
      if deviceIds.Err? {
        return Err(deviceIds.error);
      }
      PreparedKeepsConsistent(db, order, s);
      r := ImportOwned(Prepared(db, order, s).value, deviceIds.value, s);
    }

    method ImportOwners(order: seq<Id>, s: Snapshot) returns (r: Result<map<string, Id>, ImportError>)
      requires Consistent(View())
      modifies this
      ensures match Prepared(old(View()), order, s)
        case Ok(p) => r == Ok(p.deviceIds) && View() == p.db
        case Err(e) => r == Err(e)
    {
      ghost var db := View();
      var templateIds := ImportTemplates(s.templates);
      if templateIds.Err? {
        return Err(templateIds.error);
      }
      TemplatesKeepConsistent(db, s.templates);
      r := ImportDevices(TemplatesImported(db, s.templates).value, templateIds.value, order, s.devices);
    }

    method ImportOwned(ghost p: Stage, deviceIds: map<string, Id>, s: Snapshot) returns (r: Result<(), ImportError>)
      requires View() == p.db && deviceIds == p.deviceIds && Consistent(p.db) && NamesDevices(p.deviceIds, p.db)
      modifies this
      ensures match Completed(p, s)
        case Ok(q) => r == Ok(()) && View() == q.db
        case Err(e) => r == Err(e)
    {
      r := ImportConfigs(p, deviceIds, s);
      if r.Err? {
        return;
      }
      ConfigsKeepConsistent(p, s);
      var brokerIds := ImportBrokers(ConfigsImported(p, s).value, BrokerEntries(s));
      ImportPublishes(deviceIds, brokerIds, s.publishes);
    }

    static method CreateRegisters(es: seq<RegisterExport>) returns (r: Result<map<string, RegisterRow>, ImportError>)
      ensures r == RegistersFrom(es)
    {
      var registers := map[];
      for n := 0 to |es|
        invariant RegistersFrom(es[..n]) == Ok(registers)
      {
        assert es[..n + 1][..n] == es[..n];
        if Clashes(registers, es[n]) {
          RegistersStop(es, n + 1);
          return Err(IntegrityError);
        }
        registers := registers[es[n].name := RegisterRow(es[n].spec, None)];
      }
      assert es[..|es|] == es;
      return Ok(registers);
    }

    static lemma {:induction false} RegistersStop(es: seq<RegisterExport>, n: nat)
      requires n <= |es| && RegistersFrom(es[..n]).Err?
      ensures RegistersFrom(es) == RegistersFrom(es[..n])
      decreases |es|
    {
      if n == |es| {
        assert es[..n] == es;
      } else {
        assert es[..|es| - 1][..n] == es[..n];
        RegistersStop(es[..|es| - 1], n);
      }
    }

    /** Leads a lookup to the row of the key, or to none. */
    ghost static predicate Finds<K, V, E>(t: Table<K, V, E>, load: Load<K, V>, key: K) {
      key in load.known ==> load.known[key] in load.rows && t.rowKey(load.rows[load.known[key]]) == key
    }

    method ImportTemplate(known: map<string, Id>, index: map<string, Id>, e: TemplateExport)
      returns (r: Result<map<string, Id>, ImportError>)
      requires Finds(TemplateTable(), Load(templates, known, index, nextId), e.name)
      modifies this
      ensures View() == old(View()).(templates := templates, nextId := nextId)
      ensures match Entered(TemplateTable(), Load(old(templates), known, index, old(nextId)), e)
        case Ok(after) => r == Ok(after.index) && after == Load(templates, known, after.index, nextId)
        case Err(error) => r == Err(error)
    {
      ghost var t, before := TemplateTable(), Load(templates, known, index, nextId);
      assert t.write(Known(before, e.name), e) == WriteTemplate(Known(before, e.name), e);
      if e.builtin {
        return Ok(if e.name in known then index[e.name := known[e.name]] else index);
      }
      var registers := CreateRegisters(e.registers);
      if e.name in known {
        if registers.Err? {
          return Err(registers.error);
        }
        var i := known[e.name];
        assert t.rowKey(templates[i]) == e.name;
        var row := templates[i].(protocol := e.protocol, description := e.description, registers := registers.value);
        templates := templates[i := row];
        return Ok(index[e.name := i]);
      }
      if registers.Err? || exists i <- templates :: templates[i].name == e.name {
        RegistersErr(e.registers);
        return Err(IntegrityError);
      }
      templates := templates[nextId := Template(e.name, e.protocol, e.description, false, registers.value)];
      nextId := nextId + 1;
      return Ok(index[e.name := nextId - 1]);
    }

    method ImportTemplates(es: seq<TemplateExport>) returns (r: Result<map<string, Id>, ImportError>)
      requires Consistent(View())
      modifies this
      ensures match TemplatesImported(old(View()), es)
        case Ok(p) => r == Ok(p.templateIds) && View() == p.db
        case Err(e) => r == Err(e)
    {
      ghost var t, load := TemplateTable(), TemplateLoad(View());
      var known, index: map<string, Id> := TemplatesByName(templates), map[];
      TemplateTableLawful();
      for n := 0 to |es|
        invariant View() == old(View()).(templates := templates, nextId := nextId)
        invariant Upserted(t, load, es[..n]) == Ok(Load(templates, known, index, nextId))
      {
        assert es[..n + 1][..n] == es[..n];
        UpsertedKeeps(t, load, es[..n]);
        var entered := ImportTemplate(known, index, es[n]);
        if entered.Err? {
          Upserts.FirstErrorStops(t, load, es, n + 1);
          return entered;
        }
        index := entered.value;
      }
      assert es[..|es|] == es;
      index := AddMissing(index, known);
      return Ok(index);
    }

    static lemma {:induction false} RegistersErr(es: seq<RegisterExport>)
      ensures RegistersFrom(es).Err? ==> RegistersFrom(es).error == IntegrityError
      decreases |es|
    {
      if es != [] {
        RegistersErr(es[..|es| - 1]);
      }
    }

    /** Names the snapshot leaves out lead where they led before. */
    static method AddMissing(index: map<string, Id>, known: map<string, Id>) returns (r: map<string, Id>)
      ensures r == known + index
    {
      r := index;
      var left := known.Keys;
      while left != {}
        invariant left <= known.Keys
        invariant forall name :: name in r <==> name in index || (name in known && name !in left)
        invariant forall name <- r :: r[name] == if name in index then index[name] else known[name]
      {
        var name :| name in left;
        if name !in r {
          r := r[name := known[name]];
        }
        left := left - {name};
      }
      assert r.Keys == (known + index).Keys;
    }

    method ImportDevice(
        templateIds: map<string, Id>, known: map<DeviceKey, Id>, index: map<string, Id>, e: DeviceExport)
      returns (r: Result<map<string, Id>, ImportError>)
      requires Finds(DeviceTable(templateIds), Load(devices, known, index, nextId), (e.slave, e.port))
      modifies this
      ensures View() == old(View()).(devices := devices, nextId := nextId)
      ensures match Entered(DeviceTable(templateIds), Load(old(devices), known, index, old(nextId)), e)
        case Ok(after) => r == Ok(after.index) && after == Load(devices, known, after.index, nextId)
        case Err(error) => r == Err(error)
    {
      var key := (e.slave, e.port);
      ghost var t, before := DeviceTable(templateIds), Load(devices, known, index, nextId);
      assert t.write(Known(before, key), e) == WriteDevice(templateIds, Known(before, key), e);
      if e.template !in templateIds {
        return Err(UnknownTemplate(e.name, e.template));
      }
      if key in known {
        var i := known[key];
        assert t.rowKey(devices[i]) == key;
        var row := devices[i].(name := e.name, templateId := templateIds[e.template], description := e.description);
        devices := devices[i := row];
        if devices[i].status.Running? {
          devices := devices[i := devices[i].(status := Stopped)];
        }
        return Ok(index[e.name := i]);
      }
      if exists i <- devices :: KeyOf(devices[i]) == key {
        return Err(IntegrityError);
      }
      devices := devices[nextId := Device(e.name, templateIds[e.template], e.slave, e.port, Stopped, e.description)];
      nextId := nextId + 1;
      return Ok(index[e.name := nextId - 1]);
    }

    method ImportDevices(ghost p: Stage, templateIds: map<string, Id>, order: seq<Id>, es: seq<DeviceExport>)
      returns (r: Result<map<string, Id>, ImportError>)
      requires View() == p.db && templateIds == p.templateIds && Consistent(p.db)
      modifies this
      ensures match DevicesImported(p, order, es)
        case Ok(q) => r == Ok(q.deviceIds) && View() == q.db
        case Err(e) => r == Err(e)
    {
      ghost var t, load := DeviceTable(templateIds), DeviceLoad(templateIds, View());
      var known: map<DeviceKey, Id>, index: map<string, Id> := DevicesByKey(devices), map[];
      DeviceTableLawful(templateIds);
      for n := 0 to |es|
        invariant View() == p.db.(devices := devices, nextId := nextId)
        invariant Upserted(t, load, es[..n]) == Ok(Load(devices, known, index, nextId))
      {
        assert es[..n + 1][..n] == es[..n];
        UpsertedKeeps(t, load, es[..n]);
        var entered := ImportDevice(templateIds, known, index, es[n]);
        if entered.Err? {
          Upserts.FirstErrorStops(t, load, es, n + 1);
          return entered;
        }
        index := entered.value;
      }
      assert es[..|es|] == es;
      index := AddStoredNames(index, order);
      return Ok(index);
    }

    method AddStoredNames(recorded: map<string, Id>, order: seq<Id>) returns (index: map<string, Id>)
      ensures index == WithStoredNames(recorded, devices, order)
    {
      index := recorded;
      for n := 0 to |order|
        invariant index == WithStoredNames(recorded, devices, order[..n])
      {
        assert order[..n + 1][..n] == order[..n];
        if order[n] in devices && devices[order[n]].name !in index {
          index := index[devices[order[n]].name := order[n]];
        }
      }
      assert order[..|order|] == order;
    }

    method ImportConfigs(ghost p: Stage, deviceIds: map<string, Id>, s: Snapshot) returns (r: Result<(), ImportError>)
      requires View() == p.db && deviceIds == p.deviceIds
      modifies this
      ensures match ConfigsImported(p, s)
        case Ok(q) => r == Ok(()) && View() == q.db
        case Err(e) => r == Err(e)
    {
      var replacedSimulations := ReplaceConfigs(deviceIds, simulations, s.simulations);
      if replacedSimulations.Err? {
        return Err(replacedSimulations.error);
      }
      simulations := replacedSimulations.value;
      var replacedSchedules := ReplaceConfigs(deviceIds, schedules, s.schedules);
      if replacedSchedules.Err? {
        return Err(replacedSchedules.error);
      }
      schedules := replacedSchedules.value;
      return Ok(());
    }

    /** Deletes a device's rows the first time its name comes up, then inserts. */
    static method ReplaceConfigs<R(==), S>(ids: map<string, Id>, stored: map<(Id, R), S>, es: seq<C.ConfigExport<R, S>>)
      returns (r: Result<map<(Id, R), S>, ImportError>)
      ensures match C.Replaced(ids, stored, es)
        case Ok(p) => r == Ok(p.rows)
        case Err(e) => r == Err(e)
    {
      var rows, cleared: set<string> := stored, {};
      for n := 0 to |es|
        invariant C.Replaced(ids, stored, es[..n]) == Ok(C.Progress(rows, cleared))
      {
        var e := es[n];
        assert es[..n + 1][..n] == es[..n];
        if e.device in ids {
          var d := ids[e.device];
          if e.device !in cleared {
            rows := map k <- rows | k.0 != d :: rows[k];
          }
          if (d, e.item) in rows {
            C.FirstErrorStops(ids, stored, es, n + 1);
            return Err(IntegrityError);
          }
          cleared := cleared + {e.device};
          rows := rows[(d, e.item) := e.spec];
        }
      }
      assert es[..|es|] == es;
      return Ok(rows);
    }

    method ImportBroker(known: map<string, Id>, e: Broker) returns (i: Id)
      requires Finds(BrokerTable(), Load(brokers, known, map[], nextId), e.name)
      requires e.name !in known ==> forall j <- brokers :: brokers[j].name != e.name
      modifies this
      ensures View() == old(View()).(brokers := brokers, nextId := nextId)
      ensures forall index ::
        Entered(BrokerTable(), Load(old(brokers), known, index, old(nextId)), e) ==
          Ok(Load(brokers, known[e.name := i], index[e.name := i], nextId))
    {
      ghost var t, before := BrokerTable(), Load(brokers, known, map[], nextId);
      assert t.write(Known(before, e.name), e) == Ok(WriteBroker(Known(before, e.name), e));
      if e.name in known {
        i := known[e.name];
        var kept := brokers[i].password;
        brokers := brokers[i := e.(password := if e.password != MASKED then e.password else kept)];
        assert known[e.name := i] == known;
      } else {
        i := nextId;
        brokers := brokers[nextId := e];
        nextId := nextId + 1;
      }
    }

    method ImportBrokers(ghost p: Stage, es: seq<Broker>) returns (index: map<string, Id>)
      requires View() == p.db && Consistent(p.db)
      modifies this
      ensures BrokersImported(p, es).Ok?
      ensures View() == BrokersImported(p, es).value.db && index == BrokersImported(p, es).value.brokerIds
    {
      ghost var t, load := BrokerTable(), BrokerLoad(View());
      var known: map<string, Id> := BrokersByName(brokers);
      index := map[];
      BrokerTableLawful();
      for n := 0 to |es|
        invariant View() == p.db.(brokers := brokers, nextId := nextId)
        invariant Upserted(t, load, es[..n]) == Ok(Load(brokers, known, index, nextId))
      {
        assert es[..n + 1][..n] == es[..n];
        UpsertedKeeps(t, load, es[..n]);
        RememberedComplete(t, load, es[..n]);
        assert forall j <- brokers :: t.rowKey(brokers[j]) in known;
        var i := ImportBroker(known, es[n]);
        known, index := known[es[n].name := i], index[es[n].name := i];
      }
      assert es[..|es|] == es;
      index := AddMissing(index, known);
    }

    method ImportPublishes(
        deviceIds: map<string, Id>, brokerIds: map<string, Id>, es: seq<C.PublishExport<PublishSpec>>)
      modifies this
      ensures View() == old(View()).(publishes := C.Published(deviceIds, brokerIds, old(publishes), es))
    {
      for n := 0 to |es|
        invariant View() == old(View()).(publishes := C.Published(deviceIds, brokerIds, old(publishes), es[..n]))
      {
        assert es[..n + 1][..n] == es[..n];
        if es[n].device in deviceIds && es[n].broker in brokerIds {
          publishes := publishes[(deviceIds[es[n].device], brokerIds[es[n].broker]) := es[n].spec];
        }
      }
      assert es[..|es|] == es;
    }
  }
}
