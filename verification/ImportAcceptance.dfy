/** Exactly which snapshots an import accepts. */
module ImportAcceptance {
  import opened Prelude
  import opened Upserts
  import opened Snapshots
  import opened ImportStages
  import opened ImportLaws
  import opened ImportedRows

  // --- Templates ---

  ghost predicate StoredTemplate(db: Database, name: string) {
    exists i :: i in db.templates && db.templates[i].name == name
  }

  /** A template that is neither built in nor stored is listed twice. */
  ghost predicate TemplateTwice(db: Database, es: seq<TemplateExport>) {
    exists i, j :: 0 <= i < j < |es| && NewTemplateTwice(db, es[i], es[j])
  }

  ghost predicate NewTemplateTwice(db: Database, a: TemplateExport, b: TemplateExport) {
    !a.builtin && !b.builtin && a.name == b.name && !StoredTemplate(db, b.name)
  }

  /** No two registers of the entry share a name, or an address and function code. */
  ghost predicate RegistersFit(es: seq<RegisterExport>) {
    forall j :: 0 <= j < |es| ==> FindsRoom(es, j)
  }

  lemma TemplatesAcceptedExactly(db: Database, es: seq<TemplateExport>)
    requires Consistent(db)
    ensures TemplatesImported(db, es).Ok? <==>
      (forall e <- es :: e.builtin || RegistersFit(e.registers)) && !TemplateTwice(db, es)
  {
    var t, load := TemplateTable(), TemplateLoad(db);
    TemplateTableLawful();
    AcceptedExactly(t, load, es);
    forall e <- es
      ensures t.write(None, e).Ok? <==> RegistersFit(e.registers)
    {
      assert t.write(None, e) == WriteTemplate(None, e);
      RegistersAcceptedExactly(e.registers);
    }
    forall i, j | 0 <= i < j < |es|
      ensures Repeats(t, load, es[i], es[j]) <==> NewTemplateTwice(db, es[i], es[j])
    {
      TemplateKnown(db, es[j].name);
    }
  }

  lemma TemplateKnown(db: Database, name: string)
    requires Consistent(db)
    ensures name in TemplateLoad(db).known <==> StoredTemplate(db, name)
  {
  }

  // --- Devices ---

  ghost predicate StoredDevice(db: Database, slave: int, port: int) {
    exists i :: i in db.devices && db.devices[i].slave == slave && db.devices[i].port == port
  }

  /** A unit and port that no stored device has is listed twice. */
  ghost predicate DeviceTwice(db: Database, es: seq<DeviceExport>) {
    exists i, j :: 0 <= i < j < |es| && NewDeviceTwice(db, es[i], es[j])
  }

  ghost predicate NewDeviceTwice(db: Database, a: DeviceExport, b: DeviceExport) {
    a.slave == b.slave && a.port == b.port && !StoredDevice(db, b.slave, b.port)
  }

  lemma DeviceKnown(templateIds: map<string, Id>, db: Database, slave: int, port: int)
    requires Consistent(db)
    ensures (slave, port) in DeviceLoad(templateIds, db).known <==> StoredDevice(db, slave, port)
  {
    if i :| i in db.devices && db.devices[i].slave == slave && db.devices[i].port == port {
      assert KeyOf(db.devices[i]) == (slave, port);
    }
    if (slave, port) in DeviceLoad(templateIds, db).known {
      assert KeyOf(db.devices[DeviceLoad(templateIds, db).known[(slave, port)]]) == (slave, port);
    }
  }

  lemma DevicesAcceptedExactly(p: Stage, order: seq<Id>, es: seq<DeviceExport>)
    requires Consistent(p.db)
    ensures DevicesImported(p, order, es).Ok? <==>
      (forall e <- es :: e.template in p.templateIds) && !DeviceTwice(p.db, es)
  {
    var t, load := DeviceTable(p.templateIds), DeviceLoad(p.templateIds, p.db);
    DeviceTableLawful(p.templateIds);
    AcceptedExactly(t, load, es);
    forall e <- es
      ensures t.write(None, e).Ok? <==> e.template in p.templateIds
    {
      assert t.write(None, e) == WriteDevice(p.templateIds, None, e);
    }
    forall i, j | 0 <= i < j < |es|
      ensures Repeats(t, load, es[i], es[j]) <==> NewDeviceTwice(p.db, es[i], es[j])
    {
      DeviceKnown(p.templateIds, p.db, es[j].slave, es[j].port);
    }
  }

  // --- The names of templates ---

  ghost predicate ListedTemplate(es: seq<TemplateExport>, name: string) {
    exists e :: e in es && !e.builtin && e.name == name
  }

  /** After the template section, a name is known if it is stored or listed as not built in. */
  lemma TemplateNamesExactly(db: Database, es: seq<TemplateExport>, name: string)
    requires Consistent(db) && TemplatesImported(db, es).Ok?
    ensures name in TemplatesImported(db, es).value.templateIds
       <==> StoredTemplate(db, name) || ListedTemplate(es, name)
  {
    var t, load, p := TemplateTable(), TemplateLoad(db), TemplatesImported(db, es).value;
    TemplateTableLawful();
    TemplatesKeepConsistent(db, es);
    UpsertedKeeps(t, load, es);
    if name in p.templateIds {
      var i := p.templateIds[name];
      assert p.db.templates[i].name == name;
      if i in db.templates {
        assert t.rowKey(p.db.templates[i]) == t.rowKey(db.templates[i]);
      } else {
        var n := WrittenBySome(t, load, es, i);
        assert es[n] in es && es[n].name == name;
      }
    }
    if i :| i in db.templates && db.templates[i].name == name {
      assert t.rowKey(p.db.templates[i]) == t.rowKey(db.templates[i]);
    }
    if e :| e in es && !e.builtin && e.name == name {
      var n :| 0 <= n < |es| && es[n] == e;
      EntriesPresent(t, load, es, n);
    }
  }

  // --- The whole import ---

  /** The config sections, with where the device names lead. */
  ghost predicate ConfigsFit(s: Snapshot, ids: map<string, Id>) {
    && C.NoneCollide(ids, s.simulations) && C.NoneCollide(ids, s.schedules)
  }

  /** The template and device sections. */
  ghost predicate OwnersFit(db: Database, s: Snapshot) {
    && (forall e <- s.templates :: e.builtin || RegistersFit(e.registers)) && !TemplateTwice(db, s.templates)
    && (forall e <- s.devices :: StoredTemplate(db, e.template) || ListedTemplate(s.templates, e.template))
    && !DeviceTwice(db, s.devices)
  }

  lemma OwnersAcceptedExactly(db: Database, order: seq<Id>, s: Snapshot)
    requires Consistent(db)
    ensures Prepared(db, order, s).Ok? <==> OwnersFit(db, s)
  {
    TemplatesAcceptedExactly(db, s.templates);
    if TemplatesImported(db, s.templates).Ok? {
      TemplatesKeepConsistent(db, s.templates);
      var p := TemplatesImported(db, s.templates).value;
      DevicesAcceptedExactly(p, order, s.devices);
      forall e <- s.devices
        ensures e.template in p.templateIds <==>
          StoredTemplate(db, e.template) || ListedTemplate(s.templates, e.template)
      {
        TemplateNamesExactly(db, s.templates, e.template);
      }
      assert DeviceTwice(p.db, s.devices) <==> DeviceTwice(db, s.devices);
    }
  }

  lemma ConfigsAcceptedExactly(p: Stage, s: Snapshot)
    requires Consistent(p.db) && NamesDevices(p.deviceIds, p.db)
    ensures Completed(p, s).Ok? <==> ConfigsFit(s, p.deviceIds)
  {
    C.ReplacedExactly(p.deviceIds, p.db.simulations, s.simulations);
    C.ReplacedExactly(p.deviceIds, p.db.schedules, s.schedules);
    if ConfigsImported(p, s).Ok? {
      var q := ConfigStage(p, s);
      BrokersKeepConsistent(q, BrokerEntries(s));
      CompletedIs(p, s, q, BrokersImported(q, BrokerEntries(s)).value);
    }
  }

  /**
   A snapshot is accepted exactly when the registers of each template it writes fit
   together, no new template and no new unit and port is listed twice, every device's
   template is stored or listed, and no two configs land on one row without the row's
   device being cleared in between. Brokers and publish configs are never refused.
   */
  lemma ImportAcceptedExactly(db: Database, order: seq<Id>, s: Snapshot)
    requires Consistent(db)
    ensures Prepared(db, order, s).Ok? <==> OwnersFit(db, s)
    ensures Imported(db, order, s).Ok? <==>
      Prepared(db, order, s).Ok? && ConfigsFit(s, Prepared(db, order, s).value.deviceIds)
  {
    OwnersAcceptedExactly(db, order, s);
    if Prepared(db, order, s).Ok? {
      PreparedKeepsConsistent(db, order, s);
      ConfigsAcceptedExactly(Prepared(db, order, s).value, s);
    }
  }

  // --- The error of a refused import ---

  ghost predicate LacksTemplate(db: Database, s: Snapshot, template: string) {
    !StoredTemplate(db, template) && !ListedTemplate(s.templates, template)
  }

  /** A listed device of that name refers to that template, and there is no such template. */
  ghost predicate NamesLacking(db: Database, s: Snapshot, device: string, template: string) {
    (exists e <- s.devices :: e.name == device && e.template == template) && LacksTemplate(db, s, template)
  }

  lemma {:induction false} RegisterErrorIs(es: seq<RegisterExport>)
    ensures RegistersFrom(es).Err? ==> RegistersFrom(es).error == IntegrityError
    decreases |es|
  {
    if es != [] {
      RegisterErrorIs(es[..|es| - 1]);
    }
  }

  lemma {:induction false} TemplateErrorIs(load: Load<string, Template>, es: seq<TemplateExport>)
    ensures Upserted(TemplateTable(), load, es).Err? ==>
      Upserted(TemplateTable(), load, es).error == IntegrityError
    decreases |es|
  {
    if es != [] {
      TemplateErrorIs(load, es[..|es| - 1]);
      RegisterErrorIs(es[|es| - 1].registers);
    }
  }

  lemma {:induction false} DeviceErrorIs(
      templateIds: map<string, Id>, load: Load<DeviceKey, Device>, es: seq<DeviceExport>)
    ensures var r := Upserted(DeviceTable(templateIds), load, es);
      r.Err? && r.error.UnknownTemplate? ==>
        exists e <- es :: e.name == r.error.device && e.template == r.error.template && e.template !in templateIds
    decreases |es|
  {
    if es != [] {
      DeviceErrorIs(templateIds, load, es[..|es| - 1]);
      assert es[|es| - 1] in es;
    }
  }

  lemma {:induction false} ReplaceErrorIs<R, S>(
      ids: map<string, Id>, rows: map<(Id, R), S>, es: seq<C.ConfigExport<R, S>>)
    ensures C.Replaced(ids, rows, es).Err? ==> C.Replaced(ids, rows, es).error == IntegrityError
    decreases |es|
  {
    if es != [] {
      ReplaceErrorIs(ids, rows, es[..|es| - 1]);
    }
  }

  /** The sections after the devices are refused only by the database. */
  lemma LaterErrorIs(p: Stage, s: Snapshot)
    requires Consistent(p.db) && NamesDevices(p.deviceIds, p.db) && Completed(p, s).Err?
    ensures Completed(p, s).error == IntegrityError
  {
    ReplaceErrorIs(p.deviceIds, p.db.simulations, s.simulations);
    ReplaceErrorIs(p.deviceIds, p.db.schedules, s.schedules);
    if ConfigsImported(p, s).Ok? {
      var q := ConfigStage(p, s);
      BrokersKeepConsistent(q, BrokerEntries(s));
    }
  }

  /** The error of the template and device sections. */
  lemma OwnersErrorIs(db: Database, order: seq<Id>, s: Snapshot)
    requires Consistent(db) && Prepared(db, order, s).Err?
    ensures Prepared(db, order, s).error.UnknownTemplate? ==>
      NamesLacking(db, s, Prepared(db, order, s).error.device, Prepared(db, order, s).error.template)
  {
    TemplateErrorIs(TemplateLoad(db), s.templates);
    if TemplatesImported(db, s.templates).Ok? {
      var p := TemplatesImported(db, s.templates).value;
      TemplatesKeepConsistent(db, s.templates);
      DeviceErrorIs(p.templateIds, DeviceLoad(p.templateIds, p.db), s.devices);
      forall e <- s.devices
        ensures e.template in p.templateIds <==> !LacksTemplate(db, s, e.template)
      {
        TemplateNamesExactly(db, s.templates, e.template);
      }
    }
  }

  /**
   A refused import either names a listed device and its template, which is neither
   stored nor listed, or the database has refused a row.
   */
  lemma ImportErrorIs(db: Database, order: seq<Id>, s: Snapshot)
    requires Consistent(db) && Imported(db, order, s).Err?
    ensures Imported(db, order, s).error.UnknownTemplate? ==>
      NamesLacking(db, s, Imported(db, order, s).error.device, Imported(db, order, s).error.template)
  {
    if Prepared(db, order, s).Err? {
      OwnersErrorIs(db, order, s);
    } else {
      PreparedKeepsConsistent(db, order, s);
      LaterErrorIs(Prepared(db, order, s).value, s);
    }
  }
}
