/** What a successful import writes, row by row, in terms of the snapshot's entries. */
module ImportedRows {
  import opened Prelude
  import opened Upserts
  import opened Snapshots
  import opened ImportStages
  import opened ImportLaws

  // --- Devices ---

  /** Entry n is the last one for the unit and port. */
  ghost predicate LastKeyed(es: seq<DeviceExport>, slave: int, port: int, n: int) {
    && 0 <= n < |es| && es[n].slave == slave && es[n].port == port
    && forall m :: n < m < |es| ==> !(es[m].slave == slave && es[m].port == port)
  }

  lemma LastKeyedStep(es: seq<DeviceExport>, slave: int, port: int, n: int)
    requires es != [] && n < |es| - 1
    ensures LastKeyed(es, slave, port, n) <==>
      LastKeyed(es[..|es| - 1], slave, port, n) && !(es[|es| - 1].slave == slave && es[|es| - 1].port == port)
  {
  }

  /** The status a device had once its entries are written: nothing runs, and what failed has still failed. */
  lemma {:induction false} StatusWritten(
      ids: map<string, Id>, prior: Option<Device>, es: seq<DeviceExport>, key: DeviceKey)
    requires Writable(DeviceTable(ids), es)
    ensures var after := After(DeviceTable(ids), prior, es, key);
      if KeyedEntry(es, key) then after.Some? && after.value.status == Rested(prior) else after == prior
    decreases |es|
  {
    if es != [] {
      var init, e := es[..|es| - 1], es[|es| - 1];
      WritableFirst(ids, es);
      StatusWritten(ids, prior, init, key);
      StatusOfOne(ids, After(DeviceTable(ids), prior, init, key), e);
    }
  }

  lemma WritableFirst(ids: map<string, Id>, es: seq<DeviceExport>)
    requires es != [] && Writable(DeviceTable(ids), es)
    ensures Writable(DeviceTable(ids), es[..|es| - 1]) && es[|es| - 1].template in ids
  {
    var init, e := es[..|es| - 1], es[|es| - 1];
    assert es == init + [e] && e in es;
    assert forall d <- init :: d in es;
    assert DeviceTable(ids).write(None, e) == WriteDevice(ids, None, e);
  }

  lemma StatusOfOne(ids: map<string, Id>, before: Option<Device>, e: DeviceExport)
    requires e.template in ids
    ensures var written := DeviceTable(ids).write(before, e);
      written.Ok? && written.value.status == Rested(before)
  {
    assert DeviceTable(ids).write(before, e) == WriteDevice(ids, before, e);
  }

  function Rested(prior: Option<Device>): DeviceStatus {
    if prior.Some? && prior.value.status == Failed then Failed else Stopped
  }

  lemma {:induction false} FieldsWritten(
      ids: map<string, Id>, prior: Option<Device>, es: seq<DeviceExport>, key: DeviceKey, n: nat)
    requires Writable(DeviceTable(ids), es) && LastKeyed(es, key.0, key.1, n)
    ensures var after, e := After(DeviceTable(ids), prior, es, key), es[n];
      && after.Some? && e.template in ids
      && after.value.name == e.name && after.value.description == e.description
      && after.value.templateId == ids[e.template] && KeyOf(after.value) == key
    decreases |es|
  {
    var t, init, e := DeviceTable(ids), es[..|es| - 1], es[|es| - 1];
    assert es == init + [e] && e in es;
    assert forall d <- init :: d in es;
    var before := After(t, prior, init, key);
    assert t.write(before, e) == WriteDevice(ids, before, e) && t.write(None, e) == WriteDevice(ids, None, e);
    if n < |init| {
      LastKeyedStep(es, key.0, key.1, n);
      FieldsWritten(ids, prior, init, key, n);
    }
  }

  /** The device section on its own. */
  lemma DeviceWritten(p: Stage, order: seq<Id>, es: seq<DeviceExport>, i: Id, n: nat)
    requires Consistent(p.db) && DevicesImported(p, order, es).Ok?
    requires i in DevicesImported(p, order, es).value.db.devices
    requires var d := DevicesImported(p, order, es).value.db.devices[i]; LastKeyed(es, d.slave, d.port, n)
    ensures var d, e := DevicesImported(p, order, es).value.db.devices[i], es[n];
      && d.name == e.name && d.description == e.description && Get(p.templateIds, e.template) == Some(d.templateId)
      && d.status == Rested(Get(p.db.devices, i))
  {
    var t, load := DeviceTable(p.templateIds), DeviceLoad(p.templateIds, p.db);
    var d := DevicesImported(p, order, es).value.db.devices[i];
    DeviceTableLawful(p.templateIds);
    AcceptedExactly(t, load, es);
    RowsFollowEntries(t, load, es, i);
    assert t.rowKey(d) == KeyOf(d) && es[n] in es;
    StatusWritten(p.templateIds, Get(load.rows, i), es, KeyOf(d));
    FieldsWritten(p.templateIds, Get(load.rows, i), es, KeyOf(d), n);
  }

  /** Devices and templates of an import are those its first two sections leave. */
  lemma OwnersOf(db: Database, order: seq<Id>, s: Snapshot) returns (p: Stage)
    requires Consistent(db) && Imported(db, order, s).Ok?
    ensures TemplatesImported(db, s.templates) == Ok(p) && Consistent(p.db) && NamesTemplates(p.templateIds, p.db)
    ensures DevicesImported(p, order, s.devices).Ok?
    ensures Imported(db, order, s).value.db.devices == DevicesImported(p, order, s.devices).value.db.devices
    ensures Imported(db, order, s).value.db.templates == p.db.templates
    ensures p.db == db.(templates := p.db.templates, nextId := p.db.nextId)
  {
    TemplatesKeepConsistent(db, s.templates);
    p := TemplatesImported(db, s.templates).value;
    PreparedKeepsConsistent(db, order, s);
    var q, b := StagesOf(Prepared(db, order, s).value, s);
  }

  /**
   A device of the snapshot's last entry for its unit and port: named, described and
   based as the entry says. It is stopped, also if it was running or was not there;
   only one that had failed stays failed.
   */
  lemma ImportedDevice(db: Database, order: seq<Id>, s: Snapshot, i: Id, n: nat)
    requires Consistent(db) && Imported(db, order, s).Ok? && i in Imported(db, order, s).value.db.devices
    requires var d := Imported(db, order, s).value.db.devices[i]; LastKeyed(s.devices, d.slave, d.port, n)
    ensures var after, e := Imported(db, order, s).value.db, s.devices[n];
      var d := after.devices[i];
      && d.name == e.name && d.description == e.description
      && d.templateId in after.templates && after.templates[d.templateId].name == e.template
      && d.status == if i in db.devices && db.devices[i].status == Failed then Failed else Stopped
  {
    var p := OwnersOf(db, order, s);
    DeviceWritten(p, order, s.devices, i, n);
  }

  /** Every entry has a device; a device that no entry is for keeps its row, running or not. */
  lemma EntriesHaveDevices(db: Database, order: seq<Id>, s: Snapshot, n: nat) returns (i: Id)
    requires Consistent(db) && Imported(db, order, s).Ok? && n < |s.devices|
    ensures var devices := Imported(db, order, s).value.db.devices;
      i in devices && devices[i].slave == s.devices[n].slave && devices[i].port == s.devices[n].port
  {
    var p := OwnersOf(db, order, s);
    i := DevicePresent(p, order, s.devices, n);
  }

  lemma DevicePresent(p: Stage, order: seq<Id>, es: seq<DeviceExport>, n: nat) returns (i: Id)
    requires Consistent(p.db) && DevicesImported(p, order, es).Ok? && n < |es|
    ensures var devices := DevicesImported(p, order, es).value.db.devices;
      i in devices && devices[i].slave == es[n].slave && devices[i].port == es[n].port
  {
    var t, load := DeviceTable(p.templateIds), DeviceLoad(p.templateIds, p.db);
    DeviceTableLawful(p.templateIds);
    EntriesPresent(t, load, es, n);
    var rows := Upserted(t, load, es).value.rows;
    i :| i in rows && t.rowKey(rows[i]) == t.entryKey(es[n]);
  }

  lemma UnlistedDeviceKept(db: Database, order: seq<Id>, s: Snapshot, i: Id)
    requires Consistent(db) && Imported(db, order, s).Ok? && i in db.devices
    requires forall e <- s.devices :: !(e.slave == db.devices[i].slave && e.port == db.devices[i].port)
    ensures Get(Imported(db, order, s).value.db.devices, i) == Some(db.devices[i])
  {
    var p := OwnersOf(db, order, s);
    UnmentionedRowKept(p, order, s.devices, i);
  }

  // --- Templates ---

  /** Entry n is the last one that writes the template: a built-in's entry does not. */
  ghost predicate LastTemplate(es: seq<TemplateExport>, name: string, n: int) {
    && 0 <= n < |es| && es[n].name == name && !es[n].builtin
    && forall m :: n < m < |es| ==> es[m].name != name || es[m].builtin
  }

  /** Just the listed registers, none with an object identifier. */
  ghost predicate JustRegisters(registers: map<string, RegisterRow>, es: seq<RegisterExport>) {
    && (forall name <- registers :: exists m :: 0 <= m < |es| && es[m].name == name)
    && (forall m :: 0 <= m < |es| ==> Get(registers, es[m].name) == Some(RegisterRow(es[m].spec, None)))
  }

  lemma {:induction false} RegistersWritten(es: seq<RegisterExport>)
    requires RegistersFrom(es).Ok?
    ensures JustRegisters(RegistersFrom(es).value, es)
    decreases |es|
  {
    if es != [] {
      var init, e := es[..|es| - 1], es[|es| - 1];
      RegistersWritten(init);
      var registers := RegistersFrom(es).value;
      forall name <- registers
        ensures exists m :: 0 <= m < |es| && es[m].name == name
      {
        if name == e.name {
          assert es[|es| - 1].name == name;
        } else {
          var m :| 0 <= m < |init| && init[m].name == name;
          assert es[m].name == name;
        }
      }
      forall m | 0 <= m < |es|
        ensures Get(registers, es[m].name) == Some(RegisterRow(es[m].spec, None))
      {
        if m < |init| {
          assert es[m] == init[m] && init[m].name in RegistersFrom(init).value;
        }
      }
    }
  }

  lemma {:induction false} TemplateWrittenBy(prior: Option<Template>, es: seq<TemplateExport>, name: string, n: nat)
    requires Writable(TemplateTable(), es) && LastTemplate(es, name, n)
    ensures var after, e := After(TemplateTable(), prior, es, name), es[n];
      && after.Some? && after.value.name == name
      && after.value.protocol == e.protocol && after.value.description == e.description
      && JustRegisters(after.value.registers, e.registers)
      && after.value.builtin == (prior.Some? && prior.value.builtin)
    decreases |es|
  {
    var t, init, e := TemplateTable(), es[..|es| - 1], es[|es| - 1];
    assert es == init + [e] && e in es;
    assert forall d <- init :: d in es;
    var before := After(t, prior, init, name);
    assert t.write(before, e) == WriteTemplate(before, e) && t.write(None, e) == WriteTemplate(None, e);
    if n < |init| {
      TemplateWrittenBy(prior, init, name, n);
    } else {
      RegistersWritten(e.registers);
      BuiltinKept(prior, init, name);
    }
  }

  lemma {:induction false} BuiltinKept(prior: Option<Template>, es: seq<TemplateExport>, name: string)
    ensures var after := After(TemplateTable(), prior, es, name);
      (after.Some? && after.value.builtin) == (prior.Some? && prior.value.builtin)
    decreases |es|
  {
    if es != [] {
      var t, init, e := TemplateTable(), es[..|es| - 1], es[|es| - 1];
      BuiltinKept(prior, init, name);
      var before := After(t, prior, init, name);
      assert t.write(before, e) == WriteTemplate(before, e);
    }
  }

  /** A template that an entry writes is as the last such entry says; built-in is what was built in before. */
  lemma ImportedTemplate(db: Database, order: seq<Id>, s: Snapshot, i: Id, n: nat)
    requires Consistent(db) && Imported(db, order, s).Ok? && i in Imported(db, order, s).value.db.templates
    requires LastTemplate(s.templates, Imported(db, order, s).value.db.templates[i].name, n)
    ensures var row, e := Imported(db, order, s).value.db.templates[i], s.templates[n];
      && row.protocol == e.protocol && row.description == e.description && JustRegisters(row.registers, e.registers)
      && row.builtin == (i in db.templates && db.templates[i].builtin)
  {
    var p := OwnersOf(db, order, s);
    var t, load := TemplateTable(), TemplateLoad(db);
    TemplateTableLawful();
    AcceptedExactly(t, load, s.templates);
    RowsFollowEntries(t, load, s.templates, i);
    TemplateWrittenBy(Get(load.rows, i), s.templates, p.db.templates[i].name, n);
  }

  /** Any other template, in particular one of which the snapshot has built-in entries only, is left alone. */
  lemma OtherTemplateKept(db: Database, order: seq<Id>, s: Snapshot, i: Id)
    requires Consistent(db) && Imported(db, order, s).Ok? && i in Imported(db, order, s).value.db.templates
    requires var name := Imported(db, order, s).value.db.templates[i].name;
      forall e <- s.templates :: e.name == name ==> e.builtin
    ensures Get(db.templates, i) == Some(Imported(db, order, s).value.db.templates[i])
  {
    var p := OwnersOf(db, order, s);
    TemplateKept(db, s.templates, i);
  }

  lemma TemplateKept(db: Database, es: seq<TemplateExport>, i: Id)
    requires Consistent(db) && TemplatesImported(db, es).Ok? && i in TemplatesImported(db, es).value.db.templates
    requires var name := TemplatesImported(db, es).value.db.templates[i].name;
      forall e <- es :: e.name == name ==> e.builtin
    ensures Get(db.templates, i) == Some(TemplatesImported(db, es).value.db.templates[i])
  {
    var t, load, name := TemplateTable(), TemplateLoad(db), TemplatesImported(db, es).value.db.templates[i].name;
    TemplateTableLawful();
    RowsFollowEntries(t, load, es, i);
    assert forall e <- es :: !Concerns(t, e, name);
    AfterUnconcerned(t, Get(load.rows, i), es, name);
  }

  /** The registers of one entry are refused exactly when two share a name, or an address and function code. */
  lemma {:induction false} RegistersAcceptedExactly(es: seq<RegisterExport>)
    ensures RegistersFrom(es).Ok? <==> forall j :: 0 <= j < |es| ==> FindsRoom(es, j)
    decreases |es|
  {
    if es != [] {
      var init := es[..|es| - 1];
      RegistersAcceptedExactly(init);
      RoomAmongFirst(es);
      if RegistersFrom(init).Ok? {
        LastFindsRoom(es);
      }
    }
  }

  lemma RoomAmongFirst(es: seq<RegisterExport>)
    requires es != []
    ensures var init := es[..|es| - 1];
      (forall j :: 0 <= j < |init| ==> FindsRoom(init, j)) <==> forall j :: 0 <= j < |init| ==> FindsRoom(es, j)
  {
    var init := es[..|es| - 1];
    assert forall j :: 0 <= j < |init| ==> (FindsRoom(init, j) <==> FindsRoom(es, j));
  }

  lemma LastFindsRoom(es: seq<RegisterExport>)
    requires es != [] && RegistersFrom(es[..|es| - 1]).Ok?
    ensures Clashes(RegistersFrom(es[..|es| - 1]).value, es[|es| - 1]) <==> !FindsRoom(es, |es| - 1)
  {
    var init, n := es[..|es| - 1], |es| - 1;
    RegistersWritten(init);
    ClashesExactly(RegistersFrom(init).value, init, es[n]);
    assert FindsRoom(es, n) <==> forall i :: 0 <= i < n ==> !SameSlot(init[i], es[n]);
  }

  predicate SameSlot(a: RegisterExport, b: RegisterExport) {
    a.name == b.name || (a.spec.address == b.spec.address && a.spec.functionCode == b.spec.functionCode)
  }

  ghost predicate FindsRoom(es: seq<RegisterExport>, j: int)
    requires 0 <= j < |es|
  {
    forall i :: 0 <= i < j ==> !SameSlot(es[i], es[j])
  }

  lemma ClashesExactly(registers: map<string, RegisterRow>, es: seq<RegisterExport>, e: RegisterExport)
    requires JustRegisters(registers, es)
    ensures Clashes(registers, e) <==> exists i :: 0 <= i < |es| && SameSlot(es[i], e)
  {
    if Clashes(registers, e) {
      var name :| name in registers && (name == e.name || Slot(registers[name]) == Slot(RegisterRow(e.spec, None)));
      var m :| 0 <= m < |es| && es[m].name == name;
      assert Get(registers, es[m].name) == Some(RegisterRow(es[m].spec, None));
      if name != e.name {
        assert Slot(registers[name]) == (es[m].spec.address, es[m].spec.functionCode);
        assert Slot(RegisterRow(e.spec, None)) == (e.spec.address, e.spec.functionCode);
      }
      assert SameSlot(es[m], e);
    }
    if i :| 0 <= i < |es| && SameSlot(es[i], e) {
      assert Get(registers, es[i].name) == Some(RegisterRow(es[i].spec, None));
    }
  }

  // --- Brokers ---

  /** The snapshot's brokers; a single legacy one comes last, as "default". */
  function ListedBrokers(s: Snapshot): seq<Broker> {
    s.brokers + if s.legacy.Some? then [s.legacy.value.(name := "default")] else []
  }

  ghost predicate LastBroker(es: seq<Broker>, name: string, n: int) {
    0 <= n < |es| && es[n].name == name && forall m :: n < m < |es| ==> es[m].name != name
  }

  /** The last password given for the name that is not masked. */
  function PasswordGiven(es: seq<Broker>, name: string): Option<string> {
    if es == [] then None
    else
      var last := es[|es| - 1];
      if last.name == name && last.password != "****" then Some(last.password)
      else PasswordGiven(es[..|es| - 1], name)
  }

  lemma {:induction false} BrokerFieldsWritten(prior: Option<Broker>, es: seq<Broker>, name: string, n: nat)
    requires LastBroker(es, name, n)
    ensures var after := After(BrokerTable(), prior, es, name);
      after.Some? && after.value.(password := "") == es[n].(password := "")
    decreases |es|
  {
    var t, init, e := BrokerTable(), es[..|es| - 1], es[|es| - 1];
    var before := After(t, prior, init, name);
    assert t.write(before, e) == Ok(WriteBroker(before, e));
    if n < |init| {
      BrokerFieldsWritten(prior, init, name, n);
    }
  }

  lemma {:induction false} PasswordWritten(prior: Option<Broker>, es: seq<Broker>, name: string)
    ensures var after := After(BrokerTable(), prior, es, name);
      var kept := if prior.Some? then prior.value.password else "****";
      after.Some? ==>
        after.value.password == if PasswordGiven(es, name).Some? then PasswordGiven(es, name).value else kept
    ensures After(BrokerTable(), prior, es, name).None? ==> PasswordGiven(es, name).None? && prior.None?
    decreases |es|
  {
    if es != [] {
      var t, init, e := BrokerTable(), es[..|es| - 1], es[|es| - 1];
      PasswordWritten(prior, init, name);
      var before := After(t, prior, init, name);
      assert t.write(before, e) == Ok(WriteBroker(before, e));
    }
  }

  /** The broker section sees the stored brokers, and nothing later changes them. */
  lemma BrokersOf(db: Database, order: seq<Id>, s: Snapshot) returns (q: Stage)
    requires Consistent(db) && Imported(db, order, s).Ok?
    ensures Consistent(q.db) && q.db.brokers == db.brokers && BrokersImported(q, ListedBrokers(s)).Ok?
    ensures BrokersImported(q, ListedBrokers(s)).value.db.brokers == Imported(db, order, s).value.db.brokers
  {
    var t := OwnersOf(db, order, s);
    PreparedKeepsConsistent(db, order, s);
    var b: Stage;
    q, b := StagesOf(Prepared(db, order, s).value, s);
    assert ListedBrokers(s) == BrokerEntries(s);
  }

  /**
   A listed broker is as its last entry says, but for the password: that is the last
   one given unmasked, else the stored one.
   */
  lemma ImportedBroker(db: Database, order: seq<Id>, s: Snapshot, i: Id, n: nat)
    requires Consistent(db) && Imported(db, order, s).Ok? && i in Imported(db, order, s).value.db.brokers
    requires LastBroker(ListedBrokers(s), Imported(db, order, s).value.db.brokers[i].name, n)
    ensures var row, es := Imported(db, order, s).value.db.brokers[i], ListedBrokers(s);
      && row.host == es[n].host && row.port == es[n].port && row.username == es[n].username
      && row.clientId == es[n].clientId && row.useTls == es[n].useTls
      && row.password == (if PasswordGiven(es, row.name).Some? then PasswordGiven(es, row.name).value
                          else if i in db.brokers then db.brokers[i].password
                          else "****")
  {
    var q := BrokersOf(db, order, s);
    BrokerWrittenBy(q, ListedBrokers(s), i, n);
  }

  lemma BrokerWrittenBy(q: Stage, es: seq<Broker>, i: Id, n: nat)
    requires Consistent(q.db) && BrokersImported(q, es).Ok? && i in BrokersImported(q, es).value.db.brokers
    requires LastBroker(es, BrokersImported(q, es).value.db.brokers[i].name, n)
    ensures var row := BrokersImported(q, es).value.db.brokers[i];
      && row.(password := "") == es[n].(password := "")
      && row.password == (if PasswordGiven(es, row.name).Some? then PasswordGiven(es, row.name).value
                          else if i in q.db.brokers then q.db.brokers[i].password
                          else "****")
  {
    var t, load := BrokerTable(), BrokerLoad(q.db);
    var row := BrokersImported(q, es).value.db.brokers[i];
    BrokerTableLawful();
    RowsFollowEntries(t, load, es, i);
    assert t.rowKey(row) == row.name;
    BrokerFieldsWritten(Get(load.rows, i), es, row.name, n);
    PasswordWritten(Get(load.rows, i), es, row.name);
  }

  /** Every listed broker is there, a legacy one under the name default; brokers that are not listed stay. */
  lemma ListedBrokersPresent(db: Database, order: seq<Id>, s: Snapshot, n: nat) returns (i: Id)
    requires Consistent(db) && Imported(db, order, s).Ok? && n < |ListedBrokers(s)|
    ensures var brokers := Imported(db, order, s).value.db.brokers;
      i in brokers && brokers[i].name == ListedBrokers(s)[n].name
  {
    var q := BrokersOf(db, order, s);
    i := BrokerPresent(q, ListedBrokers(s), n);
  }

  lemma BrokerPresent(q: Stage, es: seq<Broker>, n: nat) returns (i: Id)
    requires Consistent(q.db) && BrokersImported(q, es).Ok? && n < |es|
    ensures var brokers := BrokersImported(q, es).value.db.brokers; i in brokers && brokers[i].name == es[n].name
  {
    var t, load := BrokerTable(), BrokerLoad(q.db);
    BrokerTableLawful();
    EntriesPresent(t, load, es, n);
    var rows := Upserted(t, load, es).value.rows;
    i :| i in rows && t.rowKey(rows[i]) == t.entryKey(es[n]);
  }

  lemma UnlistedBrokerKept(db: Database, order: seq<Id>, s: Snapshot, i: Id)
    requires Consistent(db) && Imported(db, order, s).Ok? && i in db.brokers
    requires forall e <- ListedBrokers(s) :: e.name != db.brokers[i].name
    ensures Get(Imported(db, order, s).value.db.brokers, i) == Some(db.brokers[i])
  {
    var q := BrokersOf(db, order, s);
    var t, load, es := BrokerTable(), BrokerLoad(q.db), ListedBrokers(s);
    BrokerTableLawful();
    UpsertedKeeps(t, load, es);
    var row := Upserted(t, load, es).value.rows[i];
    assert t.rowKey(row) == t.rowKey(load.rows[i]);
    RowsFollowEntries(t, load, es, i);
    assert forall e <- es :: !Concerns(t, e, row.name);
    AfterUnconcerned(t, Get(load.rows, i), es, row.name);
  }
}
