/**
 The configuration tables and their snapshot: what an export writes down and what
 an import does with it. Ids are drawn from one counter; a device's row order and
 the other query orders are parameters.
 */
module Snapshots {
  import opened Prelude
  import opened Upserts
  import opened ConfigReplacement

  // --- The tables ---

  datatype RegisterSpec = RegisterSpec(
    address: int,
    functionCode: int,
    dataType: string,
    byteOrder: string,
    scaleFactor: real,
    unit: Option<string>,
    description: Option<string>,
    sortOrder: int
  )

  datatype RegisterRow = RegisterRow(spec: RegisterSpec, oid: Option<string>)

  /** A template with the registers that refer to it, by name. */
  datatype Template = Template(
    name: string,
    protocol: string,
    description: Option<string>,
    builtin: bool,
    registers: map<string, RegisterRow>
  )

  datatype DeviceStatus = Stopped | Running | Failed

  datatype Device = Device(
    name: string,
    templateId: Id,
    slave: int,
    port: int,
    status: DeviceStatus,
    description: Option<string>
  )

  /** Parameter objects are kept as their JSON text. */
  datatype SimulationSpec = SimulationSpec(dataMode: string, params: string, enabled: bool, intervalMs: int)

  datatype ScheduleSpec = ScheduleSpec(anomalyType: string, params: string, duration: int, enabled: bool)

  datatype Broker = Broker(
    name: string,
    host: string,
    port: int,
    username: string,
    password: string,
    clientId: string,
    useTls: bool
  )

  datatype PublishSpec = PublishSpec(
    topicTemplate: string,
    payloadMode: string,
    interval: int,
    qos: int,
    retain: bool,
    enabled: bool
  )

  /** A schedule is told apart by its register and its trigger time. */
  type ScheduleItem = (string, int)

  datatype Database = Database(
    templates: map<Id, Template>,
    devices: map<Id, Device>,
    simulations: map<(Id, string), SimulationSpec>,
    schedules: map<(Id, ScheduleItem), ScheduleSpec>,
    brokers: map<Id, Broker>,
    publishes: map<(Id, Id), PublishSpec>,
    nextId: Id
  )

  // --- The snapshot ---

  datatype RegisterExport = RegisterExport(name: string, spec: RegisterSpec)

  datatype TemplateExport = TemplateExport(
    name: string,
    protocol: string,
    description: Option<string>,
    builtin: bool,
    registers: seq<RegisterExport>
  )

  datatype DeviceExport = DeviceExport(
    name: string,
    template: string,
    slave: int,
    port: int,
    description: Option<string>
  )

  /** `legacy` is the single broker that snapshots from before named brokers carry. */
  datatype Snapshot = Snapshot(
    templates: seq<TemplateExport>,
    devices: seq<DeviceExport>,
    simulations: seq<ConfigExport<string, SimulationSpec>>,
    schedules: seq<ConfigExport<ScheduleItem, ScheduleSpec>>,
    brokers: seq<Broker>,
    legacy: Option<Broker>,
    publishes: seq<PublishExport<PublishSpec>>
  )

  // --- How each table takes an entry ---

  function Slot(row: RegisterRow): (int, int) { (row.spec.address, row.spec.functionCode) }

  predicate Clashes(registers: map<string, RegisterRow>, e: RegisterExport) {
    e.name in registers || exists name <- registers :: Slot(registers[name]) == Slot(RegisterRow(e.spec, None))
  }

  /** The fresh registers of a template; snapshots carry no object identifiers. */
  function RegistersFrom(es: seq<RegisterExport>): Result<map<string, RegisterRow>, ImportError> {
    if es == [] then Ok(map[])
    else
      var before :- RegistersFrom(es[..|es| - 1]);
      var e := es[|es| - 1];
      if Clashes(before, e) then Err(IntegrityError) else Ok(before[e.name := RegisterRow(e.spec, None)])
  }

  function WriteTemplate(prior: Option<Template>, e: TemplateExport): Result<Template, ImportError> {
    var registers :- RegistersFrom(e.registers);
    Ok(Template(e.name, e.protocol, e.description, prior.Some? && prior.value.builtin, registers))
  }

  function TemplateTable(): Table<string, Template, TemplateExport> {
    Table((t: Template) => t.name, (e: TemplateExport) => e.name, (e: TemplateExport) => e.name,
          (e: TemplateExport) => e.builtin, (prior, e) => WriteTemplate(prior, e), false)
  }

  /** An import stops the devices it names and leaves other states alone. */
  function StatusAfter(prior: Option<Device>): DeviceStatus {
    if prior.None? || prior.value.status.Running? then Stopped else prior.value.status
  }

  function WriteDevice(
      templateIds: map<string, Id>, prior: Option<Device>, e: DeviceExport): Result<Device, ImportError>
  {
    if e.template !in templateIds then Err(UnknownTemplate(e.name, e.template))
    else Ok(Device(e.name, templateIds[e.template], e.slave, e.port, StatusAfter(prior), e.description))
  }

  type DeviceKey = (int, int)

  function DeviceTable(templateIds: map<string, Id>): Table<DeviceKey, Device, DeviceExport> {
    Table((d: Device) => (d.slave, d.port), (e: DeviceExport) => (e.slave, e.port), (e: DeviceExport) => e.name,
          (e: DeviceExport) => false, (prior, e) => WriteDevice(templateIds, prior, e), false)
  }

  const MASKED := "****"

  /** A masked password keeps the stored one. */
  function WriteBroker(prior: Option<Broker>, e: Broker): Broker {
    if prior.Some? && e.password == MASKED then e.(password := prior.value.password) else e
  }

  function BrokerTable(): Table<string, Broker, Broker> {
    Table((b: Broker) => b.name, (b: Broker) => b.name, (b: Broker) => b.name,
          (b: Broker) => false, (prior, e) => Ok(WriteBroker(prior, e)), true)
  }

  function BrokerEntries(s: Snapshot): seq<Broker> {
    if s.legacy.Some? then s.brokers + [s.legacy.value.(name := "default")] else s.brokers
  }

  // --- Constraints the database keeps ---

  ghost predicate UniqueRegisters(registers: map<string, RegisterRow>) {
    forall a <- registers, b <- registers :: Slot(registers[a]) == Slot(registers[b]) ==> a == b
  }

  ghost predicate UniqueRows(db: Database) {
    && (forall i <- db.templates, j <- db.templates :: db.templates[i].name == db.templates[j].name ==> i == j)
    && (forall i <- db.devices, j <- db.devices :: KeyOf(db.devices[i]) == KeyOf(db.devices[j]) ==> i == j)
    && (forall i <- db.brokers, j <- db.brokers :: db.brokers[i].name == db.brokers[j].name ==> i == j)
    && (forall i <- db.templates :: UniqueRegisters(db.templates[i].registers))
  }

  function KeyOf(d: Device): DeviceKey { (d.slave, d.port) }

  ghost predicate IdsIssued(db: Database) {
    && (forall i <- db.templates :: i < db.nextId)
    && (forall i <- db.devices :: i < db.nextId)
    && (forall i <- db.brokers :: i < db.nextId)
  }

  ghost predicate ReferencesHold(db: Database) {
    && (forall i <- db.devices :: db.devices[i].templateId in db.templates)
    && (forall k <- db.simulations :: k.0 in db.devices)
    && (forall k <- db.schedules :: k.0 in db.devices)
    && (forall k <- db.publishes :: k.0 in db.devices && k.1 in db.brokers)
  }

  ghost predicate Consistent(db: Database) {
    UniqueRows(db) && IdsIssued(db) && ReferencesHold(db)
  }

  // --- Export ---

  /** The orders in which the queries return their rows. */
  datatype RowOrder = RowOrder(
    templates: seq<Id>,
    registers: seq<(Id, string)>,
    devices: seq<Id>,
    simulations: seq<(Id, string)>,
    schedules: seq<(Id, ScheduleItem)>,
    brokers: seq<Id>,
    publishes: seq<(Id, Id)>
  )

  function RegisterKeys(db: Database): set<(Id, string)> {
    set i <- db.templates, name <- db.templates[i].registers :: (i, name)
  }

  ghost predicate OrdersRows(o: RowOrder, db: Database) {
    && Lists(o.templates, db.templates.Keys)
    && Lists(o.registers, RegisterKeys(db))
    && Lists(o.devices, db.devices.Keys)
    && Lists(o.simulations, db.simulations.Keys)
    && Lists(o.schedules, db.schedules.Keys)
    && Lists(o.brokers, db.brokers.Keys)
    && Lists(o.publishes, db.publishes.Keys)
  }

  /** The loop of an export section: what `f` gives for each row, skipping rows it gives nothing for. */
  function Collect<A, B>(order: seq<A>, f: A -> Option<B>): seq<B> {
    if order == [] then []
    else
      var before := Collect(order[..|order| - 1], f);
      var last := f(order[|order| - 1]);
      if last.Some? then before + [last.value] else before
  }

  function ExportRegister(i: Id, registers: map<string, RegisterRow>, k: (Id, string)): Option<RegisterExport> {
    if k.0 == i && k.1 in registers then Some(RegisterExport(k.1, registers[k.1].spec)) else None
  }

  /** The registers of one template, in the order their query returns them. */
  function ExportRegisters(i: Id, registers: map<string, RegisterRow>, order: seq<(Id, string)>): seq<RegisterExport> {
    Collect(order, (k: (Id, string)) => ExportRegister(i, registers, k))
  }

  function ExportTemplate(db: Database, registers: seq<(Id, string)>, i: Id): Option<TemplateExport> {
    if i !in db.templates then None
    else
      var t := db.templates[i];
      Some(TemplateExport(t.name, t.protocol, t.description, t.builtin, ExportRegisters(i, t.registers, registers)))
  }

  /** Devices are joined with their templates. */
  function ExportDevice(db: Database, i: Id): Option<DeviceExport> {
    if i !in db.devices || db.devices[i].templateId !in db.templates then None
    else
      var d := db.devices[i];
      Some(DeviceExport(d.name, db.templates[d.templateId].name, d.slave, d.port, d.description))
  }

  /** device_id_to_name: the names of the devices the join returns. */
  function DeviceNames(db: Database): map<Id, string> {
    map i <- db.devices | db.devices[i].templateId in db.templates :: db.devices[i].name
  }

  function ExportConfig<R(==), S>(
      names: map<Id, string>, rows: map<(Id, R), S>, k: (Id, R)): Option<ConfigExport<R, S>>
  {
    if k in rows && k.0 in names then Some(ConfigExport(names[k.0], k.1, rows[k])) else None
  }

  function ExportConfigs<R(==), S>(names: map<Id, string>, rows: map<(Id, R), S>, order: seq<(Id, R)>)
      : seq<ConfigExport<R, S>>
  {
    Collect(order, (k: (Id, R)) => ExportConfig(names, rows, k))
  }

  function ExportPublish(db: Database, k: (Id, Id)): Option<PublishExport<PublishSpec>> {
    if k in db.publishes && k.0 in DeviceNames(db) && k.1 in db.brokers
    then Some(PublishExport(DeviceNames(db)[k.0], db.brokers[k.1].name, db.publishes[k]))
    else None
  }

  function ExportTemplates(db: Database, registers: seq<(Id, string)>, order: seq<Id>): seq<TemplateExport> {
    Collect(order, (i: Id) => ExportTemplate(db, registers, i))
  }

  function ExportDevices(db: Database, order: seq<Id>): seq<DeviceExport> {
    Collect(order, (i: Id) => ExportDevice(db, i))
  }

  function ExportBrokers(db: Database, order: seq<Id>): seq<Broker> {
    Collect(order, (i: Id) => Get(db.brokers, i))
  }

  function ExportPublishes(db: Database, order: seq<(Id, Id)>): seq<PublishExport<PublishSpec>> {
    Collect(order, (k: (Id, Id)) => ExportPublish(db, k))
  }

  function Exported(db: Database, o: RowOrder): Snapshot {
    Snapshot(
      ExportTemplates(db, o.registers, o.templates),
      ExportDevices(db, o.devices),
      ExportConfigs(DeviceNames(db), db.simulations, o.simulations),
      ExportConfigs(DeviceNames(db), db.schedules, o.schedules),
      ExportBrokers(db, o.brokers),
      None,
      ExportPublishes(db, o.publishes))
  }

  lemma {:induction false} CollectAll<A, B>(order: seq<A>, f: A -> Option<B>)
    requires forall a <- order :: f(a).Some?
    ensures |Collect(order, f)| == |order|
    ensures forall n :: 0 <= n < |order| ==> f(order[n]) == Some(Collect(order, f)[n])
    decreases |order|
  {
    if order != [] {
      assert order[|order| - 1] in order;
      CollectAll(order[..|order| - 1], f);
    }
  }

  lemma {:induction false} CollectSame<A, B>(order: seq<A>, f: A -> Option<B>, g: A -> Option<B>)
    requires forall a <- order :: f(a) == g(a)
    ensures Collect(order, f) == Collect(order, g)
    decreases |order|
  {
    if order != [] {
      assert order[|order| - 1] in order;
      CollectSame(order[..|order| - 1], f, g);
    }
  }

  // --- Import ---

  function TemplatesByName(templates: map<Id, Template>): (m: map<string, Id>)
    requires forall i <- templates, j <- templates :: templates[i].name == templates[j].name ==> i == j
    ensures forall i <- templates :: templates[i].name in m && m[templates[i].name] == i
    ensures forall name <- m :: m[name] in templates && templates[m[name]].name == name
  {
    map i <- templates :: templates[i].name := i
  }

  function DevicesByKey(devices: map<Id, Device>): (m: map<DeviceKey, Id>)
    requires forall i <- devices, j <- devices :: KeyOf(devices[i]) == KeyOf(devices[j]) ==> i == j
    ensures forall i <- devices :: KeyOf(devices[i]) in m && m[KeyOf(devices[i])] == i
    ensures forall key <- m :: m[key] in devices && KeyOf(devices[m[key]]) == key
  {
    map i <- devices :: KeyOf(devices[i]) := i
  }

  function BrokersByName(brokers: map<Id, Broker>): (m: map<string, Id>)
    requires forall i <- brokers, j <- brokers :: brokers[i].name == brokers[j].name ==> i == j
    ensures forall i <- brokers :: brokers[i].name in m && m[brokers[i].name] == i
    ensures forall name <- m :: m[name] in brokers && brokers[m[name]].name == name
  {
    map i <- brokers :: brokers[i].name := i
  }

  /** Names the snapshot does not assign lead to the first stored device of that name. */
  function WithStoredNames(ids: map<string, Id>, devices: map<Id, Device>, order: seq<Id>): map<string, Id> {
    if order == [] then ids
    else
      var before := WithStoredNames(ids, devices, order[..|order| - 1]);
      var i := order[|order| - 1];
      if i !in devices || devices[i].name in before then before else before[devices[i].name := i]
  }

  /** The tables part-way through an import, with the ids its later sections look names up in. */
  datatype Stage = Stage(
    db: Database,
    templateIds: map<string, Id>,
    deviceIds: map<string, Id>,
    brokerIds: map<string, Id>
  )

  function TemplatesImported(db: Database, es: seq<TemplateExport>): Result<Stage, ImportError>
    requires Consistent(db)
  {
    var known := TemplatesByName(db.templates);
    var out :- Upserted(TemplateTable(), Load(db.templates, known, map[], db.nextId), es);
    Ok(Stage(db.(templates := out.rows, nextId := out.nextId), known + out.index, map[], map[]))
  }

  /** `order`: the stored devices as the query returns them. */
  function DevicesImported(p: Stage, order: seq<Id>, es: seq<DeviceExport>): Result<Stage, ImportError>
    requires UniqueRows(p.db)
  {
    var load := Load(p.db.devices, DevicesByKey(p.db.devices), map[], p.db.nextId);
    var out :- Upserted(DeviceTable(p.templateIds), load, es);
    Ok(p.(db := p.db.(devices := out.rows, nextId := out.nextId),
          deviceIds := WithStoredNames(out.index, out.rows, order)))
  }

  function ConfigsImported(p: Stage, s: Snapshot): Result<Stage, ImportError> {
    var simulations :- Replaced(p.deviceIds, p.db.simulations, s.simulations);
    var schedules :- Replaced(p.deviceIds, p.db.schedules, s.schedules);
    Ok(p.(db := p.db.(simulations := simulations.rows, schedules := schedules.rows)))
  }

  function BrokersImported(p: Stage, es: seq<Broker>): Result<Stage, ImportError>
    requires UniqueRows(p.db)
  {
    var out :- Upserted(BrokerTable(), Load(p.db.brokers, BrokersByName(p.db.brokers), map[], p.db.nextId), es);
    Ok(p.(db := p.db.(brokers := out.rows, nextId := out.nextId), brokerIds := out.known + out.index))
  }

  function PublishesImported(p: Stage, es: seq<PublishExport<PublishSpec>>): Stage {
    p.(db := p.db.(publishes := Published(p.deviceIds, p.brokerIds, p.db.publishes, es)))
  }
}
