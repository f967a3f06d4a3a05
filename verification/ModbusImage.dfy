/**
 The register image over whole histories: whatever else the adapter is asked to
 do, a device's registers behave like a map from register to the value last
 written to it (section 4.2 of the MODBUS Application Protocol Specification
 V1.1b3 gives registers their 16-bit words).
 */
module ModbusImage {
  import opened Prelude
  import opened Registers
  import opened ProtocolBase
  import opened TemplateService
  import opened ModbusEncoding
  import opened ModbusTcp

  datatype Event =
    | Start
    | Stop
    | Add(device: DeviceId, slave: SlaveId, registers: seq<Register>)
    | Remove(device: DeviceId)
    | Update(device: DeviceId, register: Register, value: Sample)

  function Stepped(m: Modbus, e: Event): Modbus
    requires Linked(m)
  {
    match e
    case Start => m.(started := true)
    case Stop => STOPPED
    case Add(device, slave, registers) =>
      if AddError(m, slave).None? then Added(m, device, slave, registers) else m.(stats := m.stats - {device})
    case Remove(device) => Removed(m, device)
    case Update(device, register, value) =>
      if UpdateError(m, device, register, value).None? then Updated(m, device, register, value) else m
  }

  /** Every event, on any device, keeps devices and slaves linked one to one. */
  lemma StepKeepsLinked(m: Modbus, e: Event)
    requires Linked(m)
    ensures Linked(Stepped(m, e))
  {
  }

  function Run(m: Modbus, events: seq<Event>): (r: Modbus)
    requires Linked(m)
    ensures Linked(r)
  {
    if events == [] then m
    else
      var before := Run(m, events[..|events| - 1]);
      StepKeepsLinked(before, events[|events| - 1]);
      Stepped(before, events[|events| - 1])
  }

  /** The device stays registered, and updates of it name its own registers. */
  ghost predicate KeepsDevice(events: seq<Event>, device: DeviceId, registers: seq<Register>) {
    forall e <- events :: SparesDevice(e, device, registers)
  }

  predicate SparesDevice(e: Event, device: DeviceId, registers: seq<Register>) {
    match e
    case Start => true
    case Stop => false
    case Add(d, _, _) => d != device
    case Remove(d) => d != device
    case Update(d, r, _) => d == device ==> r in registers
  }

  /** The value of the last update of a register that the encoder accepted. */
  function LastWritten(events: seq<Event>, device: DeviceId, r: Register): Option<Sample> {
    if events == [] then None
    else
      var last := events[|events| - 1];
      if last.Update? && last.device == device && last.register == r
         && Encoded(last.value, r.dataType, r.byteOrder).Ok?
      then Some(last.value)
      else LastWritten(events[..|events| - 1], device, r)
  }

  function SlaveOf(m: Modbus, device: DeviceId): Slave
    requires Linked(m) && device in m.deviceToSlave
  {
    m.slaves[m.deviceToSlave[device]]
  }

  predicate Allocated(slave: Slave, r: Register) {
    EndOf(r) <= |slave.Of(r.functionCode)|
  }

  /** What a client reads at a register's address. */
  function WordsAt(slave: Slave, r: Register): (words: seq<Word>)
    requires Allocated(slave, r)
    ensures |words| == WordCount(r.dataType)
  {
    slave.Of(r.functionCode)[r.address + 1..EndOf(r)]
  }

  ghost predicate SameShape(a: Slave, b: Slave) {
    |a.holding| == |b.holding| && |a.input| == |b.input|
  }

  /** A write inside the block replaces exactly its own words. */
  lemma WriteInside(slave: Slave, r: Register, words: seq<Word>)
    requires Allocated(slave, r) && |words| == WordCount(r.dataType)
    ensures var after := Written(slave, r.functionCode, r.address, words);
      && SameShape(slave, after)
      && WordsAt(after, r) == words
  {
  }

  lemma WriteElsewhere(slave: Slave, r: Register, words: seq<Word>, other: Register)
    requires Allocated(slave, r) && Allocated(slave, other) && |words| == WordCount(r.dataType)
    requires r.functionCode == other.functionCode ==> Words().Disjoint(r, other)
    ensures var after := Written(slave, r.functionCode, r.address, words);
      Allocated(after, other) && WordsAt(after, other) == WordsAt(slave, other)
  {
    WriteInside(slave, r, words);
    var after := Written(slave, r.functionCode, r.address, words);
    if r.functionCode == other.functionCode {
      assert Words().hi(r) <= Words().lo(other) || Words().hi(other) <= Words().lo(r);
      forall i | other.address + 1 <= i < EndOf(other)
        ensures after.Of(other.functionCode)[i] == slave.Of(other.functionCode)[i]
      {
      }
    }
  }

  /** The words a history leaves in a register. */
  function ImageOf(events: seq<Event>, device: DeviceId, r: Register): seq<Word> {
    match LastWritten(events, device, r)
    case None => Zeros(WordCount(r.dataType))
    case Some(v) => if Encoded(v, r.dataType, r.byteOrder).Ok? then Encoded(v, r.dataType, r.byteOrder).value else []
  }

  /** The slave holds the image, in blocks of the size they were created with. */
  ghost predicate HoldsImage(m: Modbus, device: DeviceId, registers: seq<Register>, events: seq<Event>)
    requires Linked(m)
  {
    && device in m.deviceToSlave
    && SameShape(SlaveOf(m, device), FreshSlave(registers))
    && forall r <- registers ::
         Allocated(SlaveOf(m, device), r) && WordsAt(SlaveOf(m, device), r) == ImageOf(events, device, r)
  }

  lemma FreshHoldsImage(m: Modbus, device: DeviceId, slave: SlaveId, registers: seq<Register>)
    requires Linked(m) && AddError(m, slave).None?
    ensures Linked(Added(m, device, slave, registers))
    ensures HoldsImage(Added(m, device, slave, registers), device, registers, [])
  {
    var after := Added(m, device, slave, registers);
    forall r | r in registers
      ensures Allocated(SlaveOf(after, device), r)
      ensures WordsAt(SlaveOf(after, device), r) == ImageOf([], device, r)
    {
    }
  }

  /** An event on another device, or a refused update, does not touch the slave. */
  lemma OtherEventsKeepSlave(m: Modbus, device: DeviceId, e: Event)
    requires Linked(m) && device in m.deviceToSlave
    requires match e
      case Start => true
      case Stop => false
      case Add(d, _, _) => d != device
      case Remove(d) => d != device
      case Update(d, r, v) => d != device || UpdateError(m, d, r, v).Some?
    ensures Linked(Stepped(m, e))
    ensures device in Stepped(m, e).deviceToSlave && SlaveOf(Stepped(m, e), device) == SlaveOf(m, device)
  {
    StepKeepsLinked(m, e);
  }

  /** Registers of one valid template are equal or apart. */
  lemma RegistersApart(registers: seq<Register>, r: Register, other: Register)
    requires AddressesDisjoint(registers)
    requires r in registers && other in registers && r != other
    requires r.functionCode == other.functionCode
    ensures Words().Disjoint(r, other)
  {
    var i :| 0 <= i < |registers| && registers[i] == r;
    var j :| 0 <= j < |registers| && registers[j] == other;
    if i < j {
      assert Words().Disjoint(registers[i], registers[j]);
    } else {
      assert Words().Disjoint(registers[j], registers[i]);
    }
  }

  lemma ImageStep(events: seq<Event>, e: Event, device: DeviceId, r: Register)
    requires e.Update? && e.device == device
    requires Encoded(e.value, e.register.dataType, e.register.byteOrder).Ok?
    ensures ImageOf(events + [e], device, r) ==
      if r == e.register then Encoded(e.value, r.dataType, r.byteOrder).value else ImageOf(events, device, r)
  {
    assert (events + [e])[..|events|] == events;
  }

  lemma UpdateKeepsRegister(
      m: Modbus, device: DeviceId, registers: seq<Register>, events: seq<Event>, e: Event, r: Register)
    requires Linked(m) && HoldsImage(m, device, registers, events)
    requires AddressesDisjoint(registers) && r in registers
    requires e.Update? && e.device == device && e.register in registers
    requires UpdateError(m, device, e.register, e.value).None? && Linked(Stepped(m, e))
    ensures Allocated(SlaveOf(Stepped(m, e), device), r)
    ensures WordsAt(SlaveOf(Stepped(m, e), device), r) == ImageOf(events + [e], device, r)
  {
    var slave := SlaveOf(m, device);
    var words := Encoded(e.value, e.register.dataType, e.register.byteOrder).value;
    ImageStep(events, e, device, r);
    if r == e.register {
      WriteInside(slave, r, words);
    } else {
      if r.functionCode == e.register.functionCode {
        RegistersApart(registers, e.register, r);
      }
      WriteElsewhere(slave, e.register, words, r);
    }
  }

  lemma UpdateKeepsImage(m: Modbus, device: DeviceId, registers: seq<Register>, events: seq<Event>, e: Event)
    requires Linked(m) && HoldsImage(m, device, registers, events)
    requires AddressesDisjoint(registers)
    requires e.Update? && e.device == device && e.register in registers
    requires UpdateError(m, device, e.register, e.value).None?
    ensures Linked(Stepped(m, e)) && HoldsImage(Stepped(m, e), device, registers, events + [e])
  {
    StepKeepsLinked(m, e);
    var words := Encoded(e.value, e.register.dataType, e.register.byteOrder).value;
    WriteInside(SlaveOf(m, device), e.register, words);
    forall r <- registers
      ensures Allocated(SlaveOf(Stepped(m, e), device), r)
      ensures WordsAt(SlaveOf(Stepped(m, e), device), r) == ImageOf(events + [e], device, r)
    {
      UpdateKeepsRegister(m, device, registers, events, e, r);
    }
  }

  lemma {:induction false} RunHoldsImage(m: Modbus, device: DeviceId, registers: seq<Register>, events: seq<Event>)
    requires Linked(m) && HoldsImage(m, device, registers, [])
    requires AddressesDisjoint(registers) && KeepsDevice(events, device, registers)
    ensures HoldsImage(Run(m, events), device, registers, events)
  {
    if events != [] {
      var n := |events| - 1;
      var e := events[n];
      assert forall x <- events[..n] :: x in events;
      RunHoldsImage(m, device, registers, events[..n]);
      var before := Run(m, events[..n]);
      assert e in events;
      assert events[..n] + [e] == events;
      if e.Update? && e.device == device && UpdateError(before, device, e.register, e.value).None? {
        UpdateKeepsImage(before, device, registers, events[..n], e);
      } else {
        OtherEventsKeepSlave(before, device, e);
        forall r | r in registers
          ensures ImageOf(events, device, r) == ImageOf(events[..n], device, r)
        {
        }
      }
    }
  }

  /**
   Register a device whose template the overlap validator accepts, then let
   anything happen that keeps the device: reading any of its registers decodes to
   what was last written there, or to the zero words it started with, and no
   block ever changed its size.
   */
  lemma RegistersBehaveAsMap(
      m: Modbus, device: DeviceId, slave: SlaveId, registers: seq<Register>, events: seq<Event>, r: Register)
    requires Linked(m) && AddError(m, slave).None?
    requires AddressesDisjoint(registers) && r in registers
    requires KeepsDevice(events, device, registers)
    ensures Linked(Added(m, device, slave, registers))
    ensures var after := Run(Added(m, device, slave, registers), events);
      && device in after.deviceToSlave
      && SameShape(SlaveOf(after, device), FreshSlave(registers))
      && Allocated(SlaveOf(after, device), r)
      && match LastWritten(events, device, r)
         case None => WordsAt(SlaveOf(after, device), r) == Zeros(WordCount(r.dataType))
         case Some(v) => Decode(WordsAt(SlaveOf(after, device), r), r.dataType, r.byteOrder) == Kept(v, r.dataType)
  {
    FreshHoldsImage(m, device, slave, registers);
    RunHoldsImage(Added(m, device, slave, registers), device, registers, events);
    LastWrittenEncodes(events, device, r);
    if LastWritten(events, device, r).Some? {
      DecodeEncoded(LastWritten(events, device, r).value, r.dataType, r.byteOrder);
    }
  }

  lemma {:induction false} LastWrittenEncodes(events: seq<Event>, device: DeviceId, r: Register)
    ensures match LastWritten(events, device, r)
      case None => true
      case Some(v) => Encoded(v, r.dataType, r.byteOrder).Ok?
  {
    if events != [] {
      LastWrittenEncodes(events[..|events| - 1], device, r);
    }
  }
}
