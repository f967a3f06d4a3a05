/** Which devices and slaves the Modbus adapter serves, and which words a write touches. */
module ModbusRegistry {
  import opened Prelude
  import opened Registers
  import opened ProtocolBase
  import opened ModbusEncoding
  import opened ModbusTcp
  import opened ModbusImage

  /** The unit a device has, event by event. */
  lemma UnitByDevice(m: Modbus, e: Event, device: DeviceId)
    requires Linked(m)
    ensures Get(Stepped(m, e).deviceToSlave, device) ==
      if e.Stop? || e == Remove(device) then None
      else if e.Add? && e.device == device && m.started && e.slave !in m.slaves then Some(e.slave)
      else Get(m.deviceToSlave, device)
  {
  }

  /** The registers it is served with. */
  lemma RegistersByDevice(m: Modbus, e: Event, device: DeviceId)
    requires Linked(m)
    ensures Get(Stepped(m, e).registers, device) ==
      if e.Stop? || (e == Remove(device) && device in m.deviceToSlave) then None
      else if e.Add? && e.device == device && m.started && e.slave !in m.slaves then Some(e.registers)
      else Get(m.registers, device)
  {
  }

  /** And its counters: a refused registration drops them. */
  lemma CountersByDevice(m: Modbus, e: Event, device: DeviceId)
    requires Linked(m)
    ensures Get(Stepped(m, e).stats, device) ==
      if e.Stop? || e == Remove(device) then None
      else if e.Add? && e.device == device then
        (if m.started && e.slave !in m.slaves then Some(DeviceStats(0, 0, 0)) else None)
      else Get(m.stats, device)
  {
  }

  /** Which slave ids are taken, event by event. */
  lemma StepBySlave(m: Modbus, e: Event, slave: SlaveId)
    requires Linked(m)
    ensures slave in Stepped(m, e).slaves <==>
      if e.Stop? then false
      else if e.Remove? then slave in m.slaves && Get(m.deviceToSlave, e.device) != Some(slave)
      else slave in m.slaves || (e.Add? && m.started && e.slave == slave)
  {
  }

  /** A removed device's slave id can be used again at once. */
  lemma RemovalFreesSlave(m: Modbus, device: DeviceId, next: DeviceId, registers: seq<Register>)
    requires Linked(m) && m.started && device in m.deviceToSlave
    ensures Linked(Stepped(m, Remove(device)))
    ensures var slave := m.deviceToSlave[device];
      Get(Stepped(Stepped(m, Remove(device)), Add(next, slave, registers)).deviceToSlave, next) == Some(slave)
  {
    StepKeepsLinked(m, Remove(device));
  }

  /** Why a registration is refused. */
  lemma RefusedExactly(m: Modbus, slave: SlaveId)
    ensures AddError(m, slave) ==
      if !m.started then Some(NotStarted) else if slave in m.slaves then Some(SlaveTaken(slave)) else None
  {
  }

  ghost predicate AllZero(block: Block) {
    forall i :: 0 <= i < |block| ==> block[i] == 0
  }

  /** The size reaches just past the last word of some register of the code, or is one where there is none. */
  ghost predicate LeastSize(size: nat, registers: seq<Register>, code: FunctionCode) {
    && (forall r <- registers :: r.functionCode == code ==> r.address + WordCount(r.dataType) + 1 <= size)
    && (size == 1 || exists r <- registers :: r.functionCode == code && size == r.address + WordCount(r.dataType) + 1)
  }

  lemma {:induction false} BlockSizeIsLeast(registers: seq<Register>, code: FunctionCode)
    ensures LeastSize(BlockSize(registers, code), registers, code)
  {
    if registers != [] {
      var init, last := registers[..|registers| - 1], registers[|registers| - 1];
      BlockSizeIsLeast(init, code);
      assert registers == init + [last] && last in registers;
      assert forall r <- init :: r in registers;
    }
  }

  /** A new slave holds zeros, in blocks that are no longer than its registers need. */
  lemma FreshSlaveIsZeroed(m: Modbus, device: DeviceId, slave: SlaveId, registers: seq<Register>)
    requires Linked(m) && m.started && slave !in m.slaves
    ensures slave in Stepped(m, Add(device, slave, registers)).slaves
    ensures var s := Stepped(m, Add(device, slave, registers)).slaves[slave];
      && AllZero(s.holding) && LeastSize(|s.holding|, registers, Holding)
      && AllZero(s.input) && LeastSize(|s.input|, registers, Input)
  {
    BlockSizeIsLeast(registers, Holding);
    BlockSizeIsLeast(registers, Input);
  }

  /** Just the words from the register's address on, one position further, differ. */
  ghost predicate OnlyWords(before: Block, after: Block, address: nat, words: seq<Word>) {
    && |after| == |before| && address + 1 + |words| <= |before|
    && forall i :: 0 <= i < |before| ==>
         after[i] == if address + 1 <= i < address + 1 + |words| then words[i - address - 1] else before[i]
  }

  lemma SliceWritten(block: Block, address: nat, words: seq<Word>)
    requires address + 1 + |words| <= |block|
    ensures OnlyWords(block, SliceAssign(block, address + 1, words), address, words)
  {
  }

  /** Only the words at the address, in the block of the function code. */
  ghost predicate WritesIn(before: Slave, after: Slave, code: FunctionCode, address: nat, words: seq<Word>) {
    if code == Holding then OnlyWords(before.holding, after.holding, address, words) && after.input == before.input
    else OnlyWords(before.input, after.input, address, words) && after.holding == before.holding
  }

  lemma WrittenIn(slave: Slave, code: FunctionCode, address: nat, words: seq<Word>)
    requires address + 1 + |words| <= |slave.Of(code)|
    ensures WritesIn(slave, Written(slave, code, address, words), code, address, words)
  {
    SliceWritten(slave.Of(code), address, words);
  }

  /**
   An accepted update of one of the device's own registers writes the encoded words at
   the register's address in the block of its function code. All other words, blocks
   and slaves are as before.
   */
  lemma UpdateWritesItsWords(m: Modbus, device: DeviceId, r: Register, v: Sample)
    requires Linked(m) && device in m.deviceToSlave && Allocated(SlaveOf(m, device), r)
    requires Encoded(v, r.dataType, r.byteOrder).Ok?
    ensures var after, slave := Stepped(m, Update(device, r, v)), m.deviceToSlave[device];
      var words := Encoded(v, r.dataType, r.byteOrder).value;
      && slave in after.slaves && WritesIn(m.slaves[slave], after.slaves[slave], r.functionCode, r.address, words)
      && forall other: SlaveId :: other != slave ==> Get(after.slaves, other) == Get(m.slaves, other)
  {
    WrittenIn(SlaveOf(m, device), r.functionCode, r.address, Encoded(v, r.dataType, r.byteOrder).value);
  }

  /** An update that is refused changes nothing. */
  lemma RefusedUpdateChangesNothing(m: Modbus, device: DeviceId, r: Register, v: Sample)
    requires Linked(m) && (device !in m.deviceToSlave || Encoded(v, r.dataType, r.byteOrder).Err?)
    ensures Stepped(m, Update(device, r, v)) == m
    ensures UpdateError(m, device, r, v) == Some(
      if device !in m.deviceToSlave then NotRegistered else BadValue(Encoded(v, r.dataType, r.byteOrder).error))
  {
  }
}
