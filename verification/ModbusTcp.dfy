/**
 The Modbus adapter: slaves with two word blocks each, sized from a device's
 registers, and the device/slave dictionaries around them. The library places a
 register address one position further in its block.
 */
module ModbusTcp {
  import opened Prelude
  import opened Registers
  import opened ProtocolBase
  import opened ModbusEncoding

  type SlaveId = int
  type Block = seq<Word>

  datatype Slave = Slave(holding: Block, input: Block) {
    function Of(code: FunctionCode): Block {
      if code.Holding? then holding else input
    }

    function With(code: FunctionCode, block: Block): Slave {
      if code.Holding? then this.(holding := block) else this.(input := block)
    }
  }

  datatype ModbusError = NotStarted | SlaveTaken(slave: SlaveId) | NotRegistered | BadValue(cause: EncodeError)

  /** Everything the adapter stores. */
  datatype Modbus = Modbus(
    started: bool,
    slaves: map<SlaveId, Slave>,
    deviceToSlave: map<DeviceId, SlaveId>,
    slaveToDevice: map<SlaveId, DeviceId>,
    registers: map<DeviceId, seq<Register>>,
    stats: map<DeviceId, DeviceStats>
  )

  const STOPPED := Modbus(false, map[], map[], map[], map[], map[])

  /** No two devices share a slave, and every device's slave exists. */
  ghost predicate Linked(m: Modbus) {
    && (forall d <- m.deviceToSlave :: m.deviceToSlave[d] in m.slaves)
    && (forall d, e :: d in m.deviceToSlave && e in m.deviceToSlave && d != e ==>
          m.deviceToSlave[d] != m.deviceToSlave[e])
  }

  // --- Blocks ---

  function Max(a: nat, b: nat): nat { if a > b then a else b }

  /** One past the position of a register's last word. */
  function EndOf(r: Register): nat { r.address + WordCount(r.dataType) + 1 }

  function BlockSize(registers: seq<Register>, code: FunctionCode): (size: nat)
    ensures size >= 1
    ensures forall r <- registers :: r.functionCode == code ==> EndOf(r) <= size
  {
    if registers == [] then 1
    else
      var rest := BlockSize(registers[..|registers| - 1], code);
      var last := registers[|registers| - 1];
      assert registers == registers[..|registers| - 1] + [last];
      if last.functionCode == code then Max(rest, EndOf(last)) else rest
  }

  function Zeros(n: nat): (block: Block)
    ensures |block| == n
  {
    seq(n, (i: nat) requires i < n => 0)
  }

  function FreshSlave(registers: seq<Register>): Slave {
    Slave(Zeros(BlockSize(registers, Holding)), Zeros(BlockSize(registers, Input)))
  }

  /** Python's `block[start:start + len(words)] = words`, which may grow the list. */
  function SliceAssign(block: Block, start: nat, words: seq<Word>): Block {
    var from := if start <= |block| then start else |block|;
    var to := if start + |words| <= |block| then start + |words| else |block|;
    block[..from] + words + block[to..]
  }

  function Written(slave: Slave, code: FunctionCode, address: nat, words: seq<Word>): Slave {
    slave.With(code, SliceAssign(slave.Of(code), address + 1, words))
  }

  // --- Operations on the stored state ---

  function AddError(m: Modbus, slave: SlaveId): Option<ModbusError> {
    if !m.started then Some(NotStarted)
    else if slave in m.slaves then Some(SlaveTaken(slave))
    else None
  }

  function Added(m: Modbus, device: DeviceId, slave: SlaveId, registers: seq<Register>): Modbus {
    m.(slaves := m.slaves[slave := FreshSlave(registers)],
       deviceToSlave := m.deviceToSlave[device := slave],
       slaveToDevice := m.slaveToDevice[slave := device],
       registers := m.registers[device := registers],
       stats := m.stats[device := FRESH_STATS])
  }

  lemma AddedLinked(m: Modbus, device: DeviceId, slave: SlaveId, registers: seq<Register>)
    requires Linked(m) && slave !in m.slaves
    ensures Linked(Added(m, device, slave, registers))
  {
  }

  function Removed(m: Modbus, device: DeviceId): Modbus {
    if device !in m.deviceToSlave then m.(stats := m.stats - {device})
    else
      var slave := m.deviceToSlave[device];
      m.(slaves := m.slaves - {slave},
         deviceToSlave := m.deviceToSlave - {device},
         slaveToDevice := m.slaveToDevice - {slave},
         registers := m.registers - {device},
         stats := m.stats - {device})
  }

  function UpdateError(m: Modbus, device: DeviceId, r: Register, v: Sample): Option<ModbusError> {
    if device !in m.deviceToSlave then Some(NotRegistered)
    else
      match Encoded(v, r.dataType, r.byteOrder)
      case Err(cause) => Some(BadValue(cause))
      case Ok(_) => None
  }

  function Updated(m: Modbus, device: DeviceId, r: Register, v: Sample): Modbus
    requires UpdateError(m, device, r, v).None?
    requires m.deviceToSlave[device] in m.slaves
  {
    var slave := m.deviceToSlave[device];
    var words := Encoded(v, r.dataType, r.byteOrder).value;
    m.(slaves := m.slaves[slave := Written(m.slaves[slave], r.functionCode, r.address, words)])
  }

  // --- The adapter ---

  class ModbusTcpAdapter {
    var started: bool
    var slaves: map<SlaveId, Slave>
    var deviceToSlave: map<DeviceId, SlaveId>
    var slaveToDevice: map<SlaveId, DeviceId>
    var registers: map<DeviceId, seq<Register>>
    var stats: map<DeviceId, DeviceStats>

    ghost function View(): Modbus
      reads this
    {
      Modbus(started, slaves, deviceToSlave, slaveToDevice, registers, stats)
    }

    ghost predicate Valid()
      reads this
    {
      Linked(View())
    }

    constructor ()
      ensures Valid() && View() == STOPPED
    {
      started := false;
      slaves, deviceToSlave, slaveToDevice, registers, stats := map[], map[], map[], map[], map[];
    }

    method Start()
      requires Valid()
      modifies this
      ensures Valid() && View() == old(View()).(started := true)
    {
      started := true;
    }

    method Stop()
      modifies this
      ensures Valid() && View() == STOPPED
    {
      started := false;
      slaves, deviceToSlave, slaveToDevice, registers, stats := map[], map[], map[], map[], map[];
    }

    /** The sizing loop of `_do_add_device`. */
    method SizeBlocks(regs: seq<Register>) returns (holdingSize: nat, inputSize: nat)
      ensures holdingSize == BlockSize(regs, Holding) && inputSize == BlockSize(regs, Input)
    {
      holdingSize, inputSize := 1, 1;
      for n := 0 to |regs|
        invariant holdingSize == BlockSize(regs[..n], Holding)
        invariant inputSize == BlockSize(regs[..n], Input)
      {
        assert regs[..n + 1][..n] == regs[..n];
        var end := regs[n].address + WordCount(regs[n].dataType) + 1;
        if regs[n].functionCode.Holding? {
          holdingSize := Max(holdingSize, end);
        } else {
          inputSize := Max(inputSize, end);
        }
      }
      assert regs[..|regs|] == regs;
    }

    /** A refused device leaves everything but its own statistics as it was. */
    method AddDevice(device: DeviceId, slave: SlaveId, regs: seq<Register>) returns (r: Result<(), ModbusError>)
      requires Valid()
      modifies this
      ensures Valid()
      ensures match AddError(old(View()), slave)
        case None => r == Ok(()) && View() == Added(old(View()), device, slave, regs)
        case Some(e) => r == Err(e) && View() == old(View()).(stats := old(stats) - {device})
    {
      ghost var before := View();
      stats := stats[device := FRESH_STATS];
      if !started {
        stats := stats - {device};
        assert stats == before.stats - {device};
        return Err(NotStarted);
      }
      if slave in slaves {
        stats := stats - {device};
        assert stats == before.stats - {device};
        return Err(SlaveTaken(slave));
      }
      var holdingSize, inputSize := SizeBlocks(regs);
      slaves := slaves[slave := Slave(Zeros(holdingSize), Zeros(inputSize))];
      deviceToSlave := deviceToSlave[device := slave];
      slaveToDevice := slaveToDevice[slave := device];
      registers := registers[device := regs];
      AddedLinked(before, device, slave, regs);
      return Ok(());
    }

    method RemoveDevice(device: DeviceId)
      requires Valid()
      modifies this
      ensures Valid() && View() == Removed(old(View()), device)
    {
      if device in deviceToSlave {
        var slave := deviceToSlave[device];
        deviceToSlave := deviceToSlave - {device};
        slaveToDevice := slaveToDevice - {slave};
        slaves := slaves - {slave};
        registers := registers - {device};
      }
      stats := stats - {device};
    }

    method UpdateRegister(device: DeviceId, reg: Register, v: Sample) returns (r: Result<(), ModbusError>)
      requires Valid()
      modifies this
      ensures Valid()
      ensures match UpdateError(old(View()), device, reg, v)
        case None => r == Ok(()) && View() == Updated(old(View()), device, reg, v)
        case Some(e) => r == Err(e) && View() == old(View())
    {
      if device !in deviceToSlave {
        return Err(NotRegistered);
      }
      var slave := deviceToSlave[device];
      var words := EncodeValue(v, reg.dataType, reg.byteOrder);
      if words.Err? {
        return Err(BadValue(words.error));
      }
      slaves := slaves[slave := Written(slaves[slave], reg.functionCode, reg.address, words.value)];
      return Ok(());
    }
  }
}
