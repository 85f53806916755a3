/**
  The remaining public entry points of the driver (Src/nagi_mt6835.c):
  initialisation, the custom ID, the acknowledged commands and the raw
  register access wrappers.
 */
module Driver {
  import opened Mt6835
  import opened Transaction

  /** `nagi_mt6835_init`: a configuration missing any of the three
      callbacks is rejected and the handle is left as it was; otherwise the
      CRC option is copied, the frame word is cleared and the CRC result and
      warning are reset. */
  function Init(h: Handle, cfg: Config): (r: (Status, Handle))
    ensures !(cfg.hasChipSelect && cfg.hasReadWrite && cfg.hasDelay) <==> r.0 == InvalidArgument
    ensures r.0 == InvalidArgument ==> r.1 == h
    ensures r.0 != InvalidArgument ==> r.0 == Ok && WellFormed(r.1)
    ensures r.0 == Ok ==> && r.1.enableCrcCheck == cfg.enableCrcCheck
                          && Pack(r.1.frame) == 0
                          && !r.1.crcRes
                          && r.1.warning == WarnNone
  {
    if !(cfg.hasChipSelect && cfg.hasReadWrite && cfg.hasDelay) then (InvalidArgument, h)
    else (Ok, Handle(cfg.enableCrcCheck, Unpack(0), false, WarnNone))
  }

  /** `nagi_mt6835_set_id`: one write of the ID register. */
  function SetId<S>(xfer: Transport<S>, bus: Bus<S>, id: bv8): (r: Res<S>)
    ensures r == WriteReg(xfer, bus, Addr(RegId), id)
    ensures var tx := WriteTx(bus.handle.frame, Addr(RegId), id);
            && r.status == xfer(bus.device, tx).1.status
            && r.bus.trace == bus.trace + Bracket(tx)
            && r.bus.handle.frame.data == id
    ensures WellFormed(bus.handle) ==> WellFormed(r.bus.handle)
  {
    WriteReg(xfer, bus, Addr(RegId), id)
  }

  /** `nagi_mt6835_get_id`: one read of the ID register. */
  function GetId<S>(xfer: Transport<S>, bus: Bus<S>, prev: bv8): (r: Got<bv8, S>)
    ensures r == ReadReg(xfer, bus, Addr(RegId), prev)
    ensures var tx := ReadTx(bus.handle.frame, Addr(RegId));
            var reply := xfer(bus.device, tx).1;
            && r.status == reply.status
            && r.bus.trace == bus.trace + Bracket(tx)
            && r.value == (if reply.status == Ok then ByteAt(reply.rx, 2) else prev)
    ensures WellFormed(bus.handle) ==> WellFormed(r.bus.handle)
  {
    ReadReg(xfer, bus, Addr(RegId), prev)
  }

  /** `nagi_mt6835_auto_zero_angle`: the zero command, acknowledged. */
  function AutoZeroAngle<S>(xfer: Transport<S>, bus: Bus<S>): (r: Res<S>)
    ensures r == Acknowledged(xfer, bus, CmdCode(CmdZero))
    ensures var tx := [HeaderByte(CmdCode(CmdZero), bus.handle.frame.reserved), 0, 0];
            var (device, reply) := xfer(bus.device, tx);
            && r.bus.trace == bus.trace + Bracket(tx)
            && r.bus.device == device
            && (r.status == Ok <==> reply.status == Ok && ByteAt(reply.rx, 2) == AckByte)
            && (ByteAt(reply.rx, 2) != AckByte ==> r.status == Error)
            && (ByteAt(reply.rx, 2) == AckByte ==> r.status == reply.status)
    ensures r.bus.handle.frame == bus.handle.frame.(cmd := CmdCode(CmdZero), reg := 0, data := 0)
    ensures WellFormed(bus.handle) ==> WellFormed(r.bus.handle)
  {
    Acknowledged(xfer, bus, CmdCode(CmdZero))
  }

  /** `nagi_mt6835_program_eeprom`: the EEPROM command, acknowledged. */
  function ProgramEeprom<S>(xfer: Transport<S>, bus: Bus<S>): (r: Res<S>)
    ensures r == Acknowledged(xfer, bus, CmdCode(CmdEeprom))
    ensures var tx := [HeaderByte(CmdCode(CmdEeprom), bus.handle.frame.reserved), 0, 0];
            var (device, reply) := xfer(bus.device, tx);
            && r.bus.trace == bus.trace + Bracket(tx)
            && r.bus.device == device
            && (r.status == Ok <==> reply.status == Ok && ByteAt(reply.rx, 2) == AckByte)
            && (ByteAt(reply.rx, 2) != AckByte ==> r.status == Error)
            && (ByteAt(reply.rx, 2) == AckByte ==> r.status == reply.status)
    ensures r.bus.handle.frame == bus.handle.frame.(cmd := CmdCode(CmdEeprom), reg := 0, data := 0)
    ensures WellFormed(bus.handle) ==> WellFormed(r.bus.handle)
  {
    Acknowledged(xfer, bus, CmdCode(CmdEeprom))
  }

  /** The two acknowledged commands differ only in the command nibble. */
  lemma AcknowledgedCommandsDiffer<S>(xfer: Transport<S>, bus: Bus<S>)
    ensures AutoZeroAngle(xfer, bus).bus.trace != ProgramEeprom(xfer, bus).bus.trace
  {
    var t1 := AutoZeroAngle(xfer, bus).bus.trace;
    var t2 := ProgramEeprom(xfer, bus).bus.trace;
    assert t1[|bus.trace| + 2] != t2[|bus.trace| + 2] by {
      var h1 := HeaderByte(CmdCode(CmdZero), bus.handle.frame.reserved);
      var h2 := HeaderByte(CmdCode(CmdEeprom), bus.handle.frame.reserved);
      assert h1 >> 4 != h2 >> 4;
    }
  }

  /** `nagi_mt6835_read_reg`: a single read of any register address,
      named or not. */
  function ReadRegister<S>(xfer: Transport<S>, bus: Bus<S>, reg: bv8, prev: bv8): (r: Got<bv8, S>)
    ensures r == ReadReg(xfer, bus, reg, prev)
    ensures r.status != Ok ==> r.value == prev
    ensures WellFormed(bus.handle) ==> WellFormed(r.bus.handle)
  {
    ReadReg(xfer, bus, reg, prev)
  }

  /** `nagi_mt6835_write_reg`: a single write of any register address,
      named or not. */
  function WriteRegister<S>(xfer: Transport<S>, bus: Bus<S>, reg: bv8, data: bv8): (r: Res<S>)
    ensures r == WriteReg(xfer, bus, reg, data)
    ensures r.bus.handle.frame.data == data && r.bus.handle.frame.reg == reg
    ensures WellFormed(bus.handle) ==> WellFormed(r.bus.handle)
  {
    WriteReg(xfer, bus, reg, data)
  }
}
