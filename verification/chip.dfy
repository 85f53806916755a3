/**
  A simulated MT6835 behind the transport: a register file of bytes that
  answers reads, writes, the acknowledged commands and the continuous
  read the way the driver expects the chip to. Against it, the driver's
  operations can be followed to their effect on the registers: what a
  setter stores, what a read returns, and that nothing else changes.
 */
module Chip {
  import opened Mt6835
  import opened Crc8
  import opened Transaction
  import opened Angle
  import opened Zero
  import opened Abz

  /** The register file, keyed by address; a register never written reads
      as zero. */
  datatype Device = Device(regs: map<int, bv8>)

  function Get(d: Device, a: bv8): bv8 {
    if a as int in d.regs then d.regs[a as int] else 0
  }

  function Put(d: Device, a: bv8, v: bv8): (d': Device)
    ensures Get(d', a) == v
    ensures forall b | b != a :: Get(d', b) == Get(d, b)
  {
    Device(d.regs[a as int := v])
  }

  /** The registers from `a` on, `n` of them, as the continuous read
      streams them. */
  function Stream(d: Device, a: bv8, n: nat): (s: seq<bv8>)
    ensures |s| == n
    ensures n > 0 ==> s[0] == Get(d, a) && s[1..] == Stream(d, a + 1, n - 1)
    decreases n
  {
    if n == 0 then [] else [Get(d, a)] + Stream(d, a + 1, n - 1)
  }

  /** How the chip answers one transfer: the first two received bytes are
      the echo slots and carry zero; the command nibble of the first sent
      byte selects the answer. */
  function Respond(d: Device, tx: seq<bv8>): (r: (Device, Reply))
    ensures |tx| == 3 && tx[0] >> 4 == CmdCode(CmdRead) as bv8 ==> r == (d, Reply(Ok, [0, 0, Get(d, tx[1])]))
    ensures |tx| == 3 && tx[0] >> 4 == CmdCode(CmdWrite) as bv8 ==> r == (Put(d, tx[1], tx[2]), Reply(Ok, [0, 0, 0]))
  {
    if |tx| < 2 then (d, Reply(Error, []))
    else
      var cmd := tx[0] >> 4;
      if |tx| == 3 && cmd == CmdCode(CmdRead) as bv8 then (d, Reply(Ok, [0, 0, Get(d, tx[1])]))
      else if |tx| == 3 && cmd == CmdCode(CmdWrite) as bv8 then (Put(d, tx[1], tx[2]), Reply(Ok, [0, 0, 0]))
      else if |tx| == 3 && (cmd == CmdCode(CmdZero) as bv8 || cmd == CmdCode(CmdEeprom) as bv8) then
        (d, Reply(Ok, [0, 0, AckByte]))
      else if cmd == CmdCode(CmdContinue) as bv8 then (d, Reply(Ok, [0, 0] + Stream(d, tx[1], |tx| - 2)))
      else (d, Reply(Error, []))
  }

  /** A read returns the register and leaves the chip alone. */
  lemma ReadOnChip(bus: Bus<Device>, reg: bv8, prev: bv8)
    ensures var r := ReadReg(Respond, bus, reg, prev);
            r.status == Ok && r.value == Get(bus.device, reg) && r.bus.device == bus.device
  {
    var tx := ReadTx(bus.handle.frame, reg);
    assert tx[0] >> 4 == CmdCode(CmdRead) as bv8;
  }

  /** A write stores its byte in its register and nowhere else. */
  lemma WriteOnChip(bus: Bus<Device>, reg: bv8, data: bv8)
    ensures var r := WriteReg(Respond, bus, reg, data);
            r.status == Ok && r.bus.device == Put(bus.device, reg, data)
  {
    var tx := WriteTx(bus.handle.frame, reg, data);
    assert tx[0] >> 4 == CmdCode(CmdWrite) as bv8;
  }

  /** Write, then read back: the byte written is the byte read. */
  lemma ReadAfterWrite(bus: Bus<Device>, reg: bv8, data: bv8, prev: bv8)
    ensures var w := WriteReg(Respond, bus, reg, data);
            var r := ReadReg(Respond, w.bus, reg, prev);
            w.status == Ok && r.status == Ok && r.value == data
  {
    WriteOnChip(bus, reg, data);
    ReadOnChip(WriteReg(Respond, bus, reg, data).bus, reg, prev);
  }

  /** The chip acknowledges auto-zero and EEPROM programming. */
  lemma AcknowledgedOnChip(bus: Bus<Device>, c: Cmd)
    requires c == CmdZero || c == CmdEeprom
    ensures var r := Acknowledged(Respond, bus, CmdCode(c));
            r.status == Ok && r.bus.device == bus.device
  {
    var tx := [HeaderByte(CmdCode(c), bus.handle.frame.reserved), 0, 0];
    assert tx[0] >> 4 == CmdCode(c) as bv8;
  }

  /** The zero field: writing position `v` and reading it back returns
      `v`; the low nibble of ZERO1 and every other register are kept. */
  lemma ZeroRoundTrip(bus: Bus<Device>, v: bv16, prev: bv16)
    requires v <= MaxZero
    ensures var w := SetZeroAngle(Respond, bus, v);
            var z1 := Addr(RegZero1);
            var z2 := Addr(RegZero2);
            && w.status == Ok
            && GetRawZeroAngle(Respond, w.bus, prev) == Got(Ok, v, GetRawZeroAngle(Respond, w.bus, prev).bus)
            && Get(w.bus.device, z1) & 0x0F == Get(bus.device, z1) & 0x0F
            && (forall a | a != z1 && a != z2 :: Get(w.bus.device, a) == Get(bus.device, a))
  {
    var z1 := Addr(RegZero1);
    var z2 := Addr(RegZero2);
    var rd := ReadReg(Respond, bus, z1, 0);
    ReadOnChip(bus, z1, 0);
    var (hi, lo) := ZeroFields(v, Get(bus.device, z1));
    var w1 := WriteReg(Respond, rd.bus, z2, hi);
    WriteOnChip(rd.bus, z2, hi);
    var w2 := WriteReg(Respond, w1.bus, z1, lo);
    WriteOnChip(w1.bus, z1, lo);
    assert SetZeroAngle(Respond, bus, v) == w2;
    var g1 := ReadReg(Respond, w2.bus, z2, 0);
    ReadOnChip(w2.bus, z2, 0);
    ReadOnChip(g1.bus, z1, 0);
  }

  /** A single-field setter with an accepted argument stores the merged
      byte in its register and changes no other register; with
      `Abz.MergeOwnsBits`, it changes exactly the bits it owns. */
  lemma SetterOnChip(bus: Bus<Device>, s: Setting, fixed: bool)
    requires InRange(s)
    ensures var r := if fixed then ApplyFixed(Respond, bus, s) else Apply(Respond, bus, s);
            var reg := Addr(Target(s));
            var cur := Get(bus.device, reg);
            && r.status == Ok
            && Get(r.bus.device, reg) == (if fixed then MergeFixed(s, cur) else Merge(s, cur))
            && (forall a | a != reg :: Get(r.bus.device, a) == Get(bus.device, a))
  {
    var reg := Addr(Target(s));
    ReadOnChip(bus, reg, 0);
    var rd := ReadReg(Respond, bus, reg, 0);
    var b := if fixed then MergeFixed(s, rd.value) else Merge(s, rd.value);
    WriteOnChip(rd.bus, reg, b);
  }

  /** The Z phase setter as written leaves UVW bits 7:6 cleared whatever
      phase is asked for, so phases 1..3 do not reach the chip. */
  lemma ZPhaseLostOnChip(bus: Bus<Device>, p: bv8)
    requires 1 <= p <= 3
    ensures var r := SetAbzZPhase(Respond, bus, p);
            r.status == Ok && Get(r.bus.device, Addr(RegUvw)) >> 6 == 0 != p
  {
    SetterOnChip(bus, ZPhase(p), false);
    ZPhaseDiscarded(p, Get(bus.device, Addr(RegUvw)));
  }

  /** The corrected Z phase setter stores the phase in UVW bits 7:6. */
  lemma ZPhaseFixedOnChip(bus: Bus<Device>, p: bv8)
    requires p <= 3
    ensures var r := SetAbzZPhaseFixed(Respond, bus, p);
            r.status == Ok && Get(r.bus.device, Addr(RegUvw)) >> 6 == p
  {
    SetterOnChip(bus, ZPhase(p), true);
  }

  /** The two resolution writes on the chip, in order. */
  lemma ResolutionOnChip(bus: Bus<Device>, res: bv16, fixed: bool)
    requires if fixed then res < 0x4000 else res <= MaxResolution
    ensures var r := WriteResolution(Respond, bus, res, fixed);
            var cur := Get(bus.device, Addr(RegAbzRes1));
            var p := if fixed then ResolutionBytesFixed(res, cur) else ResolutionBytes(res, cur);
            && r.status == Ok
            && Get(r.bus.device, Addr(RegAbzRes2)) == p.0
            && Get(r.bus.device, Addr(RegAbzRes1)) == p.1
            && (forall a | a != Addr(RegAbzRes1) && a != Addr(RegAbzRes2) :: Get(r.bus.device, a) == Get(bus.device, a))
  {
    var rd := ReadReg(Respond, bus, Addr(RegAbzRes1), 0);
    ReadOnChip(bus, Addr(RegAbzRes1), 0);
    var p := if fixed then ResolutionBytesFixed(res, rd.value) else ResolutionBytes(res, rd.value);
    var w1 := WriteReg(Respond, rd.bus, Addr(RegAbzRes2), p.0);
    WriteOnChip(rd.bus, Addr(RegAbzRes2), p.0);
    WriteOnChip(w1.bus, Addr(RegAbzRes1), p.1);
  }

  /** The corrected resolution setter stores every 14-bit resolution so the
      chip reads it back exactly, keeping the enable and swap bits. */
  lemma ResolutionFixedRoundTrip(bus: Bus<Device>, res: bv16)
    requires res < 0x4000
    ensures var r := SetAbzResolutionFixed(Respond, bus, res);
            && r.status == Ok
            && ResolutionValue(Get(r.bus.device, Addr(RegAbzRes2)), Get(r.bus.device, Addr(RegAbzRes1))) == res
            && Get(r.bus.device, Addr(RegAbzRes1)) & 0x03 == Get(bus.device, Addr(RegAbzRes1)) & 0x03
  {
    ResolutionOnChip(bus, res, true);
  }

  /** The resolution setter as written leaves the chip in the same state for
      0x40 as for 0, and the chip reads back 0. */
  lemma ResolutionLostOnChip(bus: Bus<Device>)
    ensures var r1 := SetAbzResolution(Respond, bus, 0x40);
            var r0 := SetAbzResolution(Respond, bus, 0);
            && r1.status == Ok && r0.status == Ok
            && r1.bus.device == r0.bus.device
            && ResolutionValue(Get(r1.bus.device, Addr(RegAbzRes2)), Get(r1.bus.device, Addr(RegAbzRes1))) != 0x40
  {
    ResolutionOnChip(bus, 0x40, false);
    ResolutionOnChip(bus, 0, false);
    ResolutionBitsLost(Get(bus.device, Addr(RegAbzRes1)));
  }

  /** The three data bytes the chip holds in ANGLE3, ANGLE2, ANGLE1. */
  function HeldData(d: Device): seq<bv8> {
    [Get(d, Addr(RegAngle3)), Get(d, Addr(RegAngle2)), Get(d, Addr(RegAngle1))]
  }

  /** NORMAL on the chip fetches the angle registers and, with CRC
      checking, the CRC register. */
  lemma NormalOnChip(bus: Bus<Device>)
    ensures var a := AcquireNormal(Respond, bus);
            && a.status == Ok && a.bus.device == bus.device
            && DataBytes(a.t) == HeldData(bus.device)
            && (bus.handle.enableCrcCheck ==> a.t.crc == Get(bus.device, Addr(RegCrc)))
  {
    var a3 := ReadReg(Respond, bus, Addr(RegAngle3), 0);
    ReadOnChip(bus, Addr(RegAngle3), 0);
    var a2 := ReadReg(Respond, a3.bus, Addr(RegAngle2), 0);
    ReadOnChip(a3.bus, Addr(RegAngle2), 0);
    var a1 := ReadReg(Respond, a2.bus, Addr(RegAngle1), 0);
    ReadOnChip(a2.bus, Addr(RegAngle1), 0);
    var a := ReadAngles(Respond, bus);
    assert a == Acquired(Ok, Telemetry(a3.value, a2.value, a1.value, 0), a1.bus);
    ReadOnChip(a.bus, Addr(RegCrc), 0);
  }

  /** CONTINUE on the chip streams the same registers in one transfer. */
  lemma ContinueOnChip(bus: Bus<Device>)
    ensures var a := AcquireContinue(Respond, bus);
            && a.status == Ok && a.bus.device == bus.device
            && DataBytes(a.t) == HeldData(bus.device)
            && (bus.handle.enableCrcCheck ==> a.t.crc == Get(bus.device, Addr(RegCrc)))
  {
    var f := bus.handle.frame;
    var tx := [HeaderByte(CmdCode(CmdContinue), f.reserved), Addr(RegAngle3)]
              + (if bus.handle.enableCrcCheck then [0, 0, 0, 0] else [0, 0, 0]);
    assert tx[0] >> 4 == CmdCode(CmdContinue) as bv8;
    var rx := Respond(bus.device, tx).1.rx;
    assert rx == [0, 0] + Stream(bus.device, Addr(RegAngle3), |tx| - 2);
    StreamedAngles(bus.device, |tx| - 2);
  }

  /** The continuous read from ANGLE3 streams the angle registers, then the
      CRC register. */
  lemma StreamedAngles(d: Device, n: nat)
    requires n == 3 || n == 4
    ensures var rx := [0, 0] + Stream(d, Addr(RegAngle3), n);
            && ByteAt(rx, 2) == Get(d, Addr(RegAngle3))
            && ByteAt(rx, 3) == Get(d, Addr(RegAngle2))
            && ByteAt(rx, 4) == Get(d, Addr(RegAngle1))
            && (n == 4 ==> ByteAt(rx, 5) == Get(d, Addr(RegCrc)))
  {
    var s := Stream(d, Addr(RegAngle3), n);
    assert s[1..] == Stream(d, Addr(RegAngle2), n - 1);
    assert s[2..] == Stream(d, Addr(RegAngle1), n - 2);
    if n == 4 {
      assert s[3..] == Stream(d, Addr(RegCrc), 1);
    }
  }

  /** Given the same chip, NORMAL and CONTINUE return the same status, raw
      angle, warning flags and CRC result; only the frame and the
      trace they leave differ. */
  lemma StrategiesAgreeOnChip(bus: Bus<Device>, prev: bv32)
    ensures var n := GetRawAngle(Respond, bus, MethodNormal, prev);
            var c := GetRawAngle(Respond, bus, MethodContinue, prev);
            && n.status == c.status && n.value == c.value
            && n.bus.handle.(frame := c.bus.handle.frame) == c.bus.handle
            && n.bus.device == c.bus.device
  {
    NormalOnChip(bus);
    ContinueOnChip(bus);
    var an := Acquire(Respond, bus, MethodNormal);
    var ac := Acquire(Respond, bus, MethodContinue);
    var on := Finish(an.bus.handle, an.t, prev);
    var oc := Finish(ac.bus.handle, ac.t, prev);
    assert GetRawAngle(Respond, bus, MethodNormal, prev) == Got(on.status, on.raw, an.bus.(handle := on.handle));
    assert GetRawAngle(Respond, bus, MethodContinue, prev) == Got(oc.status, oc.raw, ac.bus.(handle := oc.handle));
    FinishDependsOnlyOnChecked(an.bus.handle, ac.bus.handle, an.t, ac.t, prev);
  }

  /** On the chip, either strategy succeeds exactly when CRC checking is
      off or the CRC register matches the data, and then delivers the angle
      and warning flags the data bytes encode. (A method value outside the
      enumeration does not read the chip; see
      `Angle.UnlistedMethodReadsZero`.) */
  lemma AngleOnChip(bus: Bus<Device>, how: ReadMethod, prev: bv32)
    requires how != MethodUnlisted
    ensures var r := GetRawAngle(Respond, bus, how, prev);
            var data := HeldData(bus.device);
            && (r.status == Ok <==> !bus.handle.enableCrcCheck || Crc(data) == Get(bus.device, Addr(RegCrc)))
            && (r.status == Ok ==> r.value == DecodeRaw(data[0], data[1], data[2]) && r.bus.handle.warning == WarningOf(data[2]))
  {
    NormalOnChip(bus);
    ContinueOnChip(bus);
  }

  /** A chip holding the encoding of raw angle `raw` and flags `w`, with a
      consistent CRC register, is read back exactly by either strategy. */
  lemma AngleRoundTrip(bus: Bus<Device>, how: ReadMethod, raw: bv32, w: bv8, prev: bv32)
    requires how != MethodUnlisted
    requires raw < AngleResolution && w <= WarnMask
    requires var b := Encode(raw, w); HeldData(bus.device) == [b.0, b.1, b.2]
    requires bus.handle.enableCrcCheck ==> Crc(HeldData(bus.device)) == Get(bus.device, Addr(RegCrc))
    ensures var r := GetRawAngle(Respond, bus, how, prev);
            r.status == Ok && r.value == raw && r.bus.handle.warning == w
  {
    AngleOnChip(bus, how, prev);
  }
}
