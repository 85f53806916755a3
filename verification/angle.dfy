/**
  Angle acquisition, `nagi_mt6835_get_raw_angle` (Src/nagi_mt6835.c).

  Two strategies fetch the telemetry: NORMAL reads the angle registers one
  by one, CONTINUE streams them in one transfer. Both leave the same 3+1
  byte layout (three data bytes and the CRC byte) for the shared step that
  checks the CRC, records the warning flags and assembles the 21-bit raw
  angle.
 */
module Angle {
  import opened Mt6835
  import opened Crc8
  import opened Transaction

  /** The receive buffer after acquisition: angle bits 20:13, angle bits
      12:5, angle bits 4:0 above the warning flags, and the CRC byte. */
  datatype Telemetry = Telemetry(high: bv8, mid: bv8, low: bv8, crc: bv8)

  const NoTelemetry: Telemetry := Telemetry(0, 0, 0, 0)

  /** The bytes the CRC covers. */
  function DataBytes(t: Telemetry): seq<bv8> {
    [t.high, t.mid, t.low]
  }

  /** The raw angle assembled from the three data bytes. */
  function DecodeRaw(high: bv8, mid: bv8, low: bv8): (r: bv32)
    ensures r < AngleResolution
  {
    ((high as bv32) << 13) | ((mid as bv32) << 5) | ((low >> 3) as bv32)
  }

  /** The warning flags carried by the third data byte. */
  function WarningOf(low: bv8): (w: bv8)
    ensures w <= WarnMask
  {
    low & WarnMask
  }

  /** How the chip lays out a raw angle and warning flags in three bytes. */
  function Encode(r: bv32, w: bv8): (b: (bv8, bv8, bv8))
    requires r < AngleResolution && w <= WarnMask
    ensures DecodeRaw(b.0, b.1, b.2) == r && WarningOf(b.2) == w
  {
    ((r >> 13) as bv8, ((r >> 5) & 0xFF) as bv8, (((r & 0x1F) as bv8) << 3) | w)
  }

  /** Decoding loses nothing: the three bytes are recovered from the raw
      angle and the warning flags. */
  lemma EncodeDecode(high: bv8, mid: bv8, low: bv8)
    ensures Encode(DecodeRaw(high, mid, low), WarningOf(low)) == (high, mid, low)
  {
  }

  /** The outcome of fetching the telemetry. */
  datatype Acquired<S> = Acquired(status: Status, t: Telemetry, bus: Bus<S>)

  /** The first part of NORMAL: ANGLE3, ANGLE2, ANGLE1, one read
      transaction each, stopping at the first failed read with its
      transport status. Received byte 2 of each read fills the data bytes;
      the CRC slot keeps its zero. */
  function ReadAngles<S>(xfer: Transport<S>, bus: Bus<S>): (r: Acquired<S>)
    ensures var tx1 := ReadTx(bus.handle.frame, Addr(RegAngle3));
            var (d1, rep1) := xfer(bus.device, tx1);
            rep1.status != Ok ==> r.status == rep1.status && r.bus.device == d1 && r.bus.trace == bus.trace + Bracket(tx1)
    ensures var tx1 := ReadTx(bus.handle.frame, Addr(RegAngle3));
            var tx2 := ReadTx(bus.handle.frame, Addr(RegAngle2));
            var (d1, rep1) := xfer(bus.device, tx1);
            var (d2, rep2) := xfer(d1, tx2);
            rep1.status == Ok && rep2.status != Ok ==>
              r.status == rep2.status && r.bus.device == d2 && r.bus.trace == bus.trace + Bracket(tx1) + Bracket(tx2)
    ensures var tx1 := ReadTx(bus.handle.frame, Addr(RegAngle3));
            var tx2 := ReadTx(bus.handle.frame, Addr(RegAngle2));
            var tx3 := ReadTx(bus.handle.frame, Addr(RegAngle1));
            var (d1, rep1) := xfer(bus.device, tx1);
            var (d2, rep2) := xfer(d1, tx2);
            var (d3, rep3) := xfer(d2, tx3);
            rep1.status == Ok && rep2.status == Ok ==>
              && r.status == rep3.status && r.bus.device == d3
              && r.bus.trace == bus.trace + Bracket(tx1) + Bracket(tx2) + Bracket(tx3)
              && (r.status == Ok ==> r.t == Telemetry(ByteAt(rep1.rx, 2), ByteAt(rep2.rx, 2), ByteAt(rep3.rx, 2), 0))
    ensures r.bus.handle == bus.handle.(frame := r.bus.handle.frame)
    ensures r.bus.handle.frame.reserved == bus.handle.frame.reserved
    ensures r.bus.handle.frame.data == bus.handle.frame.data
    ensures r.bus.handle.frame.trailing == bus.handle.frame.trailing
  {
    var a3 := ReadReg(xfer, bus, Addr(RegAngle3), 0);
    if a3.status != Ok then Acquired(a3.status, NoTelemetry, a3.bus) else
    var a2 := ReadReg(xfer, a3.bus, Addr(RegAngle2), 0);
    if a2.status != Ok then Acquired(a2.status, NoTelemetry, a2.bus) else
    var a1 := ReadReg(xfer, a2.bus, Addr(RegAngle1), 0);
    if a1.status != Ok then Acquired(a1.status, NoTelemetry, a1.bus)
    else Acquired(Ok, Telemetry(a3.value, a2.value, a1.value, 0), a1.bus)
  }

  /** NORMAL: the three angle reads and, with CRC checking and only after
      they all succeed, a read of the CRC register, whose received byte 2
      becomes the CRC byte and whose transport status is returned. */
  function AcquireNormal<S>(xfer: Transport<S>, bus: Bus<S>): (r: Acquired<S>)
    ensures var a := ReadAngles(xfer, bus);
            !bus.handle.enableCrcCheck || a.status != Ok ==> r == a
    ensures var a := ReadAngles(xfer, bus);
            var tx4 := ReadTx(bus.handle.frame, Addr(RegCrc));
            var (d4, rep4) := xfer(a.bus.device, tx4);
            bus.handle.enableCrcCheck && a.status == Ok ==>
              && r.status == rep4.status && r.bus.device == d4
              && r.bus.trace == a.bus.trace + Bracket(tx4)
              && (r.status == Ok ==> r.t == a.t.(crc := ByteAt(rep4.rx, 2)))
    ensures r.bus.handle == bus.handle.(frame := r.bus.handle.frame)
    ensures r.bus.handle.frame.reserved == bus.handle.frame.reserved
    ensures r.bus.handle.frame.data == bus.handle.frame.data
    ensures r.bus.handle.frame.trailing == bus.handle.frame.trailing
  {
    var a := ReadAngles(xfer, bus);
    if !bus.handle.enableCrcCheck || a.status != Ok then a
    else
      var c := ReadReg(xfer, a.bus, Addr(RegCrc), 0);
      if c.status != Ok then Acquired(c.status, NoTelemetry, c.bus)
      else Acquired(Ok, a.t.(crc := c.value), c.bus)
  }

  /** The bytes CONTINUE sends: the first two bytes of the packed frame,
      then zeros up to the transfer length. */
  function ContinueTx(f: Frame, len: nat): (tx: seq<bv8>)
    requires len >= 2
    ensures |tx| == len
    ensures tx[0] == HeaderByte(f.cmd, f.reserved) && tx[1] == f.reg
    ensures forall i | 2 <= i < len :: tx[i] == 0
  {
    var w := Pack(f);
    FrameLayout(f);
    [(w & 0xFF) as bv8, ((w >> 8) & 0xFF) as bv8] + seq(len - 2, _ => 0)
  }

  /** CONTINUE: one transfer of 6 bytes with CRC checking, 5 without, of
      the continuous-read command addressed at ANGLE3. Received bytes 2..4
      become the data bytes; with CRC checking byte 5 becomes the CRC byte,
      otherwise the CRC slot keeps received byte 3, as the buffer shift
      leaves it. */
  function AcquireContinue<S>(xfer: Transport<S>, bus: Bus<S>): (r: Acquired<S>)
    ensures var f := bus.handle.frame;
            var tx := [HeaderByte(CmdCode(CmdContinue), f.reserved), Addr(RegAngle3)]
                      + (if bus.handle.enableCrcCheck then [0, 0, 0, 0] else [0, 0, 0]);
            var (device, reply) := xfer(bus.device, tx);
            && r.bus.trace == bus.trace + Bracket(tx)
            && r.bus.device == device
            && r.status == reply.status
            && (r.status == Ok ==>
                  && r.t.high == ByteAt(reply.rx, 2)
                  && r.t.mid == ByteAt(reply.rx, 3)
                  && r.t.low == ByteAt(reply.rx, 4)
                  && (bus.handle.enableCrcCheck ==> r.t.crc == ByteAt(reply.rx, 5)))
    ensures r.bus.handle == bus.handle.(frame := bus.handle.frame.(cmd := CmdCode(CmdContinue), reg := Addr(RegAngle3)))
  {
    var withCrc := bus.handle.enableCrcCheck;
    var len := if withCrc then 6 else 5;
    var f := bus.handle.frame.(cmd := CmdCode(CmdContinue), reg := Addr(RegAngle3));
    var tx := ContinueTx(f, len);
    assert tx == [HeaderByte(CmdCode(CmdContinue), f.reserved), Addr(RegAngle3)]
                 + (if withCrc then [0, 0, 0, 0] else [0, 0, 0]);
    var x := Transfer(xfer, bus, f, tx);
    if x.status != Ok then Acquired(x.status, NoTelemetry, x.bus)
    else Acquired(Ok, Telemetry(x.value[2], x.value[3], x.value[4], if withCrc then x.value[5] else x.value[3]), x.bus)
  }

  /** The outcome of the shared post-processing. */
  datatype Outcome = Outcome(status: Status, raw: bv32, handle: Handle)

  /** The shared step: with CRC checking, a CRC mismatch fails with
      CRC_CHECK_FAILED and clears `crc_res`, leaving output and warning
      alone, and a match sets `crc_res`; without CRC checking `crc_res` is
      not touched. Then the warning flags are stored and the raw angle is
      delivered. The CRC is the one `crc_table` computes, which
      `Crc8.CrcOfPrefix` shows equal to `Crc`. */
  function Finish(h: Handle, t: Telemetry, prev: bv32): (r: Outcome)
    ensures h.enableCrcCheck && Crc(DataBytes(t)) != t.crc ==>
              r == Outcome(CrcCheckFailed, prev, h.(crcRes := false))
    ensures h.enableCrcCheck && Crc(DataBytes(t)) == t.crc ==> r.status == Ok && r.handle.crcRes
    ensures !h.enableCrcCheck ==> r.status == Ok && r.handle.crcRes == h.crcRes
    ensures r.status == Ok ==>
              && r.raw < AngleResolution
              && r.handle.warning <= WarnMask
              && Encode(r.raw, r.handle.warning) == (t.high, t.mid, t.low)
    ensures r.status == Ok || r == Outcome(CrcCheckFailed, prev, h.(crcRes := false))
    ensures r.handle == h.(crcRes := r.handle.crcRes, warning := r.handle.warning)
  {
    if h.enableCrcCheck && Crc(DataBytes(t)) != t.crc then
      Outcome(CrcCheckFailed, prev, h.(crcRes := false))
    else
      var h' := if h.enableCrcCheck then h.(crcRes := true) else h;
      EncodeDecode(t.high, t.mid, t.low);
      Outcome(Ok, DecodeRaw(t.high, t.mid, t.low), h'.(warning := WarningOf(t.low)))
  }

  /** Fetches the telemetry by the chosen strategy. Either way only the
      command and register of the frame change. A method value outside the
      enumeration matches no case of the driver's `switch`: nothing is
      transferred and the zero-initialised buffer is used as it is. */
  function Acquire<S>(xfer: Transport<S>, bus: Bus<S>, how: ReadMethod): (r: Acquired<S>)
    ensures how == MethodNormal ==> r == AcquireNormal(xfer, bus)
    ensures how == MethodContinue ==> r == AcquireContinue(xfer, bus)
    ensures how == MethodUnlisted ==> r == Acquired(Ok, NoTelemetry, bus)
    ensures r.bus.handle == bus.handle.(frame := r.bus.handle.frame)
    ensures r.bus.handle.frame.reserved == bus.handle.frame.reserved
    ensures r.bus.handle.frame.data == bus.handle.frame.data
    ensures r.bus.handle.frame.trailing == bus.handle.frame.trailing
  {
    match how
    case MethodNormal => AcquireNormal(xfer, bus)
    case MethodContinue => AcquireContinue(xfer, bus)
    case MethodUnlisted => Acquired(Ok, NoTelemetry, bus)
  }

  /** `nagi_mt6835_get_raw_angle`: acquire by the chosen strategy, returning a
      transport failure unchanged; otherwise finish. On any failure the
      output keeps `prev`. */
  function GetRawAngle<S>(xfer: Transport<S>, bus: Bus<S>, how: ReadMethod, prev: bv32): (r: Got<bv32, S>)
    ensures r.status != Ok ==> r.value == prev && r.bus.handle.warning == bus.handle.warning
    ensures r.status == Ok ==> r.value < AngleResolution && r.bus.handle.warning <= WarnMask
    ensures !bus.handle.enableCrcCheck ==> r.bus.handle.crcRes == bus.handle.crcRes
    ensures WellFormed(bus.handle) ==> WellFormed(r.bus.handle)
    ensures var a := Acquire(xfer, bus, how); r.bus.trace == a.bus.trace && r.bus.device == a.bus.device
    ensures var a := Acquire(xfer, bus, how); a.status != Ok ==> r == Got(a.status, prev, a.bus)
    ensures var a := Acquire(xfer, bus, how); (a.status == Ok ==> r.status == Ok || r.status == CrcCheckFailed)
    ensures var a := Acquire(xfer, bus, how); (r.status == Ok ==> r.value == DecodeRaw(a.t.high, a.t.mid, a.t.low) && r.bus.handle.warning == WarningOf(a.t.low))
    ensures var a := Acquire(xfer, bus, how);
            var o := Finish(a.bus.handle, a.t, prev);
            a.status == Ok ==> r.status == o.status && r.value == o.raw && r.bus.handle == o.handle
    ensures var a := Acquire(xfer, bus, how);
            a.status == Ok && bus.handle.enableCrcCheck ==> (r.status == Ok <==> Crc(DataBytes(a.t)) == a.t.crc)
  {
    var a := Acquire(xfer, bus, how);
    if a.status != Ok then Got(a.status, prev, a.bus)
    else
      var o := Finish(a.bus.handle, a.t, prev);
      Got(o.status, o.raw, a.bus.(handle := o.handle))
  }

  /** A method value outside the enumeration reads nothing, yet succeeds:
      the zeroed buffer carries a CRC that matches (the CRC of three zero
      bytes is zero), so the raw angle 0 and no warning are delivered, and
      with CRC checking `crc_res` is set. */
  lemma UnlistedMethodReadsZero<S>(xfer: Transport<S>, bus: Bus<S>, prev: bv32)
    ensures var r := GetRawAngle(xfer, bus, MethodUnlisted, prev);
            && r.status == Ok && r.value == 0
            && r.bus.trace == bus.trace && r.bus.device == bus.device
            && r.bus.handle.warning == WarnNone
            && r.bus.handle.crcRes == (bus.handle.enableCrcCheck || bus.handle.crcRes)
  {
    assert Crc(DataBytes(NoTelemetry)) == NoTelemetry.crc by {
      CrcSnoc([0, 0], 0);
      CrcSnoc([0], 0);
      CrcSnoc([], 0);
      assert [0, 0] + [0] == DataBytes(NoTelemetry);
    }
  }

  /** The shared step depends on the telemetry only through the three data
      bytes and, with CRC checking, the CRC byte, and on the handle not at
      all through the frame: so telemetry that agrees there decodes
      identically whichever strategy delivered it. */
  lemma FinishDependsOnlyOnChecked(h1: Handle, h2: Handle, t1: Telemetry, t2: Telemetry, prev: bv32)
    requires h1.(frame := h2.frame) == h2
    requires DataBytes(t1) == DataBytes(t2)
    requires h1.enableCrcCheck ==> t1.crc == t2.crc
    ensures var o1 := Finish(h1, t1, prev);
            var o2 := Finish(h2, t2, prev);
            o1.status == o2.status && o1.raw == o2.raw && o1.handle.(frame := h2.frame) == o2.handle
  {
    assert t1.high == t2.high && t1.mid == t2.mid && t1.low == t2.low by {
      assert DataBytes(t1)[0] == DataBytes(t2)[0];
      assert DataBytes(t1)[1] == DataBytes(t2)[1];
      assert DataBytes(t1)[2] == DataBytes(t2)[2];
    }
  }

  /** With CRC checking, telemetry whose data bytes differ from a
      consistent telemetry's in exactly one byte (the CRC byte arriving
      intact) is always caught: the shared step fails with
      CRC_CHECK_FAILED and delivers nothing. */
  lemma CorruptedByteDetected(h: Handle, t: Telemetry, bad: Telemetry, k: nat, v: bv8, prev: bv32)
    requires h.enableCrcCheck && Crc(DataBytes(t)) == t.crc
    requires k < 3 && v != DataBytes(t)[k]
    requires DataBytes(bad) == DataBytes(t)[k := v] && bad.crc == t.crc
    ensures Finish(h, bad, prev) == Outcome(CrcCheckFailed, prev, h.(crcRes := false))
  {
    CrcDetectsByteError(DataBytes(t), k, v);
  }
}
