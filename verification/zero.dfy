/**
  The zero-angle registers (Src/nagi_mt6835.c): the 12-bit zero position is
  split over ZERO2 (bits 11:4) and the high nibble of ZERO1 (bits 3:0); the
  low nibble of ZERO1 belongs to the ABZ Z-pulse settings and is kept.
  `nagi_mt6835_set_zero_angle` (from the already rounded register value) and
  `nagi_mt6835_set_abz_z_position` write this field the same way;
  `nagi_mt6835_get_raw_zero_angle` reads it back.
 */
module Zero {
  import opened Mt6835
  import opened Transaction

  /** The largest zero position: the field is 12 bits wide. */
  const MaxZero: bv16 := 0xFFF

  /** The zero position held by ZERO2 and ZERO1. */
  function ZeroValue(zero2: bv8, zero1: bv8): (v: bv16)
    ensures v <= MaxZero
    ensures v >> 4 == zero2 as bv16 && v & 0xF == (zero1 >> 4) as bv16
  {
    ((zero2 as bv16) << 4) | ((zero1 >> 4) as bv16)
  }

  /** The bytes written for zero position `v` when ZERO1 currently holds
      `zero1`: ZERO2 first, then ZERO1. They hold `v` exactly and keep the
      low nibble of ZERO1. */
  function ZeroFields(v: bv16, zero1: bv8): (p: (bv8, bv8))
    requires v <= MaxZero
    ensures ZeroValue(p.0, p.1) == v
    ensures p.1 & 0x0F == zero1 & 0x0F
  {
    ((v >> 4) as bv8, (((v & 0x0F) as bv8) << 4) | (zero1 & 0x0F))
  }

  /** Distinct positions give distinct ZERO2/ZERO1 byte pairs. */
  lemma ZeroFieldsInjective(v1: bv16, v2: bv16, zero1: bv8)
    requires v1 <= MaxZero && v2 <= MaxZero
    ensures ZeroFields(v1, zero1) == ZeroFields(v2, zero1) <==> v1 == v2
  {
    if ZeroFields(v1, zero1) == ZeroFields(v2, zero1) {
      assert ZeroValue(ZeroFields(v1, zero1).0, ZeroFields(v1, zero1).1) == v1;
    }
  }

  /** The two writes of the zero field, ZERO2 then ZERO1, stopping at the
      first failure, whose status is returned. */
  function WriteHighLow<S>(xfer: Transport<S>, bus: Bus<S>, hi: bv8, lo: bv8): (r: Res<S>)
    ensures var f := bus.handle.frame;
            var wtx1 := WriteTx(f, Addr(RegZero2), hi);
            var wtx2 := WriteTx(f, Addr(RegZero1), lo);
            var (d1, rep1) := xfer(bus.device, wtx1);
            var (d2, rep2) := xfer(d1, wtx2);
            && (rep1.status != Ok ==> r.status == rep1.status && r.bus.trace == bus.trace + Bracket(wtx1) && r.bus.device == d1)
            && (rep1.status == Ok ==> r.status == rep2.status && r.bus.trace == bus.trace + Bracket(wtx1) + Bracket(wtx2)
                                      && r.bus.device == d2)
    ensures var rep1 := xfer(bus.device, WriteTx(bus.handle.frame, Addr(RegZero2), hi)).1;
            r.bus.handle.frame.data == (if rep1.status != Ok then hi else lo)
    ensures r.bus.handle == bus.handle.(frame := r.bus.handle.frame)
    ensures r.bus.handle.frame.reserved == bus.handle.frame.reserved
    ensures r.bus.handle.frame.trailing == bus.handle.frame.trailing
  {
    var w1 := WriteReg(xfer, bus, Addr(RegZero2), hi);
    if w1.status != Ok then w1 else WriteReg(xfer, w1.bus, Addr(RegZero1), lo)
  }

  /** The shared write of the zero field: read ZERO1, then write ZERO2 and
      ZERO1 with the position and the kept low nibble, stopping at the
      first failure, whose status is returned. */
  function WriteZero<S>(xfer: Transport<S>, bus: Bus<S>, v: bv16): (r: Res<S>)
    requires v <= MaxZero
    ensures var rtx := ReadTx(bus.handle.frame, Addr(RegZero1));
            var (d1, rep1) := xfer(bus.device, rtx);
            && (rep1.status != Ok ==> r.status == rep1.status && r.bus.trace == bus.trace + Bracket(rtx)
                                      && r.bus.device == d1)
            && (rep1.status == Ok ==>
                  var (hi, lo) := ZeroFields(v, ByteAt(rep1.rx, 2));
                  var after := Bus(bus.handle.(frame := bus.handle.frame.(cmd := CmdCode(CmdRead), reg := Addr(RegZero1))),
                                   d1, bus.trace + Bracket(rtx));
                  r == WriteHighLow(xfer, after, hi, lo))
    ensures xfer(bus.device, ReadTx(bus.handle.frame, Addr(RegZero1))).1.status != Ok ==>
              r.bus.handle.frame.data == bus.handle.frame.data
    ensures r.bus.handle == bus.handle.(frame := r.bus.handle.frame)
    ensures r.bus.handle.frame.reserved == bus.handle.frame.reserved
    ensures r.bus.handle.frame.trailing == bus.handle.frame.trailing
  {
    var rd := ReadReg(xfer, bus, Addr(RegZero1), 0);
    if rd.status != Ok then Res(rd.status, rd.bus)
    else
      var (hi, lo) := ZeroFields(v, rd.value);
      WriteHighLow(xfer, rd.bus, hi, lo)
  }

  /** `nagi_mt6835_set_zero_angle`, from the rounded register value: a value
      above 0xFFF is rejected before any transaction; otherwise the zero
      field is written. */
  function SetZeroAngle<S>(xfer: Transport<S>, bus: Bus<S>, angle: bv16): (r: Res<S>)
    ensures angle > MaxZero ==> r == Res(InvalidArgument, bus)
    ensures angle <= MaxZero ==> r == WriteZero(xfer, bus, angle)
    ensures WellFormed(bus.handle) ==> WellFormed(r.bus.handle)
  {
    if angle > MaxZero then Res(InvalidArgument, bus) else WriteZero(xfer, bus, angle)
  }

  /** `nagi_mt6835_get_raw_zero_angle`: read ZERO2, then ZERO1, stopping at
      the first failure; on success the zero position they hold. */
  function GetRawZeroAngle<S>(xfer: Transport<S>, bus: Bus<S>, prev: bv16): (r: Got<bv16, S>)
    ensures var f := bus.handle.frame;
            var tx1 := ReadTx(f, Addr(RegZero2));
            var tx2 := ReadTx(f, Addr(RegZero1));
            var (d1, rep1) := xfer(bus.device, tx1);
            var (d2, rep2) := xfer(d1, tx2);
            && (rep1.status != Ok ==> r == Got(rep1.status, prev, r.bus) && r.bus.device == d1
                                      && r.bus.trace == bus.trace + Bracket(tx1))
            && (rep1.status == Ok ==> r.bus.trace == bus.trace + Bracket(tx1) + Bracket(tx2) && r.bus.device == d2
                                      && r.status == rep2.status)
            && (rep1.status == Ok && rep2.status != Ok ==> r.value == prev)
            && (rep1.status == Ok && rep2.status == Ok ==> r.value == ZeroValue(ByteAt(rep1.rx, 2), ByteAt(rep2.rx, 2)))
    ensures r.status == Ok ==> r.value <= MaxZero
    ensures r.bus.handle.frame.data == bus.handle.frame.data
    ensures r.bus.handle == bus.handle.(frame := r.bus.handle.frame)
    ensures r.bus.handle.frame.reserved == bus.handle.frame.reserved
    ensures r.bus.handle.frame.trailing == bus.handle.frame.trailing
  {
    var hi := ReadReg(xfer, bus, Addr(RegZero2), 0);
    if hi.status != Ok then Got(hi.status, prev, hi.bus)
    else
      var lo := ReadReg(xfer, hi.bus, Addr(RegZero1), 0);
      if lo.status != Ok then Got(lo.status, prev, lo.bus)
      else Got(Ok, ZeroValue(hi.value, lo.value), lo.bus)
  }
}
