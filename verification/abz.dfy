/**
  The ABZ/UVW output settings (Src/nagi_mt6835.c): read-modify-write
  updates of single register fields. Each single-register setter reads its
  register, replaces the bits it owns and writes the byte back; a failed
  read stops it before any write. The resolution setter spans ABZ_RES2 and
  ABZ_RES1, and the Z position shares the zero field.

  Two setters, as written, do not store what their argument asks for (see
  `ZPhaseDiscarded` and `ResolutionBitsLost`); corrected variants are given
  next to them.
 */
module Abz {
  import opened Mt6835
  import opened Transaction
  import opened Zero

  /** A single-register setting with its argument. */
  datatype Setting =
    | OutputEnable(enable: bool)
    | AbSwap(swap: bool)
    | ZEdgeUp(up: bool)
    | ZPulseWidth(width: bv8)
    | ZPhase(phase: bv8)

  /** The numeric argument of a setting; the boolean ones have none. */
  function Arg(s: Setting): bv8 {
    match s
    case ZPulseWidth(w) => w
    case ZPhase(p) => p
    case _ => 0
  }

  /** The largest numeric argument a setter accepts. */
  function Limit(s: Setting): bv8 {
    match s
    case ZPulseWidth(_) => 7
    case ZPhase(_) => 3
    case _ => 0xFF
  }

  /** The arguments the setters accept; others are INVALID_ARGUMENT. */
  predicate InRange(s: Setting) {
    Arg(s) <= Limit(s)
  }

  /** The register a setting lives in. */
  function Target(s: Setting): Reg {
    match s
    case OutputEnable(_) => RegAbzRes1
    case AbSwap(_) => RegAbzRes1
    case ZEdgeUp(_) => RegZero1
    case ZPulseWidth(_) => RegZero1
    case ZPhase(_) => RegUvw
  }

  /** The bits of its register a setting owns. */
  function Owned(s: Setting): bv8 {
    match s
    case OutputEnable(_) => 0x02
    case AbSwap(_) => 0x01
    case ZEdgeUp(_) => 0x08
    case ZPulseWidth(_) => 0x07
    case ZPhase(_) => 0xC0
  }

  /** The owned bits as the argument asks for them. */
  function Wanted(s: Setting): bv8 {
    match s
    case OutputEnable(e) => if e then 0x02 else 0
    case AbSwap(w) => if w then 0x01 else 0
    case ZEdgeUp(u) => if u then 0x08 else 0
    case ZPulseWidth(w) => w & 0x07
    case ZPhase(p) => (p << 6) & 0xC0
  }

  /** The byte the setter writes back when the register read `cur`, as the
      driver computes it. */
  function Merge(s: Setting, cur: bv8): (b: bv8)
    ensures b & !Owned(s) == cur & !Owned(s)
  {
    match s
    case OutputEnable(e) => if e then cur | 0x02 else cur & 0xFD
    case AbSwap(w) => if w then cur | 0x01 else cur & 0xFE
    case ZEdgeUp(u) => if u then cur | 0x08 else cur & 0xF7
    case ZPulseWidth(w) => (cur & 0xF8) | (w & 0x07)
    case ZPhase(p) => (cur & 0x3F) | (p & 0xC0)
  }

  /** Every setting but the Z phase stores exactly what it asks for. */
  lemma MergeStoresWanted(s: Setting, cur: bv8)
    requires InRange(s) && !s.ZPhase?
    ensures Merge(s, cur) & Owned(s) == Wanted(s)
    ensures Merge(s, cur) == (cur & !Owned(s)) | Wanted(s)
  {
  }

  /** The Z phase as written: for every accepted phase the owned bits are
      cleared, so phases 1, 2 and 3 are stored as 0. */
  lemma ZPhaseDiscarded(p: bv8, cur: bv8)
    requires p <= 3
    ensures Merge(ZPhase(p), cur) == cur & 0x3F
    ensures p != 0 ==> Merge(ZPhase(p), cur) & Owned(ZPhase(p)) != Wanted(ZPhase(p))
  {
  }

  /** The Z phase merge as evidently intended: the phase moved to bits 7:6. */
  function MergeFixed(s: Setting, cur: bv8): (b: bv8)
    ensures InRange(s) ==> b & Owned(s) == Wanted(s)
    ensures b & !Owned(s) == cur & !Owned(s)
  {
    if s.ZPhase? then PhaseFixed(s.phase, cur)
    else MergeStoresWantedAll(s, cur); Merge(s, cur)
  }

  /** UVW with bits 7:6 replaced by the phase. */
  function PhaseFixed(p: bv8, cur: bv8): (b: bv8)
    ensures b & 0x3F == cur & 0x3F
    ensures b & 0xC0 == (p << 6) & 0xC0
    ensures p <= 3 ==> b >> 6 == p
  {
    (cur & 0x3F) | ((p & 0x03) << 6)
  }

  /** `MergeStoresWanted` for every in-range setting other than the phase. */
  lemma MergeStoresWantedAll(s: Setting, cur: bv8)
    requires !s.ZPhase?
    ensures InRange(s) ==> Merge(s, cur) & Owned(s) == Wanted(s)
  {
    if InRange(s) {
      MergeStoresWanted(s, cur);
    }
  }

  /** The byte written back replaces exactly the owned bits by what the
      argument asks for: as written for every setting but the Z phase, and
      in the corrected form for all of them. */
  lemma MergeOwnsBits(s: Setting, cur: bv8, fixed: bool)
    requires InRange(s) && (s.ZPhase? ==> fixed)
    ensures var b := if fixed then MergeFixed(s, cur) else Merge(s, cur);
            b & Owned(s) == Wanted(s) && b & !Owned(s) == cur & !Owned(s)
  {
    if !fixed {
      MergeStoresWanted(s, cur);
    }
  }

  /** The read-modify-write of one setting with merge `fixed` chosen: read
      the target register, then write back the merged byte; a failed read
      returns its status with no write. */
  function Update<S>(xfer: Transport<S>, bus: Bus<S>, s: Setting, fixed: bool): (r: Res<S>)
    ensures var reg := Addr(Target(s));
            var rtx := ReadTx(bus.handle.frame, reg);
            var (d1, rep1) := xfer(bus.device, rtx);
            && (rep1.status != Ok ==> r.status == rep1.status && r.bus.trace == bus.trace + Bracket(rtx)
                                      && r.bus.device == d1)
            && (rep1.status == Ok ==>
                  var cur := ByteAt(rep1.rx, 2);
                  var b := if fixed then MergeFixed(s, cur) else Merge(s, cur);
                  var wtx := WriteTx(bus.handle.frame, reg, b);
                  var (d2, rep2) := xfer(d1, wtx);
                  && r.status == rep2.status && r.bus.trace == bus.trace + Bracket(rtx) + Bracket(wtx)
                  && r.bus.device == d2
                  && r.bus.handle.frame.data == b)
    ensures xfer(bus.device, ReadTx(bus.handle.frame, Addr(Target(s)))).1.status != Ok ==>
              r.bus.handle.frame.data == bus.handle.frame.data
    ensures r.bus.handle == bus.handle.(frame := r.bus.handle.frame)
    ensures r.bus.handle.frame.reserved == bus.handle.frame.reserved
    ensures r.bus.handle.frame.trailing == bus.handle.frame.trailing
  {
    var rd := ReadReg(xfer, bus, Addr(Target(s)), 0);
    if rd.status != Ok then Res(rd.status, rd.bus)
    else
      var b := if fixed then MergeFixed(s, rd.value) else Merge(s, rd.value);
      WriteReg(xfer, rd.bus, Addr(Target(s)), b)
  }

  /** A setter as the driver runs it: an out-of-range argument is rejected
      before any transaction, otherwise one read-modify-write. */
  function Apply<S>(xfer: Transport<S>, bus: Bus<S>, s: Setting): (r: Res<S>)
    ensures !InRange(s) ==> r == Res(InvalidArgument, bus)
    ensures InRange(s) ==> r == Update(xfer, bus, s, false)
    ensures WellFormed(bus.handle) ==> WellFormed(r.bus.handle)
  {
    if !InRange(s) then Res(InvalidArgument, bus) else Update(xfer, bus, s, false)
  }

  /** `Apply` with the corrected Z phase merge. */
  function ApplyFixed<S>(xfer: Transport<S>, bus: Bus<S>, s: Setting): (r: Res<S>)
    ensures !InRange(s) ==> r == Res(InvalidArgument, bus)
    ensures InRange(s) ==> r == Update(xfer, bus, s, true)
    ensures InRange(s) && !s.ZPhase? ==> r == Apply(xfer, bus, s)
    ensures WellFormed(bus.handle) ==> WellFormed(r.bus.handle)
  {
    if !InRange(s) then Res(InvalidArgument, bus) else Update(xfer, bus, s, true)
  }

  /** `nagi_mt6835_enable_abz_output`: ABZ_RES1 bit 1. */
  function EnableAbzOutput<S>(xfer: Transport<S>, bus: Bus<S>, enable: bool): (r: Res<S>)
    ensures r == Apply(xfer, bus, OutputEnable(enable))
    ensures r.status == Ok ==> r.bus.handle.frame.reg == Addr(RegAbzRes1)
                               && (r.bus.handle.frame.data & 0x02 != 0 <==> enable)
  {
    Apply(xfer, bus, OutputEnable(enable))
  }

  /** `nagi_mt6835_set_abz_ab_swap`: ABZ_RES1 bit 0. */
  function SetAbzAbSwap<S>(xfer: Transport<S>, bus: Bus<S>, swap: bool): (r: Res<S>)
    ensures r == Apply(xfer, bus, AbSwap(swap))
    ensures r.status == Ok ==> r.bus.handle.frame.reg == Addr(RegAbzRes1)
                               && (r.bus.handle.frame.data & 0x01 != 0 <==> swap)
  {
    Apply(xfer, bus, AbSwap(swap))
  }

  /** `nagi_mt6835_set_abz_z_edge_up`: ZERO1 bit 3. */
  function SetAbzZEdgeUp<S>(xfer: Transport<S>, bus: Bus<S>, up: bool): (r: Res<S>)
    ensures r == Apply(xfer, bus, ZEdgeUp(up))
    ensures r.status == Ok ==> r.bus.handle.frame.reg == Addr(RegZero1)
                               && (r.bus.handle.frame.data & 0x08 != 0 <==> up)
  {
    Apply(xfer, bus, ZEdgeUp(up))
  }

  /** `nagi_mt6835_set_abz_z_pulse_width`: ZERO1 bits 2:0; widths above 7
      are rejected. */
  function SetAbzZPulseWidth<S>(xfer: Transport<S>, bus: Bus<S>, width: bv8): (r: Res<S>)
    ensures r == Apply(xfer, bus, ZPulseWidth(width))
    ensures width > 7 ==> r == Res(InvalidArgument, bus)
    ensures r.status == Ok ==> r.bus.handle.frame.reg == Addr(RegZero1) && r.bus.handle.frame.data & 0x07 == width
  {
    Apply(xfer, bus, ZPulseWidth(width))
  }

  /** `nagi_mt6835_set_abz_z_phase`, as written: phases above 3 are
      rejected, and an accepted phase writes UVW with bits 7:6 cleared. */
  function SetAbzZPhase<S>(xfer: Transport<S>, bus: Bus<S>, phase: bv8): (r: Res<S>)
    ensures r == Apply(xfer, bus, ZPhase(phase))
    ensures phase > 3 ==> r == Res(InvalidArgument, bus)
    ensures r.status == Ok ==> r.bus.handle.frame.reg == Addr(RegUvw) && r.bus.handle.frame.data & 0xC0 == 0
  {
    Apply(xfer, bus, ZPhase(phase))
  }

  /** The Z phase setter as evidently intended: UVW bits 7:6 become the
      phase. */
  function SetAbzZPhaseFixed<S>(xfer: Transport<S>, bus: Bus<S>, phase: bv8): (r: Res<S>)
    ensures r == ApplyFixed(xfer, bus, ZPhase(phase))
    ensures phase > 3 ==> r == Res(InvalidArgument, bus)
    ensures r.status == Ok ==> r.bus.handle.frame.reg == Addr(RegUvw) && r.bus.handle.frame.data >> 6 == phase
  {
    ApplyFixed(xfer, bus, ZPhase(phase))
  }

  /** The largest resolution argument accepted. */
  const MaxResolution: bv16 := 16384

  /** The ABZ_RES2 byte and the merged ABZ_RES1 byte the resolution setter
      writes, as the driver computes them from `res` and the ABZ_RES1 value
      `res1`: the high byte goes to ABZ_RES2, the low six bits to ABZ_RES1
      bits 7:2, and the output-enable and swap bits are kept. */
  function ResolutionBytes(res: bv16, res1: bv8): (p: (bv8, bv8))
    requires res <= MaxResolution
    ensures p.0 == (res >> 8) as bv8
    ensures p.1 & 0x03 == res1 & 0x03
    ensures p.1 >> 2 == (res & 0x3F) as bv8
  {
    ((res >> 8) as bv8, (res1 & 0x03) | (((res & 0x3F) as bv8) << 2))
  }

  /** The resolution the chip reads from ABZ_RES2 and ABZ_RES1 bits 7:2: a
      14-bit field. */
  function ResolutionValue(res2: bv8, res1: bv8): (v: bv16)
    ensures v < 0x4000
    ensures v >> 6 == res2 as bv16 && v & 0x3F == (res1 >> 2) as bv16
  {
    ((res2 as bv16) << 6) | ((res1 >> 2) as bv16)
  }

  /** As written, bits 7:6 of the resolution land nowhere: resolutions that
      differ only there are written identically, so 0x40 reads back as 0. */
  lemma ResolutionBitsLost(res1: bv8)
    ensures ResolutionBytes(0x40, res1) == ResolutionBytes(0, res1)
    ensures var p := ResolutionBytes(0x40, res1); ResolutionValue(p.0, p.1) == 0
  {
  }

  /** The same loss for every accepted resolution: clearing bits 7:6 of the
      argument changes nothing the driver writes. */
  lemma ResolutionIgnoresBits76(res: bv16, res1: bv8)
    requires res <= MaxResolution
    ensures res & 0xFF3F <= MaxResolution
    ensures ResolutionBytes(res, res1) == ResolutionBytes(res & 0xFF3F, res1)
  {
  }

  /** The resolution bytes as evidently intended: ABZ_RES2 takes bits 13:6,
      so every 14-bit resolution is stored exactly. */
  function ResolutionBytesFixed(res: bv16, res1: bv8): (p: (bv8, bv8))
    requires res < 0x4000
    ensures ResolutionValue(p.0, p.1) == res
    ensures p.1 & 0x03 == res1 & 0x03
  {
    ((res >> 6) as bv8, (res1 & 0x03) | (((res & 0x3F) as bv8) << 2))
  }

  /** The three transactions of the resolution setter, given how the bytes
      are computed: read ABZ_RES1, write ABZ_RES2, write ABZ_RES1,
      stopping at the first failure. */
  function WriteResolution<S>(xfer: Transport<S>, bus: Bus<S>, res: bv16, fixed: bool): (r: Res<S>)
    requires if fixed then res < 0x4000 else res <= MaxResolution
    ensures var rtx := ReadTx(bus.handle.frame, Addr(RegAbzRes1));
            var (d1, rep1) := xfer(bus.device, rtx);
            && (rep1.status != Ok ==> r.status == rep1.status && r.bus.trace == bus.trace + Bracket(rtx)
                                      && r.bus.device == d1)
            && (rep1.status == Ok ==>
                  var cur := ByteAt(rep1.rx, 2);
                  var p := if fixed then ResolutionBytesFixed(res, cur) else ResolutionBytes(res, cur);
                  var f := bus.handle.frame;
                  var wtx1 := WriteTx(f, Addr(RegAbzRes2), p.0);
                  var wtx2 := WriteTx(f, Addr(RegAbzRes1), p.1);
                  var (d2, rep2) := xfer(d1, wtx1);
                  var (d3, rep3) := xfer(d2, wtx2);
                  && (rep2.status != Ok ==> r.status == rep2.status && r.bus.device == d2
                                            && r.bus.trace == bus.trace + Bracket(rtx) + Bracket(wtx1))
                  && (rep2.status == Ok ==> r.status == rep3.status && r.bus.device == d3
                                            && r.bus.trace == bus.trace + Bracket(rtx) + Bracket(wtx1) + Bracket(wtx2)))
    ensures var rtx := ReadTx(bus.handle.frame, Addr(RegAbzRes1));
            var (d1, rep1) := xfer(bus.device, rtx);
            && (rep1.status != Ok ==> r.bus.handle.frame.data == bus.handle.frame.data)
            && (rep1.status == Ok ==>
                  var cur := ByteAt(rep1.rx, 2);
                  var p := if fixed then ResolutionBytesFixed(res, cur) else ResolutionBytes(res, cur);
                  var rep2 := xfer(d1, WriteTx(bus.handle.frame, Addr(RegAbzRes2), p.0)).1;
                  r.bus.handle.frame.data == (if rep2.status != Ok then p.0 else p.1))
    ensures r.bus.handle == bus.handle.(frame := r.bus.handle.frame)
    ensures r.bus.handle.frame.reserved == bus.handle.frame.reserved
    ensures r.bus.handle.frame.trailing == bus.handle.frame.trailing
  {
    var rd := ReadReg(xfer, bus, Addr(RegAbzRes1), 0);
    if rd.status != Ok then Res(rd.status, rd.bus)
    else
      var p := if fixed then ResolutionBytesFixed(res, rd.value) else ResolutionBytes(res, rd.value);
      var w1 := WriteReg(xfer, rd.bus, Addr(RegAbzRes2), p.0);
      if w1.status != Ok then w1
      else WriteReg(xfer, w1.bus, Addr(RegAbzRes1), p.1)
  }

  /** `nagi_mt6835_set_abz_resolution`, as written: resolutions above 16384
      are rejected before any transaction. */
  function SetAbzResolution<S>(xfer: Transport<S>, bus: Bus<S>, res: bv16): (r: Res<S>)
    ensures res > MaxResolution ==> r == Res(InvalidArgument, bus)
    ensures res <= MaxResolution ==> r == WriteResolution(xfer, bus, res, false)
    ensures WellFormed(bus.handle) ==> WellFormed(r.bus.handle)
  {
    if res > MaxResolution then Res(InvalidArgument, bus) else WriteResolution(xfer, bus, res, false)
  }

  /** The resolution setter corrected: ABZ_RES2 takes bits 13:6. The range
      is narrowed to 0..16383, the values the 14-bit field can hold; this is
      a reading of the field width, since the driver's own guard accepts
      16384. */
  function SetAbzResolutionFixed<S>(xfer: Transport<S>, bus: Bus<S>, res: bv16): (r: Res<S>)
    ensures res >= 0x4000 ==> r == Res(InvalidArgument, bus)
    ensures res < 0x4000 ==> r == WriteResolution(xfer, bus, res, true)
    ensures WellFormed(bus.handle) ==> WellFormed(r.bus.handle)
  {
    if res >= 0x4000 then Res(InvalidArgument, bus) else WriteResolution(xfer, bus, res, true)
  }

  /** `nagi_mt6835_set_abz_z_position`: positions above 4095 are rejected;
      otherwise the same zero field as the zero angle is written. */
  function SetAbzZPosition<S>(xfer: Transport<S>, bus: Bus<S>, pos: bv16): (r: Res<S>)
    ensures pos > 4095 ==> r == Res(InvalidArgument, bus)
    ensures pos <= 4095 ==> r == WriteZero(xfer, bus, pos)
    ensures WellFormed(bus.handle) ==> WellFormed(r.bus.handle)
  {
    if pos > 4095 then Res(InvalidArgument, bus) else WriteZero(xfer, bus, pos)
  }

  /** The Z position and the zero angle are one register field: the two
      setters behave identically on every argument. */
  lemma ZPositionIsZeroAngle<S>(xfer: Transport<S>, bus: Bus<S>, v: bv16)
    ensures SetAbzZPosition(xfer, bus, v) == SetZeroAngle(xfer, bus, v)
  {
  }
}
