/**
  Types and constants of the MT6835 magnetic angle sensor driver interface:
  status codes, command and register codes, warning flags, the read-angle
  strategies, the four-byte command frame, and the configuration and handle
  records (Inc/nagi_mt6835.h).

  Widths follow the C declarations: bytes are `bv8`, the command nibble and
  the reserved nibble are `bv4`, the packed frame and the raw angle are `bv32`.
 */
module Mt6835 {

  /** A driver status. The six driver codes are named below; any other value
      is a transport status that the driver forwards unchanged. */
  type Status = int

  const Ok: Status := 0
  const Error: Status := 1
  const HandleNull: Status := 2
  const PointerNull: Status := 3
  const InvalidArgument: Status := 4
  const CrcCheckFailed: Status := 5

  /** The command nibble of a frame. */
  datatype Cmd = CmdRead | CmdWrite | CmdEeprom | CmdZero | CmdContinue

  function CmdCode(c: Cmd): bv4 {
    match c
    case CmdRead => 0x3
    case CmdWrite => 0x6
    case CmdEeprom => 0xC
    case CmdZero => 0x5
    case CmdContinue => 0xA
  }

  /** The named registers of the sensor. */
  datatype Reg =
    | RegId | RegAngle3 | RegAngle2 | RegAngle1 | RegCrc
    | RegAbzRes2 | RegAbzRes1 | RegZero2 | RegZero1 | RegUvw
    | RegPwm | RegHyst | RegAutoCal

  function Addr(r: Reg): bv8 {
    match r
    case RegId => 0x01
    case RegAngle3 => 0x03
    case RegAngle2 => 0x04
    case RegAngle1 => 0x05
    case RegCrc => 0x06
    case RegAbzRes2 => 0x07
    case RegAbzRes1 => 0x08
    case RegZero2 => 0x09
    case RegZero1 => 0x0A
    case RegUvw => 0x0B
    case RegPwm => 0x0C
    case RegHyst => 0x0D
    case RegAutoCal => 0x0E
  }

  /** Warning flags reported in the low bits of the third angle byte. */
  const WarnNone: bv8 := 0x00
  const WarnOverSpeed: bv8 := 0x01
  const WarnFieldWeak: bv8 := 0x02
  const WarnUnderVoltage: bv8 := 0x04

  /** The mask the angle read applies to extract the warning flags. */
  const WarnMask: bv8 := 0x07

  /** The two ways of fetching the angle, and any other value of the
      method argument, which the driver's `switch` has no case for. */
  datatype ReadMethod = MethodNormal | MethodContinue | MethodUnlisted

  /** 2^21: the number of distinct raw angle values. */
  const AngleResolution: bv32 := 0x20_0000

  /** The acknowledgement byte the chip returns for auto-zero and EEPROM commands. */
  const AckByte: bv8 := 0x55

  /** The command frame: reserved nibble, command nibble, register address,
      data byte and trailing byte, packed in that order from the least
      significant bit of a 32-bit word. */
  datatype Frame = Frame(reserved: bv4, cmd: bv4, reg: bv8, data: bv8, trailing: bv8)

  /** The frame after `init`, whose packed word is zero. */
  const ZeroFrame: Frame := Frame(0, 0, 0, 0, 0)

  /** The first byte on the wire: command in the high nibble, reserved in the low one. */
  function HeaderByte(cmd: bv4, reserved: bv4): (b: bv8)
    ensures b >> 4 == cmd as bv8
    ensures b & 0x0F == reserved as bv8
  {
    ((cmd as bv8) << 4) | (reserved as bv8)
  }

  function Pack(f: Frame): (w: bv32)
    ensures Unpack(w) == f
  {
    (f.reserved as bv32)
      | ((f.cmd as bv32) << 4)
      | ((f.reg as bv32) << 8)
      | ((f.data as bv32) << 16)
      | ((f.trailing as bv32) << 24)
  }

  function Unpack(w: bv32): Frame {
    Frame((w & 0xF) as bv4, ((w >> 4) & 0xF) as bv4, ((w >> 8) & 0xFF) as bv8,
          ((w >> 16) & 0xFF) as bv8, ((w >> 24) & 0xFF) as bv8)
  }

  /** Every 32-bit word is the packing of exactly one frame. */
  lemma PackUnpack(w: bv32)
    ensures Pack(Unpack(w)) == w
  {
  }

  /** The four bytes of a word in memory order on a little-endian target,
      which is how the driver hands the packed frame to the transport. */
  function MemoryBytes(w: bv32): (b: seq<bv8>)
    ensures |b| == 4
  {
    [(w & 0xFF) as bv8, ((w >> 8) & 0xFF) as bv8, ((w >> 16) & 0xFF) as bv8, ((w >> 24) & 0xFF) as bv8]
  }

  /** The frame in memory is: header byte, register, data byte, trailing byte. */
  lemma FrameLayout(f: Frame)
    ensures MemoryBytes(Pack(f)) == [HeaderByte(f.cmd, f.reserved), f.reg, f.data, f.trailing]
  {
  }

  /** The configuration given to `init`; the three callbacks are represented
      only by whether they are present. */
  datatype Config = Config(hasChipSelect: bool, hasReadWrite: bool, hasDelay: bool, enableCrcCheck: bool)

  /** The driver handle, without its callbacks (the transport is a parameter
      of every operation instead). */
  datatype Handle = Handle(enableCrcCheck: bool, frame: Frame, crcRes: bool, warning: bv8)

  /** What `init` establishes and every operation keeps: the reserved and
      trailing parts of the frame are zero and the warning holds no bit
      outside the mask (for the mask 0x07, no value above it). */
  ghost predicate WellFormed(h: Handle) {
    h.frame.reserved == 0 && h.frame.trailing == 0 && h.warning <= WarnMask
  }

  /** The command codes are pairwise distinct. */
  lemma CmdCodeInjective(a: Cmd, b: Cmd)
    ensures CmdCode(a) == CmdCode(b) <==> a == b
  {
  }

  /** The register addresses are pairwise distinct, and the angle and CRC
      registers are four consecutive addresses starting at 0x03. */
  lemma AddrInjective(a: Reg, b: Reg)
    ensures Addr(a) == Addr(b) <==> a == b
    ensures Addr(RegAngle2) == Addr(RegAngle3) + 1
    ensures Addr(RegAngle1) == Addr(RegAngle3) + 2
    ensures Addr(RegCrc) == Addr(RegAngle3) + 3
  {
  }

  /** Each warning flag is a single bit, the flags are disjoint, and together
      they make up exactly the extraction mask. */
  lemma WarningFlags()
    ensures WarnOverSpeed & (WarnOverSpeed - 1) == 0 && WarnOverSpeed != 0
    ensures WarnFieldWeak & (WarnFieldWeak - 1) == 0 && WarnFieldWeak != 0
    ensures WarnUnderVoltage & (WarnUnderVoltage - 1) == 0 && WarnUnderVoltage != 0
    ensures WarnOverSpeed & WarnFieldWeak == 0 && WarnOverSpeed & WarnUnderVoltage == 0
    ensures WarnFieldWeak & WarnUnderVoltage == 0
    ensures WarnOverSpeed | WarnFieldWeak | WarnUnderVoltage == WarnMask
  {
  }
}
