# MT6835 angle-sensor driver, modelled in Dafny

This project models the core of a C driver for the MT6835, a 21-bit
magnetic angle sensor on an SPI-like bus. The driver talks to the chip in
short chip-select-bracketed transfers built from a four-byte command
frame. Over that layer it offers:

- single-register reads and writes;
- two acknowledged commands, auto-zero and EEPROM programming;
- the angle read, either register by register (NORMAL) or as one streamed
  transfer (CONTINUE), with an optional CRC-8 check over the three angle
  bytes;
- the zero-position field;
- read-modify-write setters for the ABZ/UVW output settings.

The model is functional:

- The handle and frame are immutable records.
- The two injected callbacks (chip select and transfer) become a transport
  function over an abstract device state. Every operation returns its status,
  the new handle, the new device state and the trace of chip-select and
  transfer events.
- A value delivered through an output pointer is returned with the result.
  On failure it is the value passed in (`prev`).
- Statuses are integers. The six driver codes are named, and any other
  transport status is forwarded with its value kept (see Left out for the
  C conversion this assumes).

Modules, one per part of the driver:

- `Mt6835` (`mt6835.dfy`): the enums, constants, frame layout, configuration
  and handle of `Inc/nagi_mt6835.h`.
- `Crc8` (`crc8.dfy`): the table-driven CRC `crc_table` and a bitwise
  reference CRC-8 (polynomial 0x07, initial value 0, no reflection, no final
  XOR; the CRC-8/SMBUS parameter set). It proves that the 256-entry table
  agrees with the reference, and that the CRC catches any single corrupted
  byte.
- `Transaction` (`transaction.dfy`): the transport, the event trace, the
  register read and write, and the acknowledged commands.
- `Angle` (`angle.dfy`): `nagi_mt6835_get_raw_angle`, meaning both
  acquisition strategies and the shared CRC/warning/decode step.
- `Zero` (`zero.dfy`): the 12-bit zero field shared by the zero angle and
  the ABZ Z position.
- `Abz` (`abz.dfy`): the ABZ/UVW setters, including the two that do not
  store what they are asked to (see Findings) and their corrected forms.
- `Driver` (`driver.dfy`): init, the custom ID, auto-zero, EEPROM and the
  public register wrappers.
- `Chip` (`chip.dfy`): a simulated chip, a register file answering the
  commands. Against it, round trips and "nothing else changes" are proved
  end to end.

## Model

| member | source | states |
|---|---|---|
| Mt6835.HeaderByte | Src/nagi_mt6835.c:236-237 | The first wire byte carries the command in its high nibble and the reserved nibble in its low one. |
| Mt6835.Pack | Inc/nagi_mt6835.h:62-73 | Packing the five frame fields into the 32-bit word loses nothing: unpacking the word gives the frame back. |
| Mt6835.PackUnpack | Inc/nagi_mt6835.h:62-73 | Every 32-bit frame word is the packing of exactly one frame. |
| Mt6835.FrameLayout | Inc/nagi_mt6835.h:62-73 | In memory the packed frame is header byte, register, data byte, trailing byte, in that order. |
| Mt6835.CmdCodeInjective | Inc/nagi_mt6835.h:22-28 | The five command codes are pairwise distinct. |
| Mt6835.AddrInjective | Inc/nagi_mt6835.h:31-45 | The register addresses are pairwise distinct. ANGLE3, ANGLE2, ANGLE1 and CRC are consecutive from 0x03. |
| Mt6835.WarningFlags | Inc/nagi_mt6835.h:48-53 | Each warning flag is a single bit, the flags are disjoint, and their union is exactly the 0x07 mask that get_raw_angle applies. |
| Crc8.TableMatchesBitwise | Src/nagi_mt6835.c:14-31 | Every entry of `crc8_table` equals the bitwise CRC-8 (polynomial 0x07, initial value 0) of its index byte. |
| Crc8.FeedByteInjective | Src/nagi_mt6835.c:40-43 | Feeding a byte gives the same CRC exactly when the CRC XOR the byte is the same. |
| Crc8.LookupFeeds | Src/nagi_mt6835.c:40-43 | One loop iteration `crc = table[crc ^ data[i]]` is the bitwise CRC update by one byte. |
| Crc8.TableCrc | Src/nagi_mt6835.c:37-46 | The table-driven CRC over a byte sequence equals the bitwise CRC-8 fold starting from 0. |
| Crc8.CrcOfPrefix | Src/nagi_mt6835.c:37-46 | `crc_table(data, len)` with its 8-bit length computes the CRC-8 of the first `len` bytes. |
| Crc8.CrcFromAppend | Src/nagi_mt6835.c:37-46 | The CRC of a concatenation continues from the CRC of the first part. |
| Crc8.CrcSnoc | Src/nagi_mt6835.c:37-46 | Appending a byte feeds it into the CRC of what came before. |
| Crc8.CheckValue | Src/nagi_mt6835.c:37-46 | The CRC of ASCII "123456789" is 0xF4, the catalogued check value of CRC-8/SMBUS. |
| Crc8.CrcDetectsByteError | Src/nagi_mt6835.c:254-258 | Changing any one byte of the data always changes its CRC. |
| Transaction.BracketsSent | Src/nagi_mt6835.c:53-92 | A trace built from transactions is made of whole brackets, and the bytes sent by each transfer are recovered from it in order. |
| Transaction.BracketsAppend | Src/nagi_mt6835.c:53-92 | The trace of consecutive transactions is the concatenation of their traces. |
| Transaction.BracketedSelectsAroundTransfers | Src/nagi_mt6835.c:56-62 | In any trace of whole transactions, every transfer happens with the chip selected, it is deselected right after, and the trace ends deselected. |
| Transaction.FrameHead | Src/nagi_mt6835.c:61 | A three-byte transaction sends the first three bytes of the packed frame: header byte, register, data byte. |
| Transaction.Transfer | Src/nagi_mt6835.c:56-62 | One transaction brackets the transfer between deselect/select and deselect. It receives into a zeroed buffer of the transfer length, returns the transport status unchanged, and installs the new frame. |
| Transaction.ReadReg | Src/nagi_mt6835.c:53-69 | A register read sends read command, register and the frame's existing data byte. On status 0 it returns received byte 2; otherwise it returns the transport status and keeps the output. Only the command and register of the frame change. |
| Transaction.WriteReg | Src/nagi_mt6835.c:76-92 | A register write sends write command, register and data. The data byte stays in the frame, and the transport status is returned. |
| Transaction.Acknowledged | Src/nagi_mt6835.c:136-157 | The frame becomes {cmd, reg 0, data 0}. The result is OK exactly when the transport said OK and received byte 2 is 0x55. A missing 0x55 gives ERROR even if the transport failed; with 0x55 the transport status is returned. |
| Transaction.TrailingByteNeverSent | Inc/nagi_mt6835.h:62-73 | Single-register transactions send three bytes and never the trailing frame byte. |
| Angle.DecodeRaw | Src/nagi_mt6835.c:263 | The assembled raw angle is below 2^21. |
| Angle.WarningOf | Src/nagi_mt6835.c:262 | The extracted warning holds no bit outside the 0x07 mask. |
| Angle.Encode | Src/nagi_mt6835.c:262-263 | For r < 2^21 and w ≤ 7, decoding the chip's three-byte layout of (r, w) gives raw angle r and warning w. |
| Angle.EncodeDecode | Src/nagi_mt6835.c:262-263 | Decoding loses nothing: the three data bytes are recovered from the raw angle and warning they decode to. |
| Angle.ReadAngles | Src/nagi_mt6835.c:209-221 | ANGLE3, ANGLE2 and ANGLE1 are read in that order, each through the device the previous read left. The first failed read stops with its transport status, its device and the trace up to and including it. When all succeed, byte 2 of each reply is the angle byte, in order, and the status, device and trace are those of the third read. Only command and register of the frame change. |
| Angle.AcquireNormal | Src/nagi_mt6835.c:209-229 | Without CRC checking, or when an angle read failed, NORMAL is exactly the three angle reads. With CRC checking it then reads CRC: its transport status, device and trace are the result's, and on success byte 2 of its reply is the CRC byte beside the three angle bytes. Only command and register of the frame change; the data byte is kept. |
| Angle.ContinueTx | Src/nagi_mt6835.c:231-240 | CONTINUE sends the first two frame bytes followed by zeros up to the transfer length. |
| Angle.AcquireContinue | Src/nagi_mt6835.c:230-251 | CONTINUE is one transfer of 6 bytes with CRC checking and 5 without, of [CONTINUE<<4, ANGLE3, 0…]. The transport status is returned. On success received bytes 2..4 are the data bytes and, with CRC checking, byte 5 is the CRC byte. |
| Angle.Finish | Src/nagi_mt6835.c:254-265 | With CRC checking, a mismatch fails with CRC_CHECK_FAILED, clears `crc_res` and changes neither output nor warning; a match sets `crc_res`. Without CRC checking `crc_res` is untouched. On success the raw angle is below 2^21, the warning within the mask, and together they re-encode to the data bytes. |
| Angle.Acquire | Src/nagi_mt6835.c:208-252 | NORMAL and CONTINUE run their strategy. A method value the `switch` has no case for sends nothing and succeeds with the zeroed receive buffer. Only command and register of the frame change; reserved, data and trailing bytes are kept. |
| Angle.GetRawAngle | Src/nagi_mt6835.c:193-266 | The trace and device are those the acquisition left. A failed acquisition returns its status with output, warning and `crc_res` unchanged. Otherwise the shared CRC/decode step decides status, value and handle: with CRC checking the result is OK exactly when the CRC of the three data bytes matches the CRC byte, and CRC_CHECK_FAILED otherwise. On OK the value and warning are those decoded from the acquired bytes. WellFormed is preserved, and `crc_res` is untouched without CRC checking. |
| Angle.UnlistedMethodReadsZero | Src/nagi_mt6835.c:205-265 | For a method value outside the two cases, nothing is sent and the call returns OK with raw angle 0 and no warning, because the CRC of three zero bytes is 0. With CRC checking, `crc_res` is set. |
| Angle.FinishDependsOnlyOnChecked | Src/nagi_mt6835.c:246-263 | The shared step sees the telemetry only through the three data bytes and, with CRC checking, the CRC byte. So equivalent telemetry decodes identically whichever strategy produced it. |
| Angle.CorruptedByteDetected | Src/nagi_mt6835.c:254-258 | With CRC checking, telemetry differing from a consistent one in exactly one data byte is always rejected with CRC_CHECK_FAILED. |
| Zero.ZeroValue | Src/nagi_mt6835.c:286 | The zero position read from ZERO2 and ZERO1 is at most 0xFFF: ZERO2 is bits 11:4 and the high nibble of ZERO1 is bits 3:0. |
| Zero.ZeroFields | Src/nagi_mt6835.c:169-179 | For v ≤ 0xFFF the two bytes written read back as v, and the low nibble of ZERO1 is kept. |
| Zero.ZeroFieldsInjective | Src/nagi_mt6835.c:169-179 | Two zero positions give the same bytes if and only if they are equal. |
| Zero.WriteHighLow | Src/nagi_mt6835.c:181-190 | ZERO2 is written first, then ZERO1, and the first failure stops with its status. The frame's data byte is then the last byte written: the ZERO2 byte if that write failed, the ZERO1 byte otherwise. |
| Zero.WriteZero | Src/nagi_mt6835.c:169-190 | ZERO1 is read first; a failed read returns its status with no write. Otherwise the two bytes computed from the position and the ZERO1 just read are written. A failed read leaves the frame's data byte as it was. |
| Zero.SetZeroAngle | Src/nagi_mt6835.c:164-190 | A register value above 0xFFF is INVALID_ARGUMENT before any transaction; otherwise the zero field is written. |
| Zero.GetRawZeroAngle | Src/nagi_mt6835.c:268-288 | ZERO2 is read, then ZERO1, stopping at the first failure with output unchanged. On success the value is the field they hold, at most 0xFFF. The frame's data byte is kept, since a read resends it. |
| Abz.Merge | Src/nagi_mt6835.c:341-345 | Each setter's write-back byte changes no bit outside the bits the setting owns. |
| Abz.MergeStoresWanted | Src/nagi_mt6835.c:341-455 | For every setting but the Z phase, the accepted argument is stored exactly in the owned bits. |
| Abz.ZPhaseDiscarded | Src/nagi_mt6835.c:473 | As written, the Z phase setter writes `cur & 0x3F` for every accepted phase, so phases 1..3 are not stored. |
| Abz.MergeFixed | Src/nagi_mt6835.c:473 | The corrected merge stores every accepted argument, including the Z phase, in the owned bits and keeps all other bits. |
| Abz.PhaseFixed | Src/nagi_mt6835.c:473 | The corrected UVW byte keeps bits 5:0 and holds the phase in bits 7:6. |
| Abz.MergeOwnsBits | Src/nagi_mt6835.c:330-476 | The written-back byte replaces exactly the owned bits by the requested value and keeps the rest. This holds as written for every setting but the Z phase, and in corrected form for all of them. |
| Abz.Update | Src/nagi_mt6835.c:335-347 | A setter reads its register first; a failed read returns its status with no write. Otherwise it writes back the merged byte and returns the write's status. The frame's data byte is then the merged byte, or unchanged after a failed read. |
| Abz.Apply | Src/nagi_mt6835.c:442-457 | Out-of-range arguments (pulse width above 7, phase above 3) are INVALID_ARGUMENT before any transaction. Otherwise one read-modify-write runs. |
| Abz.ApplyFixed | Src/nagi_mt6835.c:460-476 | The corrected setter has the same range check and agrees with the as-written `Abz.Apply`, which the as-written setters such as `Abz.SetAbzZPhase` run, on every setting but the Z phase. |
| Abz.EnableAbzOutput | Src/nagi_mt6835.c:330-348 | On success ABZ_RES1 was written with bit 1 set exactly when enabling. |
| Abz.SetAbzAbSwap | Src/nagi_mt6835.c:350-368 | On success ABZ_RES1 was written with bit 0 set exactly when swapping. |
| Abz.SetAbzZEdgeUp | Src/nagi_mt6835.c:422-440 | On success ZERO1 was written with bit 3 set exactly for a rising edge. |
| Abz.SetAbzZPulseWidth | Src/nagi_mt6835.c:442-458 | A width above 7 is INVALID_ARGUMENT; on success ZERO1 was written with the width in bits 2:0. |
| Abz.SetAbzZPhase | Src/nagi_mt6835.c:460-476 | A phase above 3 is INVALID_ARGUMENT; on success UVW was written with bits 7:6 clear. |
| Abz.SetAbzZPhaseFixed | Src/nagi_mt6835.c:460-476 | Corrected: on success UVW was written with the phase in bits 7:6. |
| Abz.ResolutionBytes | Src/nagi_mt6835.c:383-384 | As written: ABZ_RES2 receives `res >> 8`, and ABZ_RES1 keeps bits 1:0 and receives resolution bits 5:0 in bits 7:2. |
| Abz.ResolutionIgnoresBits76 | Src/nagi_mt6835.c:383-384 | As written, for every accepted resolution, clearing its bits 7:6 leaves both written bytes the same. |
| Abz.ResolutionValue | Src/nagi_mt6835.c:383-384 | The chip's resolution field is 14 bits: ABZ_RES2 holds bits 13:6 and ABZ_RES1 bits 7:2 hold bits 5:0. |
| Abz.ResolutionBitsLost | Src/nagi_mt6835.c:383-384 | As written, resolutions 0x40 and 0 produce the same bytes, and the field reads back 0. |
| Abz.ResolutionBytesFixed | Src/nagi_mt6835.c:383-384 | Corrected: every resolution below 0x4000 is stored exactly, and bits 1:0 of ABZ_RES1 are kept. |
| Abz.WriteResolution | Src/nagi_mt6835.c:378-393 | Read ABZ_RES1, write ABZ_RES2, write ABZ_RES1, each failure stopping with its status. The frame's data byte is kept after a failed read, and is otherwise the last byte written: the ABZ_RES2 byte if that write failed, the ABZ_RES1 byte if not. |
| Abz.SetAbzResolution | Src/nagi_mt6835.c:370-394 | A resolution above 16384 is INVALID_ARGUMENT before any transaction. |
| Abz.SetAbzResolutionFixed | Src/nagi_mt6835.c:370-394 | Corrected: the accepted range is the 14-bit field, 0..16383 (a reading of the field width: the driver's guard accepts 16384), and ABZ_RES2 takes bits 13:6. |
| Abz.SetAbzZPosition | Src/nagi_mt6835.c:396-420 | A position above 4095 is INVALID_ARGUMENT before any transaction; otherwise the zero field is written. |
| Abz.ZPositionIsZeroAngle | Src/nagi_mt6835.c:396-420 | The Z position setter and the zero-angle setter behave identically on every register value. |
| Driver.Init | Src/nagi_mt6835.c:101-114 | Init returns INVALID_ARGUMENT exactly when a callback is missing, and then leaves the handle unchanged. Otherwise it returns OK with the CRC option copied, the frame word zero, `crc_res` false and no warning. |
| Driver.SetId | Src/nagi_mt6835.c:117-123 | One write of the ID register: exactly the internal write, so the transport status and device are returned and only the frame's command, register and data byte change. |
| Driver.GetId | Src/nagi_mt6835.c:125-134 | One read of the ID register: exactly the internal read, so the data byte and the rest of the handle are kept, the device is the transport's, and the value is byte 2 on success and the output kept otherwise. |
| Driver.AutoZeroAngle | Src/nagi_mt6835.c:136-157 | One transaction of the ZERO command with register and data 0, which the frame keeps afterwards. OK exactly when the transport said OK and received byte 2 is 0x55. Without 0x55 the result is ERROR; with it, the transport status. |
| Driver.ProgramEeprom | Src/nagi_mt6835.c:478-499 | One transaction of the EEPROM command with register and data 0, which the frame keeps afterwards. OK exactly when the transport said OK and received byte 2 is 0x55. Without 0x55 the result is ERROR; with it, the transport status. |
| Driver.AcknowledgedCommandsDiffer | Src/nagi_mt6835.c:144-146 | Auto-zero and EEPROM programming put different bytes on the wire. |
| Driver.ReadRegister | Src/nagi_mt6835.c:501-510 | The public read accepts any register address byte and is the internal read of it; on failure the output is kept. |
| Driver.WriteRegister | Src/nagi_mt6835.c:512-518 | The public write accepts any register address byte, is the internal write, and leaves the address and data in the frame. |
| Chip.ReadOnChip | Src/nagi_mt6835.c:53-69 | On the chip a read succeeds, returns the register and changes nothing. |
| Chip.WriteOnChip | Src/nagi_mt6835.c:76-92 | On the chip a write succeeds and stores its byte in its register. |
| Chip.ReadAfterWrite | Src/nagi_mt6835.c:53-92 | A byte written is the byte read back. |
| Chip.AcknowledgedOnChip | Src/nagi_mt6835.c:136-157 | The chip acknowledges auto-zero and EEPROM programming. |
| Chip.ZeroRoundTrip | Src/nagi_mt6835.c:159-191 | Writing zero position v ≤ 0xFFF and reading it back gives v. The low nibble of ZERO1 and every register other than ZERO1 and ZERO2 are kept. |
| Chip.SetterOnChip | Src/nagi_mt6835.c:330-476 | An accepted single-field setting succeeds, stores the merged byte in its register and changes no other register. |
| Chip.ZPhaseLostOnChip | Src/nagi_mt6835.c:460-476 | As written, phases 1..3 leave UVW bits 7:6 at zero on the chip. |
| Chip.ZPhaseFixedOnChip | Src/nagi_mt6835.c:460-476 | Corrected, every phase 0..3 reaches UVW bits 7:6. |
| Chip.ResolutionOnChip | Src/nagi_mt6835.c:370-394 | The resolution setter stores its two bytes in ABZ_RES2 and ABZ_RES1 and changes no other register. |
| Chip.ResolutionFixedRoundTrip | Src/nagi_mt6835.c:370-394 | Corrected, every 14-bit resolution is read back exactly from the chip, keeping the enable and swap bits. |
| Chip.ResolutionLostOnChip | Src/nagi_mt6835.c:383-384 | As written, asking for 0x40 and for 0 leaves the chip in the same state, and it does not read back 0x40. |
| Chip.NormalOnChip | Src/nagi_mt6835.c:209-229 | NORMAL fetches the angle registers and, with CRC checking, the CRC register. |
| Chip.ContinueOnChip | Src/nagi_mt6835.c:230-251 | CONTINUE fetches the same bytes in one transfer. |
| Chip.StreamedAngles | Src/nagi_mt6835.c:246-249 | The streamed reply holds ANGLE3, ANGLE2, ANGLE1 at bytes 2..4 and CRC at byte 5. |
| Chip.StrategiesAgreeOnChip | Src/nagi_mt6835.c:208-265 | On the same chip, NORMAL and CONTINUE give the same status, raw angle, warning and CRC result; only the frame and the trace they leave differ. |
| Chip.AngleOnChip | Src/nagi_mt6835.c:193-266 | The angle read succeeds exactly when CRC checking is off or the CRC register matches the data. It then delivers the angle and flags the data encodes. |
| Chip.AngleRoundTrip | Src/nagi_mt6835.c:193-266 | A chip holding the encoding of (raw, w), with a consistent CRC, reads back raw and w exactly. |

## Left out

- Floating-point conversions are not modelled: `nagi_mt6835_get_angle`, `nagi_mt6835_get_zero_angle` and the `roundf` step of `nagi_mt6835_set_zero_angle`. `Zero.SetZeroAngle` starts from the already rounded 16-bit register value. The C cast of an out-of-range float is undefined anyway.
- NULL checks are not modelled: the HANDLE_NULL and POINTER_NULL results for a missing handle, config or output pointer. Dafny has no null pointers. Init models callbacks only as present or absent.
- The delay callback is only checked for presence: the driver stores it and never calls it.
- C bit-field allocation is implementation-defined. The frame is modelled with the explicit byte layout the driver relies on: a little-endian word, reserved nibble lowest.
- The chip's physical reaction to auto-zero and EEPROM programming is not modelled: timing and what the chip stores. `Chip.Respond` only acknowledges those commands.
- Angle.Finish: the CRC is stated with the bitwise `Crc8.Crc` rather than the table-driven `Crc8.TableCrc`. The two are proved equal for every input by `Crc8.TableCrc`, and `Crc8.CrcOfPrefix` models the loop with its 8-bit length. The C loop counter is also 8-bit; the model's counter is unbounded, which behaves the same because it stays below the length, at most 255.
- A transport status of 5 coincides with CRC_CHECK_FAILED, so a caller of the angle read cannot tell from the status alone which of the two happened. The model forwards such a status as the C code does.
- Chip.AngleOnChip, Chip.AngleRoundTrip: stated for NORMAL and CONTINUE only. A method value outside them never reaches the chip; `Angle.UnlistedMethodReadsZero` states what it returns for every transport.
- The transport callback returns an `int`, and the driver stores it in `nagi_mt6835_error_t`. The width of a C enum is implementation-defined, so a compiler with short enums could truncate a status such as 256 to OK. The model assumes the conversion keeps the value, as it does when the enum is `int`-sized.
- Chip.SetterOnChip: states the byte stored, not which bits changed. It composes with `Abz.MergeOwnsBits`, which states that only the owned bits change.
- The simulated chip answers every transfer the driver issues with status OK; it answers ERROR only to transfers the driver never sends: one shorter than two bytes, or a command and length combination the driver does not use. Transport failures are covered generically in `Transaction`, `Angle`, `Zero` and `Abz`, for every transport.

## Findings

| source | as written | input that shows it | evidently intended | confidence | as-written member | corrected member |
|---|---|---|---|---|---|---|
| Src/nagi_mt6835.c:473 | UVW is written as `(uvw & 0x3F) \| (phase & 0xC0)`; an accepted phase is 0..3, so `phase & 0xC0` is always 0 and bits 7:6 are always cleared | phase 2 writes `uvw & 0x3F`, and UVW bits 7:6 read back 0 | `(uvw & 0x3F) \| ((phase & 0x03) << 6)`, putting the phase in bits 7:6 | not executed | Abz.ZPhaseDiscarded, Chip.ZPhaseLostOnChip | Abz.SetAbzZPhaseFixed, Chip.ZPhaseFixedOnChip |
| Src/nagi_mt6835.c:383-384 | ABZ_RES2 gets `res >> 8` and ABZ_RES1 bits 7:2 get `res & 0x3F`, so resolution bits 7:6 are written nowhere; the guard also accepts 16384, which does not fit the 14-bit field | resolution 0x40 writes the same bytes as 0 and reads back 0 | ABZ_RES2 gets `res >> 6`, so the 14-bit field holds the resolution. Limiting the range to 0..16383 is a reading of the field width: the driver's guard `abz_res > 16384` (Src/nagi_mt6835.c:374) accepts 16384, which needs 15 bits | not executed | Abz.ResolutionBitsLost, Chip.ResolutionLostOnChip | Abz.SetAbzResolutionFixed, Chip.ResolutionFixedRoundTrip |
