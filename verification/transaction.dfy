/**
  The transaction layer of the MT6835 driver (Src/nagi_mt6835.c): one
  chip-select bracketed full-duplex transfer, the single-register read and
  write built on it, and the acknowledged commands (auto-zero, EEPROM).

  The injected callbacks become a transport function over an abstract
  device state `S`; chip-select calls and transfers are recorded in an
  event trace. The driver's receive buffers are zero-initialised, so the
  bytes it sees are the transport's reply padded with zeros (or cut) to the
  transfer length.
 */
module Transaction {
  import opened Mt6835

  /** An observable call into the injected callbacks. */
  datatype Event = ChipSelect(asserted: bool) | Xfer(tx: seq<bv8>)

  /** What a transfer callback returns: its status and the bytes it received. */
  datatype Reply = Reply(status: Status, rx: seq<bv8>)

  /** A transfer callback: given the device state and the bytes to send,
      the new device state and the reply. The length is `|tx|`. */
  type Transport<!S> = (S, seq<bv8>) -> (S, Reply)

  /** The driver handle, the device behind the transport, and everything
      the driver has done to the bus so far. */
  datatype Bus<S> = Bus(handle: Handle, device: S, trace: seq<Event>)

  /** The outcome of an operation that only reports a status. */
  datatype Res<S> = Res(status: Status, bus: Bus<S>)

  /** The outcome of an operation that also delivers a value through an
      output pointer; on failure the value is the one passed in. */
  datatype Got<T, S> = Got(status: Status, value: T, bus: Bus<S>)

  /** Byte `i` of a zero-initialised buffer into which `rx` was received. */
  function ByteAt(rx: seq<bv8>, i: nat): bv8 {
    if i < |rx| then rx[i] else 0
  }

  /** The events of one transaction: deselect, select, transfer, deselect. */
  function Bracket(tx: seq<bv8>): seq<Event> {
    [ChipSelect(false), ChipSelect(true), Xfer(tx), ChipSelect(false)]
  }

  /** The events of a sequence of transactions, in order. */
  function Brackets(txs: seq<seq<bv8>>): (t: seq<Event>)
    ensures |t| == 4 * |txs|
    decreases |txs|
  {
    if |txs| == 0 then [] else Bracket(txs[0]) + Brackets(txs[1..])
  }

  /** A trace made only of whole transactions. */
  ghost predicate Bracketed(t: seq<Event>)
    decreases |t|
  {
    |t| == 0 || (|t| >= 4 && t[2].Xfer? && t[..4] == Bracket(t[2].tx) && Bracketed(t[4..]))
  }

  /** The bytes sent by each transaction of a bracketed trace, in order. */
  ghost function Sent(t: seq<Event>): seq<seq<bv8>>
    requires Bracketed(t)
    decreases |t|
  {
    if |t| == 0 then [] else [t[2].tx] + Sent(t[4..])
  }

  /** Every trace built from transactions is bracketed, and its
      transactions are recovered exactly. */
  lemma {:induction false} BracketsSent(txs: seq<seq<bv8>>)
    ensures Bracketed(Brackets(txs))
    ensures Sent(Brackets(txs)) == txs
    decreases |txs|
  {
    if |txs| > 0 {
      var t := Brackets(txs);
      assert t[..4] == Bracket(txs[0]);
      assert t[4..] == Brackets(txs[1..]);
      BracketsSent(txs[1..]);
    }
  }

  /** Transactions recorded one after another. */
  lemma {:induction false} BracketsAppend(a: seq<seq<bv8>>, b: seq<seq<bv8>>)
    ensures Brackets(a + b) == Brackets(a) + Brackets(b)
    decreases |a|
  {
    if |a| > 0 {
      assert (a + b)[0] == a[0];
      assert (a + b)[1..] == a[1..] + b;
      BracketsAppend(a[1..], b);
      calc {
        Brackets(a + b);
        Bracket(a[0]) + Brackets(a[1..] + b);
        Bracket(a[0]) + (Brackets(a[1..]) + Brackets(b));
        (Bracket(a[0]) + Brackets(a[1..])) + Brackets(b);
      }
    } else {
      assert a + b == b;
    }
  }

  /** In a bracketed trace the chip is selected exactly around each
      transfer and released at the end. */
  lemma {:induction false} BracketedSelectsAroundTransfers(t: seq<Event>, i: nat)
    requires Bracketed(t) && i < |t|
    ensures t[i].Xfer? ==> 0 < i < |t| - 1 && t[i - 1] == ChipSelect(true) && t[i + 1] == ChipSelect(false)
    ensures t[|t| - 1] == ChipSelect(false)
    decreases |t|
  {
    assert t[..4] == Bracket(t[2].tx);
    assert t[0] == ChipSelect(false) && t[1] == ChipSelect(true) && t[3] == ChipSelect(false);
    if |t| > 4 {
      if i >= 4 {
        BracketedSelectsAroundTransfers(t[4..], i - 4);
      } else {
        BracketedSelectsAroundTransfers(t[4..], 0);
      }
    }
  }

  /** The bytes the three-byte transactions put on the wire: the first
      three bytes of the packed frame in memory. */
  function FrameHead(f: Frame): (tx: seq<bv8>)
    ensures tx == [HeaderByte(f.cmd, f.reserved), f.reg, f.data]
  {
    FrameLayout(f);
    MemoryBytes(Pack(f))[..3]
  }

  /** One transaction: the frame is updated while the chip is deselected,
      then `tx` is transferred with the chip selected. Returns the transport
      status and the receive buffer of length `|tx|`. */
  function Transfer<S>(xfer: Transport<S>, bus: Bus<S>, f: Frame, tx: seq<bv8>): (r: Got<seq<bv8>, S>)
    ensures |r.value| == |tx|
    ensures forall i | 0 <= i < |tx| :: r.value[i] == ByteAt(xfer(bus.device, tx).1.rx, i)
    ensures r.status == xfer(bus.device, tx).1.status
    ensures r.bus == Bus(bus.handle.(frame := f), xfer(bus.device, tx).0, bus.trace + Bracket(tx))
  {
    var (device, reply) := xfer(bus.device, tx);
    var rx := seq(|tx|, i requires 0 <= i < |tx| => ByteAt(reply.rx, i));
    Got(reply.status, rx, Bus(bus.handle.(frame := f), device, bus.trace + Bracket(tx)))
  }

  /** The bytes of a register read: read command, register, and whatever
      data byte the frame still holds. */
  function ReadTx(f: Frame, reg: bv8): seq<bv8> {
    [HeaderByte(CmdCode(CmdRead), f.reserved), reg, f.data]
  }

  /** The bytes of a register write. */
  function WriteTx(f: Frame, reg: bv8, data: bv8): seq<bv8> {
    [HeaderByte(CmdCode(CmdWrite), f.reserved), reg, data]
  }

  /** `mt6835_read_reg`: one three-byte transaction; on status 0 the value is
      the third received byte, otherwise the status is returned unchanged and
      the output keeps `prev`. The data byte of the frame is not touched. */
  function ReadReg<S>(xfer: Transport<S>, bus: Bus<S>, reg: bv8, prev: bv8): (r: Got<bv8, S>)
    ensures var tx := ReadTx(bus.handle.frame, reg);
            var (device, reply) := xfer(bus.device, tx);
            && r.bus.trace == bus.trace + Bracket(tx)
            && r.bus.device == device
            && r.bus.handle == bus.handle.(frame := bus.handle.frame.(cmd := CmdCode(CmdRead), reg := reg))
            && r.status == reply.status
            && r.value == (if reply.status == Ok then ByteAt(reply.rx, 2) else prev)
  {
    var f := bus.handle.frame.(cmd := CmdCode(CmdRead), reg := reg);
    var x := Transfer(xfer, bus, f, FrameHead(f));
    if x.status != Ok then Got(x.status, prev, x.bus) else Got(Ok, x.value[2], x.bus)
  }

  /** `mt6835_write_reg`: one three-byte transaction carrying the new data
      byte, which stays in the frame afterwards; the transport status is
      returned. */
  function WriteReg<S>(xfer: Transport<S>, bus: Bus<S>, reg: bv8, data: bv8): (r: Res<S>)
    ensures var tx := WriteTx(bus.handle.frame, reg, data);
            var (device, reply) := xfer(bus.device, tx);
            && r.bus.trace == bus.trace + Bracket(tx)
            && r.bus.device == device
            && r.bus.handle == bus.handle.(frame := bus.handle.frame.(cmd := CmdCode(CmdWrite), reg := reg, data := data))
            && r.status == reply.status
  {
    var f := bus.handle.frame.(cmd := CmdCode(CmdWrite), reg := reg, data := data);
    var x := Transfer(xfer, bus, f, FrameHead(f));
    Res(x.status, x.bus)
  }

  /** The inline transaction of `auto_zero_angle` and `program_eeprom`:
      command `code` with register and data byte zero. The third received
      byte must be the acknowledgement 0x55, otherwise the result is ERROR
      whatever the transport said; with the acknowledgement the transport
      status is returned. */
  function Acknowledged<S>(xfer: Transport<S>, bus: Bus<S>, code: bv4): (r: Res<S>)
    ensures var tx := [HeaderByte(code, bus.handle.frame.reserved), 0, 0];
            var (device, reply) := xfer(bus.device, tx);
            && r.bus.trace == bus.trace + Bracket(tx)
            && r.bus.device == device
            && r.bus.handle == bus.handle.(frame := bus.handle.frame.(cmd := code, reg := 0, data := 0))
            && (r.status == Ok <==> reply.status == Ok && ByteAt(reply.rx, 2) == AckByte)
            && (ByteAt(reply.rx, 2) != AckByte ==> r.status == Error)
            && (ByteAt(reply.rx, 2) == AckByte ==> r.status == reply.status)
  {
    var f := bus.handle.frame.(cmd := code, reg := 0, data := 0);
    var x := Transfer(xfer, bus, f, FrameHead(f));
    if x.value[2] != AckByte then Res(Error, x.bus) else Res(x.status, x.bus)
  }

  /** A single-register transaction never transmits the trailing byte of
      the frame: frames differing only there send the same bytes. */
  lemma TrailingByteNeverSent(f: Frame, t: bv8)
    ensures FrameHead(f) == FrameHead(f.(trailing := t))
    ensures |FrameHead(f)| == 3
  {
  }
}
