/**
 * The nRF24 protocol driver (canvas/src/nrf24.c) as a deterministic state
 * machine over the SPI engine.
 *
 * Each C handler is a pure function from a `World` (driver state, engine,
 * scratch memory, trace of observable actions) to an `Outcome`: the next
 * world, or a halt for a failed assertion or an out-of-bounds access. The
 * function pointers the C code passes to `spi_transfer` become the closed
 * continuation type `Cont`; the numeric `callback_stage` becomes the stage
 * carried by the continuation. Interrupt handlers and application callbacks
 * run to completion; application callbacks are recorded in the trace.
 */
module Nrf24 {
  import opened Base
  import Spi
  import opened Nrf24Wire

  /** `nrf24_mode_t`. */
  datatype Role = Transmitter | Receiver

  /** The scratch buffers the driver hands to the engine, by identity. */
  datatype Buf = Input | Output | TxReadLen | RxReadLen

  /** NRF_SPI_DATA_SIZE. */
  const SCRATCH_SIZE: nat := 40

  /** Declared size of each scratch buffer. */
  function Size(b: Buf): nat
  {
    match b
    case Input => SCRATCH_SIZE
    case Output => SCRATCH_SIZE
    case TxReadLen => 2
    case RxReadLen => 2
  }

  /** Stage of the payload read-back after a TX_DS + RX_DR or an RX_DR interrupt: what has just completed. */
  datatype ReadBack = Cleared | WidthKnown | PayloadIn

  /** Stage of the MAX_RT handling: what has just completed. */
  datatype Flush = RtCleared | Flushed

  /** The completion callbacks the driver passes to the engine. */
  datatype Cont =
    | InitSeq               // nrf24_initSequence
    | StoreAckDone          // nrf24_StoreAckDone
    | ReadStatus            // nrf24_spiReadStatusCallback
    | HandleTx              // nrf24_spiHandleTXCallback
    | HandleTxAck(ack: ReadBack)    // nrf24_spiHandleTXACKCallback
    | HandleMaxRt(flush: Flush)     // nrf24_spiHandleMAXRTCallback
    | HandleRx(rx: ReadBack)        // nrf24_spiHandleRXCallback

  /** An application callback, by identity. */
  type CallbackId = nat

  /** Application data given as pointer and `uint8_t` length: the bytes `data[0..length)`. */
  type Payload = s: seq<byte> | |s| < 256

  /** The driver's state (`nrf_data`) plus the CE and IRQ-line pin state. */
  datatype Driver = Driver(
    role: Role,
    ready: bool,                    // init
    step: nat,                      // init_step
    chipEnable: bool,               // CE pin level
    irqUnmasked: bool,              // the IRQ pin interrupt is enabled
    initReturned: bool,             // nrf24_init has returned after unmasking the IRQ line
    transmitting: bool,             // tx_data.transmitting
    txEot: Option<CallbackId>,      // tx_data.eot
    rxEot: Option<CallbackId>,      // rx_data.eot
    receiveRequest: bool,           // rx_data.receive_request
    sendRequest: bool,              // rx_data.send_request
    deferred: Payload,              // rx_data.data / rx_data.length
    replayPending: bool)            // a remembered ack payload still awaits upload (the correction's state)

  /** Observable actions, in order. */
  datatype Obs =
      /** A bus transfer started: the bytes it sends, where it reads to, and its continuation. */
    | Issued(bytes: seq<byte>, read: Option<Buf>, cont: Option<Cont>)
      /** The transmit callback ran; `ack` is the ack payload (its length is the callback's `length`). */
    | TxCallback(cb: CallbackId, success: bool, ack: Option<seq<byte>>)
      /** The receive callback ran with the received payload. */
    | RxCallback(cb: CallbackId, data: seq<byte>)

  /** The driver's assertions. */
  datatype Misuse =
    | TransmitOutsideTx | TransmitWhileTransmitting | NullData | BadLength
    | IsBusyOutsideTx
    | ReceiveOutsideRx | SecondReceiveCallback | NullCallback
    | StoreAckOutsideRx

  /** Why the system stopped: a driver or engine assertion, or undefined behaviour (an out-of-bounds access). */
  datatype Halt = Assert(misuse: Misuse) | SpiAssert(fault: Spi.Fault) | Overrun

  datatype World = World(drv: Driver, spi: Spi.Engine<Buf, Cont>, mem: Spi.Mem<Buf>, trace: seq<Obs>)

  datatype Outcome = Running(w: World) | Halted(why: Halt)

  /** Every scratch buffer exists with its declared size. */
  predicate MemOk(mem: Spi.Mem<Buf>)
  {
    && Input in mem && |mem[Input]| == Size(Input)
    && Output in mem && |mem[Output]| == Size(Output)
    && TxReadLen in mem && |mem[TxReadLen]| == Size(TxReadLen)
    && RxReadLen in mem && |mem[RxReadLen]| == Size(RxReadLen)
  }

  /** The invariant every event preserves: buffers keep their sizes and the engine is consistent. */
  predicate Wf(w: World)
  {
    MemOk(w.mem) && Spi.Consistent(w.spi, w.mem)
  }

  /** The engine-level outcome: the trace only grows and the invariant is kept. */
  predicate Follows(w: World, o: Outcome)
  {
    o.Running? ==> Wf(o.w) && w.trace <= o.w.trace
  }

  /** `n` zero bytes. */
  function Zeros(n: nat): (z: seq<byte>)
    ensures |z| == n
  {
    seq(n, _ => 0)
  }

  /** The input scratch buffer with `bytes` written from position 0. */
  function Fill(mem: Spi.Mem<Buf>, bytes: seq<byte>): Spi.Mem<Buf>
    requires MemOk(mem) && |bytes| <= SCRATCH_SIZE
  {
    mem[Input := bytes + mem[Input][|bytes|..]]
  }

  /**
   * Writes `bytes` to the start of the input scratch buffer, then starts a
   * transfer from it. Writing past the 40-byte buffer, or a transfer longer
   * than a buffer, halts as undefined behaviour.
   */
  function Transfer(w: World, bytes: seq<byte>, read: Option<Buf>, length: byte, cont: Option<Cont>): (o: Outcome)
    requires MemOk(w.mem)
    ensures o.Running? <==>
              && !w.spi.IsBusy() && length > 0 && |bytes| <= SCRATCH_SIZE
              && length as int <= SCRATCH_SIZE && (read.Some? ==> length as int <= Size(read.value))
    ensures w.spi.IsBusy() && |bytes| <= SCRATCH_SIZE ==> o == Halted(SpiAssert(Spi.TransferWhileBusy))
    ensures !w.spi.IsBusy() && length == 0 && |bytes| <= SCRATCH_SIZE ==> o == Halted(SpiAssert(Spi.ZeroLength))
    ensures o.Running? ==>
              var mem := Fill(w.mem, bytes);
              && o.w == w.(spi := w.spi.(current := Some(Spi.Descriptor(Input, read, length, 0, cont)), selected := true),
                           mem := mem,
                           trace := w.trace + [Issued(mem[Input][..length], read, cont)])
              && Wf(o.w)
              && mem[Input][..|bytes|] == bytes
  {
    if |bytes| > |w.mem[Input]| then Halted(Overrun)
    else
      var mem := Fill(w.mem, bytes);
      assert mem[Input][..|bytes|] == bytes;
      match Spi.Start(w.spi, mem, Some(Input), read, length, cont)
      case Faulted(f) => Halted(SpiAssert(f))
      case OutOfBounds => Halted(Overrun)
      case Started(e, _) =>
        Running(w.(spi := e, mem := mem, trace := w.trace + [Issued(mem[Input][..length], read, cont)]))
  }

  /** The transmit callback, if one is stored. */
  function CallTx(eot: Option<CallbackId>, success: bool, ack: Option<seq<byte>>): seq<Obs>
  {
    if eot.Some? then [TxCallback(eot.value, success, ack)] else []
  }

  /** The receive callback, if one is registered. */
  function CallRx(eot: Option<CallbackId>, data: seq<byte>): seq<Obs>
  {
    if eot.Some? then [RxCallback(eot.value, data)] else []
  }

  // ---------------------------------------------------------------- bring-up

  /**
   * `nrf24_init`'s state reset (zero-initialised statics, CE low, IRQ line
   * masked); pin set-up and the start-up delay are not modelled.
   */
  function Reset(role: Role): (w: World)
    ensures Wf(w) && !w.spi.IsBusy() && w.trace == []
    ensures w.drv.step == 0 && !w.drv.ready && !w.drv.chipEnable && !w.drv.irqUnmasked
    ensures !w.drv.transmitting && w.drv.rxEot.None? && !w.drv.receiveRequest && !w.drv.sendRequest
  {
    World(Driver(role, false, 0, false, false, false, false, None, None, false, false, [], false),
          Spi.Unconfigured(),
          map[Input := Zeros(SCRATCH_SIZE), Output := Zeros(SCRATCH_SIZE), TxReadLen := Zeros(2), RxReadLen := Zeros(2)],
          [])
  }

  /** Bring-up steps 0 to 15: advance the step and send that step's packet, continuing with the sequence. */
  function InitStepTransfer(w: World): (o: Outcome)
    requires Wf(w) && w.drv.step < 16
    ensures Follows(w, o)
  {
    var k := w.drv.step;
    var w1 := w.(drv := w.drv.(step := k + 1));
    // Step 0 also runs spi_init with the driver's clock polarity and phase.
    var w2 := if k == 0 then w1.(spi := Spi.Init(SPI_CPOL, SPI_CPHA)) else w1;
    var p := InitPacket(k, w.drv.role == Receiver);
    Transfer(w2, p, None, |p|, Some(InitSeq))
  }

  /**
   * `nrf24_initSequence` as written: step 16 raises CE and advances to 17
   * without starting a transfer, so no completion ever runs step 17, the
   * only step that sets `ready`.
   */
  function InitSequenceAsWritten(w: World): (o: Outcome)
    requires Wf(w)
    ensures Follows(w, o)
  {
    if w.drv.step < 16 then InitStepTransfer(w)
    else if w.drv.step == 16 then Running(w.(drv := w.drv.(step := 17, chipEnable := true)))
    else if w.drv.step == 17 then Running(w.(drv := w.drv.(ready := true)))
    else Running(w)
  }

  /**
   * The bring-up sequence with step 16 corrected: raising CE is followed at
   * once by step 17's action, so the sequence completes. The rest of the
   * model uses this definition.
   */
  function InitSequence(w: World): (o: Outcome)
    requires Wf(w)
    ensures Follows(w, o)
  {
    if w.drv.step < 16 then InitStepTransfer(w)
    else if w.drv.step == 16 then Running(w.(drv := w.drv.(step := 17, chipEnable := true, ready := true)))
    else if w.drv.step == 17 then Running(w.(drv := w.drv.(ready := true)))
    else Running(w)
  }

  /** `nrf24_init(role)`: reset the state and start the bring-up sequence. */
  function Init(role: Role): (o: Outcome)
    ensures o.Running? && Wf(o.w)
  {
    InitSequence(Reset(role))
  }

  /**
   * The end of `nrf24_init`: once `ready` is set the foreground stops
   * waiting and unmasks the IRQ line (the settle delay is not modelled).
   */
  function InitReturn(w: World): (o: Outcome)
    requires Wf(w)
    ensures Follows(w, o)
  {
    if w.drv.ready && !w.drv.initReturned then
      Running(w.(drv := w.drv.(irqUnmasked := true, initReturned := true)))
    else Running(w)
  }

  // ---------------------------------------------------------------- application calls

  /** `nrf24_commenceTransmission`: W_TX_PAYLOAD then the payload, no continuation. */
  function CommenceTransmission(w: World, payload: Payload): (o: Outcome)
    requires Wf(w)
    ensures Follows(w, o)
  {
    Transfer(w, [W_TX_PAYLOAD] + payload, None, ToByte(|payload| + 1), None)
  }

  /** `nrf24_transmit(data, length, eot)`; `data` is `None` for a NULL pointer. */
  function Transmit(w: World, data: Option<Payload>, eot: Option<CallbackId>): (o: Outcome)
    requires Wf(w)
    ensures Follows(w, o)
  {
    if w.drv.role != Transmitter then Halted(Assert(TransmitOutsideTx))
    else if w.drv.transmitting then Halted(Assert(TransmitWhileTransmitting))
    else if data.None? then Halted(Assert(NullData))
    else if !(0 < |data.value| <= 32) then Halted(Assert(BadLength))
    else CommenceTransmission(w.(drv := w.drv.(transmitting := true, txEot := eot)), data.value)
  }

  /** What `nrf24_IsBusy` returns, or the halt of its assertion. */
  datatype Answer = Answer(busy: bool) | Refused(why: Halt)

  /** `nrf24_IsBusy`: legal in TX mode only. */
  function IsBusy(w: World): (a: Answer)
    ensures a.Answer? <==> w.drv.role == Transmitter
    ensures a.Answer? ==> a.busy == w.drv.transmitting
    ensures a.Refused? ==> a.why == Assert(IsBusyOutsideTx)
  {
    if w.drv.role != Transmitter then Refused(Assert(IsBusyOutsideTx))
    else Answer(w.drv.transmitting)
  }

  /** `nrf24_receive(eot)`: registers the receive callback once; `eot` is `None` for NULL. */
  function Receive(w: World, eot: Option<CallbackId>): (o: Outcome)
    requires Wf(w)
    ensures Follows(w, o)
  {
    if w.drv.role != Receiver then Halted(Assert(ReceiveOutsideRx))
    else if w.drv.rxEot.Some? then Halted(Assert(SecondReceiveCallback))
    else if eot.None? then Halted(Assert(NullCallback))
    else Running(w.(drv := w.drv.(rxEot := eot)))
  }

  /**
   * `nrf24_storeAckPayload(data, length)`: raise `send_request`; while a
   * receive is in progress only remember the payload, otherwise upload it
   * with W_ACK_PAYLOAD for pipe 0.
   */
  function StoreAckPayload(w: World, payload: Payload): (o: Outcome)
    requires Wf(w)
    ensures Follows(w, o)
  {
    if w.drv.role != Receiver then Halted(Assert(StoreAckOutsideRx))
    else
      var d := w.drv.(sendRequest := true);
      if d.receiveRequest then Running(w.(drv := d.(deferred := payload, replayPending := true)))
      else Transfer(w.(drv := d.(replayPending := false)), [W_ACK_PAYLOAD_P0] + payload, None, ToByte(|payload| + 1), Some(StoreAckDone))
  }

  // ---------------------------------------------------------------- interrupt-driven handlers

  /** The one-byte NOP transfer that reads STATUS into the first input byte. */
  function StatusReadTransfer(w: World): (o: Outcome)
    requires Wf(w)
    ensures Follows(w, o)
  {
    Transfer(w, [NOP], Some(Input), 1, Some(ReadStatus))
  }

  /**
   * `nrf24_StoreAckDone` as written: the upload finished; clear
   * `send_request` and resume a receive that waited for it. Clearing the flag
   * forgets a payload remembered while the upload was in flight, so the
   * receive handling never replays it.
   */
  function AckStoredAsWritten(w: World): (o: Outcome)
    requires Wf(w)
    ensures Follows(w, o)
  {
    var d := w.drv.(sendRequest := false);
    if d.receiveRequest then StatusReadTransfer(w.(drv := d))
    else Running(w.(drv := d))
  }

  /**
   * The upload-finished handler with the lost replay corrected: `send_request`
   * stays raised while a remembered payload still awaits upload, so the end
   * of the receive handling uploads it. The rest of the model uses this
   * definition.
   */
  function AckStored(w: World): (o: Outcome)
    requires Wf(w)
    ensures Follows(w, o)
  {
    var d := w.drv.(sendRequest := w.drv.replayPending);
    if d.receiveRequest then StatusReadTransfer(w.(drv := d))
    else Running(w.(drv := d))
  }

  /**
   * `nrf24_irqISR`: before bring-up completes only mask the line; otherwise
   * mask it, and read STATUS unless (receiver) an ack upload is in flight, in
   * which case only `receive_request` is recorded.
   */
  function RadioIrq(w: World): (o: Outcome)
    requires Wf(w)
    ensures Follows(w, o)
  {
    if !w.drv.ready then Running(w.(drv := w.drv.(irqUnmasked := false)))
    else
      var d := w.drv.(irqUnmasked := false);
      if d.role == Receiver then
        var d' := d.(receiveRequest := true);
        if d'.sendRequest then Running(w.(drv := d'))
        else StatusReadTransfer(w.(drv := d'))
      else StatusReadTransfer(w.(drv := d))
  }

  /**
   * `nrf24_spiReadStatusCallback`: classify STATUS (now in the first input
   * byte) and clear the interrupt bits. A transmitter checks MAX_RT first,
   * then RX_DR; a receiver clears TX_DS and RX_DR.
   */
  function StatusRead(w: World): (o: Outcome)
    requires Wf(w)
    ensures Follows(w, o)
  {
    var status := w.mem[Input][0];
    if w.drv.role == Transmitter then
      if AnySet(status, MAX_RT) then
        Transfer(w, [WRITE_STATUS, MAX_RT], None, 2, Some(HandleMaxRt(RtCleared)))
      else if AnySet(status, RX_DR) then
        Transfer(w, [WRITE_STATUS, TX_DS_RX_DR], None, 2, Some(HandleTxAck(Cleared)))
      else
        Transfer(w, [WRITE_STATUS, TX_DS], None, 2, Some(HandleTx))
    else
      Transfer(w, [WRITE_STATUS, TX_DS_RX_DR], None, 2, Some(HandleRx(Cleared)))
  }

  /** `nrf24_spiHandleTXCallback`: TX_DS cleared; unmask, finish the transmission, report success. */
  function TxSent(w: World): (o: Outcome)
    requires Wf(w)
    ensures Follows(w, o)
  {
    var d := w.drv.(irqUnmasked := true, transmitting := false);
    Running(w.(drv := d, trace := w.trace + CallTx(d.txEot, true, None)))
  }

  /**
   * The payload bytes after the leading status byte of a payload read, or
   * `None` when the announced width runs past the output buffer (a width
   * that large cannot have been read into it).
   */
  function ReadBackPayload(w: World, width: byte): (p: Option<seq<byte>>)
    requires Wf(w)
    ensures p.Some? <==> 1 + width as int <= SCRATCH_SIZE
    ensures p.Some? ==> |p.value| == width as int && forall i :: 0 <= i < |p.value| ==> p.value[i] == w.mem[Output][1 + i]
  {
    if 1 + width as int <= |w.mem[Output]| then Some(w.mem[Output][1 .. 1 + width as int]) else None
  }

  /**
   * `nrf24_spiHandleTXACKCallback`: after TX_DS + RX_DR are cleared, unmask
   * and read the payload width (2 bytes into the TX length buffer); then read
   * width + 1 bytes into the output buffer; then finish the transmission and
   * report success with the payload.
   */
  function TxAckStep(w: World, stage: ReadBack): (o: Outcome)
    requires Wf(w)
    ensures Follows(w, o)
  {
    match stage
    case Cleared =>
      Transfer(w.(drv := w.drv.(irqUnmasked := true)), [R_RX_PL_WID], Some(TxReadLen), 2, Some(HandleTxAck(WidthKnown)))
    case WidthKnown =>
      var width := w.mem[TxReadLen][1];
      Transfer(w, [R_RX_PAYLOAD], Some(Output), ToByte(width as int + 1), Some(HandleTxAck(PayloadIn)))
    case PayloadIn =>
      var width := w.mem[TxReadLen][1];
      match ReadBackPayload(w, width)
      case None => Halted(Overrun)
      case Some(ack) =>
        var d := w.drv.(transmitting := false);
        Running(w.(drv := d, trace := w.trace + CallTx(d.txEot, true, Some(ack))))
  }

  /**
   * `nrf24_spiHandleMAXRTCallback`: after MAX_RT is cleared, unmask and
   * flush the TX FIFO; once flushed, finish the transmission and report
   * failure.
   */
  function MaxRtStep(w: World, stage: Flush): (o: Outcome)
    requires Wf(w)
    ensures Follows(w, o)
  {
    match stage
    case RtCleared =>
      Transfer(w.(drv := w.drv.(irqUnmasked := true)), [FLUSH_TX], None, 1, Some(HandleMaxRt(Flushed)))
    case Flushed =>
      var d := w.drv.(transmitting := false);
      Running(w.(drv := d, trace := w.trace + CallTx(d.txEot, false, None)))
  }

  /**
   * `nrf24_spiHandleRXCallback`: after TX_DS + RX_DR are cleared, unmask and
   * read the payload width (into the RX length buffer), then the payload;
   * then call the receive callback, clear `receive_request`, and replay a
   * remembered ack payload if `send_request` is set.
   */
  function RxStep(w: World, stage: ReadBack): (o: Outcome)
    requires Wf(w)
    ensures Follows(w, o)
  {
    match stage
    case Cleared =>
      Transfer(w.(drv := w.drv.(irqUnmasked := true)), [R_RX_PL_WID], Some(RxReadLen), 2, Some(HandleRx(WidthKnown)))
    case WidthKnown =>
      var width := w.mem[RxReadLen][1];
      Transfer(w, [R_RX_PAYLOAD], Some(Output), ToByte(width as int + 1), Some(HandleRx(PayloadIn)))
    case PayloadIn =>
      var width := w.mem[RxReadLen][1];
      match ReadBackPayload(w, width)
      case None => Halted(Overrun)
      case Some(data) =>
        var w1 := w.(trace := w.trace + CallRx(w.drv.rxEot, data));
        var w2 := w1.(drv := w1.drv.(receiveRequest := false));
        if w2.drv.sendRequest then StoreAckPayload(w2, w2.drv.deferred) else Running(w2)
  }

  /** Runs the continuation a finished transfer handed back. */
  function Dispatch(w: World, c: Cont): (o: Outcome)
    requires Wf(w)
    ensures Follows(w, o)
  {
    match c
    case InitSeq => InitSequence(w)
    case StoreAckDone => AckStored(w)
    case ReadStatus => StatusRead(w)
    case HandleTx => TxSent(w)
    case HandleTxAck(s) => TxAckStep(w, s)
    case HandleMaxRt(s) => MaxRtStep(w, s)
    case HandleRx(s) => RxStep(w, s)
  }

  /** After a finished transfer: run its continuation, if it has one. */
  function Finish(w: World, eot: Option<Cont>): (o: Outcome)
    requires Wf(w)
    ensures Follows(w, o)
  {
    if eot.Some? then Dispatch(w, eot.value) else Running(w)
  }

  // ---------------------------------------------------------------- events

  /** What the environment can do next. */
  datatype Event =
      /** The SPI completion interrupt, with the byte clocked in from the radio. */
    | SpiInterrupt(incoming: byte)
      /** A rising edge on the radio's IRQ line. */
    | RadioInterrupt
      /** The foreground's wait in `nrf24_init` ends. */
    | InitReturns
    | AppTransmit(data: Option<Payload>, eot: Option<CallbackId>)
    | AppReceive(eot: Option<CallbackId>)
    | AppStoreAck(payload: Payload)

  /**
   * One event. The SPI interrupt is only enabled while a transfer is in
   * flight and the IRQ pin interrupt only while unmasked, so a masked
   * interrupt does nothing. A halted system stays halted.
   */
  function Step(o: Outcome, ev: Event): (o': Outcome)
    requires o.Running? ==> Wf(o.w)
    ensures o.Halted? ==> o' == o
    ensures o.Running? ==> Follows(o.w, o')
  {
    match o
    case Halted(_) => o
    case Running(w) =>
      match ev
      case SpiInterrupt(b) =>
        if !w.spi.IsBusy() then o
        else
          var f := Spi.ByteDone(w.spi, w.mem, b);
          var w' := w.(spi := f.engine, mem := f.mem);
          assert MemOk(w'.mem);
          (match f
           case Pumped(_, _, _) => Running(w')
           case Finished(_, _, eot) => Finish(w', eot))
      case RadioInterrupt => if w.drv.irqUnmasked then RadioIrq(w) else o
      case InitReturns => InitReturn(w)
      case AppTransmit(data, eot) => Transmit(w, data, eot)
      case AppReceive(eot) => Receive(w, eot)
      case AppStoreAck(payload) => StoreAckPayload(w, payload)
  }

  /** A sequence of events, in order. */
  function Run(o: Outcome, evs: seq<Event>): (o': Outcome)
    requires o.Running? ==> Wf(o.w)
    ensures o'.Running? ==> Wf(o'.w)
    ensures o.Halted? ==> o' == o
    ensures o.Running? && o'.Running? ==> o.w.trace <= o'.w.trace
    decreases |evs|
  {
    if evs == [] then o else Run(Step(o, evs[0]), evs[1..])
  }

  /** The SPI interrupts that clock in `bs`. */
  function Clocked(bs: seq<byte>): (evs: seq<Event>)
    ensures |evs| == |bs|
    ensures forall i :: 0 <= i < |bs| ==> evs[i] == SpiInterrupt(bs[i])
  {
    seq(|bs|, i requires 0 <= i < |bs| => SpiInterrupt(bs[i]))
  }
}
