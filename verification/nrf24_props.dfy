/**
 * Properties of the nRF24 driver model: whole transfers as seen through the
 * event interface, the bring-up sequence, the transmit, acknowledgement and
 * receive protocols end to end, and the two defects of the source.
 */
module Nrf24Props {
  import opened Base
  import Spi
  import opened Nrf24Wire
  import opened Nrf24

  // ---------------------------------------------------------------- running events

  /** Running `a` then `b` is running `a + b`. */
  lemma {:induction false} RunAppend(o: Outcome, a: seq<Event>, b: seq<Event>)
    requires o.Running? ==> Wf(o.w)
    ensures Run(o, a + b) == Run(Run(o, a), b)
    decreases |a|
  {
    if a == [] {
      assert a + b == b;
    } else {
      assert (a + b)[0] == a[0];
      assert (a + b)[1..] == a[1..] + b;
      RunAppend(Step(o, a[0]), a[1..], b);
    }
  }

  /** Running one event is one step. */
  lemma RunOne(o: Outcome, ev: Event)
    requires o.Running? ==> Wf(o.w)
    ensures Run(o, [ev]) == Step(o, ev)
  {
    assert [ev][1..] == [];
  }

  /** The interrupts for `a + b` are those for `a` then those for `b`. */
  lemma ClockedAppend(a: seq<byte>, b: seq<byte>)
    ensures Clocked(a + b) == Clocked(a) + Clocked(b)
  {
  }

  /** The world once the in-flight transfer has clocked in `bs`: idle, deselected, `bs` stored. */
  function Settled(w: World, bs: seq<byte>): (v: World)
    requires Wf(w) && w.spi.IsBusy()
    requires |bs| == w.spi.current.value.length as int - w.spi.current.value.index
    ensures Wf(v) && !v.spi.IsBusy() && v.drv == w.drv && v.trace == w.trace && v.spi.mode == w.spi.mode
  {
    var d := w.spi.current.value;
    w.(spi := w.spi.(current := None, selected := false), mem := Spi.Stored(w.mem, d.read, d.index, bs))
  }

  /**
   * A transfer in flight, fed the SPI interrupts for its remaining bytes,
   * completes: the incoming bytes are stored, the engine goes idle, and the
   * transfer's continuation runs.
   */
  lemma {:induction false} Exchange(w: World, bs: seq<byte>)
    requires Wf(w) && w.spi.IsBusy()
    requires |bs| == w.spi.current.value.length as int - w.spi.current.value.index
    ensures Run(Running(w), Clocked(bs)) == Finish(Settled(w, bs), w.spi.current.value.eot)
    decreases |bs|
  {
    var d := w.spi.current.value;
    var evs := Clocked(bs);
    assert evs[1..] == Clocked(bs[1..]);
    var f := Spi.ByteDone(w.spi, w.mem, bs[0]);
    var w' := w.(spi := f.engine, mem := f.mem);
    assert Step(Running(w), evs[0]) == (if f.Pumped? then Running(w') else Finish(w', f.eot));
    if f.Pumped? {
      Exchange(w', bs[1..]);
      Spi.DriveStep(w.spi, w.mem, bs);
      assert Settled(w', bs[1..]) == Settled(w, bs);
    } else {
      assert bs == [bs[0]];
      Spi.PokedStored(w.mem, d.read, d.index, bs[0]);
    }
  }

  /** A one-byte STATUS read is in flight, as `nrf24_irqISR` and `nrf24_StoreAckDone` start it. */
  predicate StatusInFlight(w: World)
  {
    && Wf(w)
    && w.spi.current == Some(Spi.Descriptor(Input, Some(Input), 1, 0, Some(ReadStatus)))
  }

  /** `o` is a bus transfer whose bytes begin with `head`, reading into `read`, continuing with `cont`. */
  predicate Sent(o: Obs, head: seq<byte>, read: Option<Buf>, cont: Option<Cont>)
  {
    o.Issued? && head <= o.bytes && o.read == read && o.cont == cont
  }

  // ---------------------------------------------------------------- bring-up

  /** The transfers of bring-up steps 0 to k - 1, in order. */
  function BringUpTrace(k: nat, rx: bool): (t: seq<Obs>)
    requires k <= 16
    ensures |t| == k
    ensures forall i :: 0 <= i < k ==> t[i] == Issued(InitPacket(i, rx), None, Some(InitSeq))
  {
    if k == 0 then [] else BringUpTrace(k - 1, rx) + [Issued(InitPacket(k - 1, rx), None, Some(InitSeq))]
  }

  /** The driver state while the packet of bring-up step k is on the bus. */
  function Configuring(role: Role, k: nat): Driver
  {
    Driver(role, false, k + 1, false, false, false, false, None, None, false, false, [], false)
  }

  /** Bring-up step k's packet is on the bus and steps before it are done. */
  predicate InitInFlight(w: World, k: nat)
  {
    && k < 16
    && Wf(w)
    && w.drv == Configuring(w.drv.role, k)
    && w.spi.mode == Some(Spi.ModeFor(SPI_CPOL, SPI_CPHA))
    && w.spi.current == Some(Spi.Descriptor(Input, None, InitPacketLength(k), 0, Some(InitSeq)))
    && w.trace == BringUpTrace(k + 1, w.drv.role == Receiver)
  }

  /** `nrf24_init` configures the bus and puts step 0's packet on it. */
  lemma InitStarts(role: Role)
    ensures Init(role).Running? && InitInFlight(Init(role).w, 0)
  {
    var p := InitPacket(0, role == Receiver);
    assert Init(role).w.trace == [Issued(Fill(Reset(role).mem, p)[Input][..|p|], None, Some(InitSeq))];
  }

  /** Completing step k's transfer puts step k + 1's packet on the bus (k < 15). */
  lemma InitAdvances(w: World, k: nat, bs: seq<byte>) returns (u: World)
    requires InitInFlight(w, k) && k < 15
    requires |bs| == InitPacketLength(k)
    ensures Run(Running(w), Clocked(bs)) == Running(u)
    ensures InitInFlight(u, k + 1) && u.drv.role == w.drv.role
  {
    Exchange(w, bs);
    var rx := w.drv.role == Receiver;
    var v := Settled(w, bs);
    var p := InitPacket(k + 1, rx);
    var o := InitSequence(v);
    assert o == Transfer(v.(drv := v.drv.(step := k + 2)), p, None, |p|, Some(InitSeq));
    assert o.w.trace == BringUpTrace(k + 1, rx) + [Issued(p, None, Some(InitSeq))];
    u := o.w;
  }

  /**
   * Completing step 15's transfer (power-up) settles the bus and, with step
   * 16 corrected, raises CE and finishes bring-up: step 17, ready.
   */
  lemma InitCompletes(w: World, bs: seq<byte>) returns (v: World)
    requires InitInFlight(w, 15)
    requires |bs| == 2
    ensures Run(Running(w), Clocked(bs)) == Running(v)
    ensures v.drv == w.drv.(step := 17, chipEnable := true, ready := true)
    ensures !v.spi.IsBusy() && v.spi.mode == w.spi.mode && v.trace == w.trace
  {
    LastInFlight(w, bs);
    Exchange(w, bs);
    v := Settled(w, bs).(drv := w.drv.(step := 17, chipEnable := true, ready := true));
  }

  /** The power-up write is on the bus with its two bytes still to go. */
  lemma LastInFlight(w: World, bs: seq<byte>)
    requires w.spi.current == Some(Spi.Descriptor(Input, None, InitPacketLength(15), 0, Some(InitSeq))) && |bs| == 2
    ensures |bs| == w.spi.current.value.length as int - w.spi.current.value.index
  {
  }

  /** Concatenation of the incoming bytes of successive transfers. */
  function Flatten(ins: seq<seq<byte>>): (bs: seq<byte>)
  {
    if ins == [] then [] else ins[0] + Flatten(ins[1..])
  }

  /** Running the interrupts of successive transfers is running those of the first, then the rest. */
  lemma RunFlatten(o: Outcome, ins: seq<seq<byte>>)
    requires o.Running? ==> Wf(o.w)
    requires ins != []
    ensures Run(o, Clocked(Flatten(ins))) == Run(Run(o, Clocked(ins[0])), Clocked(Flatten(ins[1..])))
  {
    ClockedAppend(ins[0], Flatten(ins[1..]));
    RunAppend(o, Clocked(ins[0]), Clocked(Flatten(ins[1..])));
  }

  /** The bring-up from step k on reaches the ready state; the property `BringUpFrom` proves. */
  predicate BroughtUp(role: Role, o: Outcome)
  {
    && o.Running?
    && o.w.drv == Configuring(role, 16).(ready := true, chipEnable := true)
    && !o.w.spi.IsBusy() && o.w.spi.mode == Some(Spi.ModeFor(SPI_CPOL, SPI_CPHA))
    && o.w.trace == BringUpTrace(16, role == Receiver)
  }

  /** The incoming bytes `ins` fit the transfers of steps k onwards. */
  predicate Fitting(ins: seq<seq<byte>>, k: nat)
  {
    && |ins| == 16 - k
    && forall i :: 0 <= i < |ins| ==> |ins[i]| == InitPacketLength(k + i)
  }

  /** The bytes for the remaining steps after the first. */
  lemma FittingTail(ins: seq<seq<byte>>, k: nat)
    requires k < 15 && Fitting(ins, k)
    ensures Fitting(ins[1..], k + 1)
  {
    forall i | 0 <= i < |ins[1..]|
      ensures |ins[1..][i]| == InitPacketLength(k + 1 + i)
    {
      assert ins[1..][i] == ins[i + 1];
    }
  }

  /** The events of bring-up from step k's transfer on. */
  lemma {:induction false} BringUpFrom(w: World, k: nat, ins: seq<seq<byte>>)
    requires InitInFlight(w, k)
    requires Fitting(ins, k)
    ensures BroughtUp(w.drv.role, Run(Running(w), Clocked(Flatten(ins))))
    decreases 16 - k
  {
    if k == 15 {
      FittingLast(ins);
      BringUpLast(w, ins);
    } else {
      RunFlatten(Running(w), ins);
      var u := InitAdvances(w, k, ins[0]);
      FittingTail(ins, k);
      BringUpFrom(u, k + 1, ins[1..]);
    }
  }

  /** The last step of `BringUpFrom`: the power-up write completes the bring-up. */
  lemma BringUpLast(w: World, ins: seq<seq<byte>>)
    requires InitInFlight(w, 15)
    requires |ins| == 1 && |ins[0]| == 2
    ensures BroughtUp(w.drv.role, Run(Running(w), Clocked(Flatten(ins))))
  {
    var v := InitCompletes(w, ins[0]);
    FlattenOne(ins);
    assert v.drv == Configuring(w.drv.role, 16).(ready := true, chipEnable := true);
  }

  /** The bytes fitting the last step are the power-up write's two. */
  lemma FittingLast(ins: seq<seq<byte>>)
    requires Fitting(ins, 15)
    ensures |ins| == 1 && |ins[0]| == 2
  {
    assert |ins[0]| == InitPacketLength(15 + 0);
  }

  /** The bytes of a single transfer. */
  lemma FlattenOne(ins: seq<seq<byte>>)
    requires |ins| == 1
    ensures Flatten(ins) == ins[0]
  {
    assert ins[1..] == [];
    assert ins[0] + [] == ins[0];
  }

  /**
   * Bring-up end to end: whatever bytes the radio clocks back, the driver
   * sends the sixteen configuration packets in order, each only after the
   * previous one completed, configures the bus as mode 0, then raises CE and
   * is ready, with the bus idle.
   */
  lemma BringUp(role: Role, ins: seq<seq<byte>>)
    requires |ins| == 16
    requires forall i :: 0 <= i < 16 ==> |ins[i]| == |InitPacket(i, role == Receiver)|
    ensures var o := Run(Init(role), Clocked(Flatten(ins)));
      && o.Running?
      && o.w.drv.step == 17 && o.w.drv.ready && o.w.drv.chipEnable && !o.w.drv.irqUnmasked
      && !o.w.spi.IsBusy() && o.w.spi.mode == Some(Spi.Moto0)
      && o.w.trace == BringUpTrace(16, role == Receiver)
  {
    InitStarts(role);
    BringUpFrom(Init(role).w, 0, ins);
  }

  /**
   * The end of `nrf24_init`: once bring-up is done, the first `InitReturns`
   * unmasks the IRQ line and records the return, and changes nothing else;
   * before bring-up is done it does nothing, and a second one does nothing.
   */
  lemma InitReturnOnce(w: World)
    requires Wf(w)
    ensures var o := Step(Running(w), InitReturns);
      && o.Running?
      && o.w.spi == w.spi && o.w.mem == w.mem && o.w.trace == w.trace
      && o.w.drv.(irqUnmasked := w.drv.irqUnmasked, initReturned := w.drv.initReturned) == w.drv
      && (w.drv.ready && !w.drv.initReturned ==> o.w.drv.irqUnmasked && o.w.drv.initReturned)
      && (!w.drv.ready || w.drv.initReturned ==> o.w == w)
      && Step(o, InitReturns) == o
  {
  }

  /**
   * Bring-up followed by the end of `nrf24_init`: the driver is ready with the
   * IRQ line unmasked, idle, with no callback, request or transmission
   * pending, and the bus has carried exactly the sixteen configuration packets.
   */
  lemma Operational(role: Role, ins: seq<seq<byte>>)
    requires |ins| == 16
    requires forall i :: 0 <= i < 16 ==> |ins[i]| == |InitPacket(i, role == Receiver)|
    ensures var o := Run(Init(role), Clocked(Flatten(ins)) + [InitReturns]);
      && o.Running?
      && o.w.drv.ready && o.w.drv.irqUnmasked && o.w.drv.initReturned && o.w.drv.chipEnable
      && !o.w.spi.IsBusy() && !o.w.drv.transmitting && o.w.drv.rxEot.None?
      && !o.w.drv.receiveRequest && !o.w.drv.sendRequest && o.w.drv.deferred == []
      && o.w.trace == BringUpTrace(16, role == Receiver)
  {
    InitStarts(role);
    BringUpFrom(Init(role).w, 0, ins);
    var up := Run(Init(role), Clocked(Flatten(ins)));
    RunAppend(Init(role), Clocked(Flatten(ins)), [InitReturns]);
    RunOne(up, InitReturns);
    InitReturnOnce(up.w);
  }

  /** The two bring-up definitions agree on steps 0 to 15. */
  lemma SameEarlySteps(w: World)
    requires Wf(w) && w.drv.step < 16
    ensures InitSequenceAsWritten(w) == InitSequence(w)
  {
  }

  /**
   * What holds after the as-written step 16: not ready, the IRQ line masked,
   * no receive pending, step 17, and no bring-up continuation on the bus.
   * The stall lemmas run the world's `Step`, which uses the corrected
   * definitions; that is the as-written behaviour here because both
   * corrections are out of reach: with no `InitSeq` continuation on the
   * bus the corrected step 16 never runs, and with `replayPending` down the
   * corrected upload handler clears `send_request` as the source does.
   */
  predicate Stalled(w: World)
  {
    && Wf(w)
    && !w.drv.ready && !w.drv.irqUnmasked && !w.drv.receiveRequest && !w.drv.replayPending
    && w.drv.step == 17
    && (w.spi.IsBusy() ==> w.spi.current.value.eot in {None, Some(StoreAckDone)})
  }

  /** No event leaves the stall: every event keeps `Stalled` or halts. */
  lemma StallStep(w: World, ev: Event)
    requires Stalled(w)
    ensures var o := Step(Running(w), ev); o.Running? ==> Stalled(o.w)
  {
    match ev {
      case SpiInterrupt(b) =>
        if w.spi.IsBusy() {
          var f := Spi.ByteDone(w.spi, w.mem, b);
          assert f.Finished? ==> f.eot == w.spi.current.value.eot;
        }
      case _ =>
    }
  }

  /** The stall is permanent. */
  lemma {:induction false} StallRun(w: World, evs: seq<Event>)
    requires Stalled(w)
    ensures var o := Run(Running(w), evs); o.Running? ==> Stalled(o.w)
    decreases |evs|
  {
    if evs != [] {
      StallStep(w, evs[0]);
      var o := Step(Running(w), evs[0]);
      if o.Running? {
        StallRun(o.w, evs[1..]);
      }
    }
  }

  /**
   * As written, the completion of the power-up write (step 15) runs step 16,
   * which raises CE but starts no transfer; step 17, the only step that sets
   * `init`, never runs, and no later event makes the driver ready, so
   * `nrf24_init` waits forever. With step 16 corrected the same completion
   * makes it ready.
   */
  lemma InitStallsAsWritten(w: World, bs: seq<byte>, evs: seq<Event>) returns (v: World)
    requires InitInFlight(w, 15) && |bs| == 2
    ensures Wf(v) && Run(Running(w), Clocked(bs)) == InitSequence(v)
    ensures v.drv == w.drv && v.drv.step == 16 && !v.spi.IsBusy()
    ensures InitSequenceAsWritten(v).Running?
    ensures var o := Run(InitSequenceAsWritten(v), evs); o.Running? ==> !o.w.drv.ready
    ensures InitSequence(v).Running? && InitSequence(v).w.drv.ready
  {
    LastInFlight(w, bs);
    Exchange(w, bs);
    v := Settled(w, bs);
    StallRun(InitSequenceAsWritten(v).w, evs);
  }

  // ---------------------------------------------------------------- transmit

  /** `nrf24_transmit`'s assertions, in the order it checks them. */
  lemma TransmitChecks(w: World, data: Option<Payload>, eot: Option<CallbackId>)
    requires Wf(w)
    ensures var o := Transmit(w, data, eot);
      && (w.drv.role != Transmitter ==> o == Halted(Assert(TransmitOutsideTx)))
      && (w.drv.role == Transmitter && w.drv.transmitting ==> o == Halted(Assert(TransmitWhileTransmitting)))
      && (w.drv.role == Transmitter && !w.drv.transmitting && data.None? ==> o == Halted(Assert(NullData)))
      && (w.drv.role == Transmitter && !w.drv.transmitting && data.Some? && !(1 <= |data.value| <= 32) ==>
            o == Halted(Assert(BadLength)))
  {
  }

  /**
   * A valid transmit request on an idle bus sends W_TX_PAYLOAD followed by
   * the payload, with no continuation, and marks the driver busy with the
   * given callback.
   */
  lemma TransmitSends(w: World, data: Payload, eot: Option<CallbackId>)
    requires Wf(w) && w.drv.role == Transmitter && !w.drv.transmitting && !w.spi.IsBusy()
    requires 1 <= |data| <= 32
    ensures var o := Transmit(w, Some(data), eot);
      && o.Running?
      && o.w.drv == w.drv.(transmitting := true, txEot := eot)
      && o.w.trace == w.trace + [Issued([W_TX_PAYLOAD] + data, None, None)]
      && o.w.spi.current == Some(Spi.Descriptor(Input, None, |data| + 1, 0, None))
  {
  }

  /**
   * On an idle bus, a TX-mode driver with a valid payload in hand: `nrf24_IsBusy`
   * answers "not busy" exactly when `nrf24_transmit` would accept the payload.
   */
  lemma IsBusyGatesTransmit(w: World, data: Payload, eot: Option<CallbackId>)
    requires Wf(w) && w.drv.role == Transmitter && !w.spi.IsBusy()
    requires 1 <= |data| <= 32
    ensures IsBusy(w) == Answer(false) <==> Transmit(w, Some(data), eot).Running?
  {
    if !w.drv.transmitting {
      TransmitSends(w, data, eot);
    }
  }

  /** The STATUS read started on a radio interrupt, with NOP as the byte sent. */
  lemma StatusReadStarts(w: World)
    requires Wf(w) && !w.spi.IsBusy()
    ensures var o := StatusReadTransfer(w);
      && o.Running? && StatusInFlight(o.w) && o.w.drv == w.drv
      && o.w.trace == w.trace + [Issued([NOP], Some(Input), Some(ReadStatus))]
  {
  }

  /**
   * Classification of STATUS by a transmitter: MAX_RT takes precedence and
   * clears MAX_RT only; otherwise RX_DR clears TX_DS and RX_DR and goes on
   * to read the ack payload; otherwise TX_DS alone is cleared. A receiver
   * always clears TX_DS and RX_DR. The STATUS byte is the one the read
   * clocked in.
   */
  lemma StatusClassified(w: World, status: byte)
    requires StatusInFlight(w)
    ensures var v := Settled(w, [status]);
      var o := StatusRead(v);
      && v.mem[Input][0] == status
      && o.Running? && o.w.drv == w.drv && |o.w.trace| == |w.trace| + 1 && w.trace <= o.w.trace
      && o.w.spi.IsBusy() && o.w.spi.current.value.read.None?
      && (w.drv.role == Transmitter && AnySet(status, MAX_RT) ==>
            Sent(o.w.trace[|w.trace|], [0x27, 0x10], None, Some(HandleMaxRt(RtCleared))))
      && (w.drv.role == Transmitter && !AnySet(status, MAX_RT) && AnySet(status, RX_DR) ==>
            Sent(o.w.trace[|w.trace|], [0x27, 0x60], None, Some(HandleTxAck(Cleared))))
      && (w.drv.role == Transmitter && !AnySet(status, MAX_RT) && !AnySet(status, RX_DR) ==>
            Sent(o.w.trace[|w.trace|], [0x27, 0x20], None, Some(HandleTx)))
      && (w.drv.role == Receiver ==>
            Sent(o.w.trace[|w.trace|], [0x27, 0x60], None, Some(HandleRx(Cleared))))
  {
    var v := Settled(w, [status]);
    assert v.mem[Input] == [status] + w.mem[Input][1..];
  }

  /** The transmitter's callbacks run only after `transmitting` is cleared, so each may start the next transmission. */
  lemma CallbackMayRetransmit(w: World, data: Payload, eot: Option<CallbackId>, ack: seq<byte>)
    requires Wf(w) && w.drv.role == Transmitter && !w.spi.IsBusy()
    requires 1 <= |data| <= 32
    ensures TxSent(w).Running? && Transmit(TxSent(w).w, Some(data), eot).Running?
    ensures MaxRtStep(w, Flushed).Running? && Transmit(MaxRtStep(w, Flushed).w, Some(data), eot).Running?
    ensures TxAckStep(w, PayloadIn).Running? ==> Transmit(TxAckStep(w, PayloadIn).w, Some(data), eot).Running?
  {
  }

  /**
   * The common start of every transmission: the payload write, then on the
   * radio interrupt (line masked) the STATUS read, which clocks in `status`.
   * `x` is the world when the read completes.
   */
  lemma TransmitToStatus(w: World, data: Payload, eot: Option<CallbackId>, b1: seq<byte>, status: byte)
    returns (x: World)
    requires Wf(w) && w.drv.role == Transmitter && w.drv.ready && w.drv.irqUnmasked
    requires !w.drv.transmitting && !w.spi.IsBusy()
    requires 1 <= |data| <= 32 && |b1| == |data| + 1
    ensures Wf(x) && !x.spi.IsBusy()
    ensures Run(Running(w), [AppTransmit(Some(data), eot)] + Clocked(b1) + [RadioInterrupt] + Clocked([status]))
            == StatusRead(x)
    ensures x.drv == w.drv.(transmitting := true, txEot := eot, irqUnmasked := false)
    ensures x.mem[Input][0] == status
    ensures x.trace == w.trace + [Issued([W_TX_PAYLOAD] + data, None, None), Issued([NOP], Some(Input), Some(ReadStatus))]
  {
    var v := PayloadWritten(w, data, eot, b1);
    x := StatusReadRuns(v, status);
    var head := [AppTransmit(Some(data), eot)] + Clocked(b1);
    RunAppend(Running(w), head, [RadioInterrupt] + Clocked([status]));
    Assoc(head, [RadioInterrupt], Clocked([status]));
  }

  /** The payload write of `nrf24_transmit` completes; it has no continuation, so the driver waits for the radio. */
  lemma PayloadWritten(w: World, data: Payload, eot: Option<CallbackId>, b1: seq<byte>) returns (v: World)
    requires Wf(w) && w.drv.role == Transmitter && !w.drv.transmitting && !w.spi.IsBusy()
    requires 1 <= |data| <= 32 && |b1| == |data| + 1
    ensures Run(Running(w), [AppTransmit(Some(data), eot)] + Clocked(b1)) == Running(v)
    ensures Wf(v) && !v.spi.IsBusy() && v.drv == w.drv.(transmitting := true, txEot := eot)
    ensures v.trace == w.trace + [Issued([W_TX_PAYLOAD] + data, None, None)]
  {
    var o1 := Run(Running(w), [AppTransmit(Some(data), eot)]);
    TransmitSends(w, data, eot);
    RunOne(Running(w), AppTransmit(Some(data), eot));
    Exchange(o1.w, b1);
    RunAppend(Running(w), [AppTransmit(Some(data), eot)], Clocked(b1));
    v := Settled(o1.w, b1);
  }

  /** A transmitter's radio interrupt masks the line and reads STATUS, which clocks in `status`. */
  lemma StatusReadRuns(v: World, status: byte) returns (x: World)
    requires Wf(v) && v.drv.role == Transmitter && v.drv.ready && v.drv.irqUnmasked && !v.spi.IsBusy()
    ensures Wf(x) && !x.spi.IsBusy() && x.drv == v.drv.(irqUnmasked := false) && x.mem[Input][0] == status
    ensures Run(Running(v), [RadioInterrupt] + Clocked([status])) == StatusRead(x)
    ensures x.trace == v.trace + [Issued([NOP], Some(Input), Some(ReadStatus))]
  {
    var o3 := Run(Running(v), [RadioInterrupt]);
    RunOne(Running(v), RadioInterrupt);
    StatusReadStarts(v.(drv := v.drv.(irqUnmasked := false)));
    Exchange(o3.w, [status]);
    StatusClassified(o3.w, status);
    RunAppend(Running(v), [RadioInterrupt], Clocked([status]));
    x := Settled(o3.w, [status]);
  }

  /**
   * A transmission whose packet is acknowledged without payload: W_TX_PAYLOAD
   * and the data, then on the radio interrupt the STATUS read, clearing
   * TX_DS, and the callback reporting success. The IRQ line is masked from
   * the interrupt until TX_DS is cleared, and the driver is idle at the end.
   */
  lemma TransmitAcked(w: World, data: Payload, eot: Option<CallbackId>,
                      b1: seq<byte>, status: byte, b3: seq<byte>)
    requires Wf(w) && w.drv.role == Transmitter && w.drv.ready && w.drv.irqUnmasked
    requires !w.drv.transmitting && !w.spi.IsBusy()
    requires 1 <= |data| <= 32 && |b1| == |data| + 1 && |b3| == 2
    requires !AnySet(status, MAX_RT) && !AnySet(status, RX_DR)
    ensures var o := Run(Running(w), [AppTransmit(Some(data), eot)] + Clocked(b1) + [RadioInterrupt]
                                     + Clocked([status]) + Clocked(b3));
      && o.Running?
      && o.w.trace == w.trace + [Issued([W_TX_PAYLOAD] + data, None, None),
                                 Issued([NOP], Some(Input), Some(ReadStatus)),
                                 Issued([0x27, 0x20], None, Some(HandleTx))]
                              + CallTx(eot, true, None)
      && !o.w.drv.transmitting && o.w.drv.irqUnmasked && !o.w.spi.IsBusy()
  {
    var pre := [AppTransmit(Some(data), eot)] + Clocked(b1) + [RadioInterrupt] + Clocked([status]);
    var x := TransmitToStatus(w, data, eot, b1, status);
    AckedTail(x, status, b3);
    RunAppend(Running(w), pre, Clocked(b3));
  }

  /** The part of `TransmitAcked` after the STATUS read: TX_DS cleared, success reported. */
  lemma AckedTail(x: World, status: byte, b3: seq<byte>)
    requires Wf(x) && !x.spi.IsBusy() && x.mem[Input][0] == status && x.drv.role == Transmitter
    requires !AnySet(status, MAX_RT) && !AnySet(status, RX_DR) && |b3| == 2
    ensures var o := Run(StatusRead(x), Clocked(b3));
      && o.Running?
      && o.w.trace == x.trace + [Issued([0x27, 0x20], None, Some(HandleTx))] + CallTx(x.drv.txEot, true, None)
      && !o.w.drv.transmitting && o.w.drv.irqUnmasked && !o.w.spi.IsBusy()
  {
    StatusClassifiedIdle(x, status);
    var o4 := StatusRead(x);
    assert o4.w.trace[|x.trace|].bytes == [0x27, 0x20];
    Exchange(o4.w, b3);
  }

  /**
   * A transmission that exhausts its retransmits: STATUS shows MAX_RT, which
   * is cleared, the TX FIFO is flushed, and the callback reports failure.
   */
  lemma TransmitFails(w: World, data: Payload, eot: Option<CallbackId>,
                      b1: seq<byte>, status: byte, b3: seq<byte>, b4: byte) returns (v: World)
    requires Wf(w) && w.drv.role == Transmitter && w.drv.ready && w.drv.irqUnmasked
    requires !w.drv.transmitting && !w.spi.IsBusy()
    requires 1 <= |data| <= 32 && |b1| == |data| + 1 && |b3| == 2
    requires AnySet(status, MAX_RT)
    ensures Run(Running(w), [AppTransmit(Some(data), eot)] + Clocked(b1) + [RadioInterrupt]
                            + Clocked([status]) + Clocked(b3) + Clocked([b4])) == Running(v)
    ensures v.trace == w.trace + [Issued([W_TX_PAYLOAD] + data, None, None),
                                  Issued([NOP], Some(Input), Some(ReadStatus)),
                                  Issued([0x27, 0x10], None, Some(HandleMaxRt(RtCleared))),
                                  Issued([FLUSH_TX], None, Some(HandleMaxRt(Flushed)))]
                               + CallTx(eot, false, None)
    ensures !v.drv.transmitting && v.drv.irqUnmasked && !v.spi.IsBusy()
  {
    var pre := [AppTransmit(Some(data), eot)] + Clocked(b1) + [RadioInterrupt] + Clocked([status]);
    var x := TransmitToStatus(w, data, eot, b1, status);
    v := FailedTail(x, status, b3, b4);
    RunAppend(Running(w), pre, Clocked(b3) + Clocked([b4]));
    Assoc(pre, Clocked(b3), Clocked([b4]));
  }

  /** The part of `TransmitFails` after the STATUS read: MAX_RT cleared, TX FIFO flushed, failure reported. */
  lemma FailedTail(x: World, status: byte, b3: seq<byte>, b4: byte) returns (v: World)
    requires Wf(x) && !x.spi.IsBusy() && x.mem[Input][0] == status && x.drv.role == Transmitter
    requires AnySet(status, MAX_RT) && |b3| == 2
    ensures Run(StatusRead(x), Clocked(b3) + Clocked([b4])) == Running(v)
    ensures v.trace == x.trace + [Issued([0x27, 0x10], None, Some(HandleMaxRt(RtCleared))),
                                  Issued([FLUSH_TX], None, Some(HandleMaxRt(Flushed)))]
                               + CallTx(x.drv.txEot, false, None)
    ensures !v.drv.transmitting && v.drv.irqUnmasked && !v.spi.IsBusy()
  {
    var m := MaxRtCleared(x, status, b3);
    Exchange(m, [b4]);
    v := MaxRtStep(Settled(m, [b4]), Flushed).w;
    RunAppend(StatusRead(x), Clocked(b3), Clocked([b4]));
  }

  /** MAX_RT cleared: the write of the clearing bits completes and the TX FIFO flush goes on the bus. */
  lemma MaxRtCleared(x: World, status: byte, b3: seq<byte>) returns (m: World)
    requires Wf(x) && !x.spi.IsBusy() && x.mem[Input][0] == status && x.drv.role == Transmitter
    requires AnySet(status, MAX_RT) && |b3| == 2
    ensures Run(StatusRead(x), Clocked(b3)) == Running(m)
    ensures Wf(m) && m.drv == x.drv.(irqUnmasked := true)
    ensures m.spi.current == Some(Spi.Descriptor(Input, None, 1, 0, Some(HandleMaxRt(Flushed))))
    ensures m.trace == x.trace + [Issued([0x27, 0x10], None, Some(HandleMaxRt(RtCleared))),
                                  Issued([FLUSH_TX], None, Some(HandleMaxRt(Flushed)))]
  {
    StatusClassifiedIdle(x, status);
    var o4 := StatusRead(x);
    assert o4.w.trace[|x.trace|].bytes == [0x27, 0x10];
    Exchange(o4.w, b3);
    m := MaxRtStep(Settled(o4.w, b3), RtCleared).w;
  }

  /**
   * Reading a payload back: the width read (two bytes into `lenBuf`, the
   * width second) and the payload read (width + 1 bytes into the output
   * buffer, the status byte first). `z` is the world when the payload read
   * completes: the width and the payload are where the last stage reads
   * them, and only the IRQ line changed in the driver.
   */
  lemma ReadBackPayloadRuns(x: World, lenBuf: Buf, wid: seq<byte>, y: byte, data: seq<byte>)
    returns (z: World)
    requires Wf(x) && x.spi.IsBusy() && lenBuf in {TxReadLen, RxReadLen}
    requires x.spi.current.value == Spi.Descriptor(Input, Some(lenBuf), 2, 0, Some(ReadStage(lenBuf, WidthKnown)))
    requires |wid| == 2 && wid[1] as int == |data| && |data| + 1 <= SCRATCH_SIZE
    ensures Wf(z) && !z.spi.IsBusy() && z.drv == x.drv
    ensures var stage := ReadStage(lenBuf, PayloadIn);
      var o := Run(Running(x), Clocked(wid) + Clocked([y] + data));
      && (lenBuf == TxReadLen ==> o == TxAckStep(z, PayloadIn))
      && (lenBuf == RxReadLen ==> o == RxStep(z, PayloadIn))
      && |z.trace| == |x.trace| + 1 && x.trace <= z.trace
      && Sent(z.trace[|x.trace|], [R_RX_PAYLOAD], Some(Output), Some(stage))
      && z.mem[lenBuf][1] as int == |data|
      && ReadBackPayload(z, |data|) == Some(data)
  {
    var u := WidthReadRuns(x, lenBuf, wid, data);
    z := PayloadReadRuns(u, lenBuf, y, data);
    RunAppend(Running(x), Clocked(wid), Clocked([y] + data));
  }

  /** The continuation of a payload-read stage for the given length buffer. */
  function ReadStage(lenBuf: Buf, stage: ReadBack): Cont
  {
    if lenBuf == TxReadLen then HandleTxAck(stage) else HandleRx(stage)
  }

  /** The first half of `ReadBackPayloadRuns`: the width read completes and the payload read starts. */
  lemma WidthReadRuns(x: World, lenBuf: Buf, wid: seq<byte>, data: seq<byte>) returns (u: World)
    requires Wf(x) && x.spi.IsBusy() && lenBuf in {TxReadLen, RxReadLen}
    requires x.spi.current.value == Spi.Descriptor(Input, Some(lenBuf), 2, 0, Some(ReadStage(lenBuf, WidthKnown)))
    requires |wid| == 2 && wid[1] as int == |data| && |data| + 1 <= SCRATCH_SIZE
    ensures Run(Running(x), Clocked(wid)) == Running(u)
    ensures Wf(u) && u.drv == x.drv
    ensures u.spi.current == Some(Spi.Descriptor(Input, Some(Output), (|data| + 1) as byte, 0, Some(ReadStage(lenBuf, PayloadIn))))
    ensures u.mem[lenBuf][1] as int == |data|
    ensures |u.trace| == |x.trace| + 1 && x.trace <= u.trace
    ensures Sent(u.trace[|x.trace|], [R_RX_PAYLOAD], Some(Output), Some(ReadStage(lenBuf, PayloadIn)))
  {
    var v := Settled(x, wid);
    assert v.mem[lenBuf] == wid;
    u := PayloadReadStarts(v, lenBuf, |data|);
    Exchange(x, wid);
  }

  /** With the width known, the payload read of width + 1 bytes (status byte first) goes on the bus. */
  lemma PayloadReadStarts(v: World, lenBuf: Buf, n: nat) returns (u: World)
    requires Wf(v) && !v.spi.IsBusy() && lenBuf in {TxReadLen, RxReadLen}
    requires v.mem[lenBuf][1] as int == n && n + 1 <= SCRATCH_SIZE
    ensures Finish(v, Some(ReadStage(lenBuf, WidthKnown))) == Running(u)
    ensures Wf(u) && u.drv == v.drv
    ensures u.spi.current == Some(Spi.Descriptor(Input, Some(Output), (n + 1) as byte, 0, Some(ReadStage(lenBuf, PayloadIn))))
    ensures u.mem[lenBuf][1] as int == n
    ensures |u.trace| == |v.trace| + 1 && v.trace <= u.trace
    ensures Sent(u.trace[|v.trace|], [R_RX_PAYLOAD], Some(Output), Some(ReadStage(lenBuf, PayloadIn)))
  {
    var o := if lenBuf == TxReadLen then TxAckStep(v, WidthKnown) else RxStep(v, WidthKnown);
    u := o.w;
  }

  /** The second half of `ReadBackPayloadRuns`: the payload read completes. */
  lemma PayloadReadRuns(u: World, lenBuf: Buf, y: byte, data: seq<byte>) returns (z: World)
    requires Wf(u) && lenBuf in {TxReadLen, RxReadLen} && |data| + 1 <= SCRATCH_SIZE
    requires u.spi.current == Some(Spi.Descriptor(Input, Some(Output), (|data| + 1) as byte, 0, Some(ReadStage(lenBuf, PayloadIn))))
    requires u.mem[lenBuf][1] as int == |data|
    ensures Wf(z) && !z.spi.IsBusy() && z.drv == u.drv && z.trace == u.trace
    ensures lenBuf == TxReadLen ==> Run(Running(u), Clocked([y] + data)) == TxAckStep(z, PayloadIn)
    ensures lenBuf == RxReadLen ==> Run(Running(u), Clocked([y] + data)) == RxStep(z, PayloadIn)
    ensures z.mem[lenBuf][1] as int == |data|
    ensures ReadBackPayload(z, |data|) == Some(data)
  {
    z := Settled(u, [y] + data);
    assert z.mem[Output][1 .. 1 + |data|] == data;
    Exchange(u, [y] + data);
  }

  /**
   * A transmission acknowledged with a payload: STATUS shows RX_DR (and no
   * MAX_RT); after clearing TX_DS and RX_DR the driver reads the width and
   * then the payload, and hands the callback exactly the bytes the radio
   * clocked in after the status byte, with success.
   */
  lemma TransmitAckPayload(w: World, data: Payload, cb: CallbackId,
                           b1: seq<byte>, status: byte, b3: seq<byte>, wid: seq<byte>, y: byte, ack: seq<byte>)
    requires Wf(w) && w.drv.role == Transmitter && w.drv.ready && w.drv.irqUnmasked
    requires !w.drv.transmitting && !w.spi.IsBusy()
    requires 1 <= |data| <= 32 && |b1| == |data| + 1 && |b3| == 2
    requires !AnySet(status, MAX_RT) && AnySet(status, RX_DR)
    requires |wid| == 2 && wid[1] as int == |ack| && |ack| + 1 <= SCRATCH_SIZE
    ensures var o := Run(Running(w), [AppTransmit(Some(data), Some(cb))] + Clocked(b1) + [RadioInterrupt]
                                     + Clocked([status]) + Clocked(b3) + Clocked(wid) + Clocked([y] + ack));
      && o.Running?
      && |o.w.trace| == |w.trace| + 6
      && w.trace + [Issued([W_TX_PAYLOAD] + data, None, None), Issued([NOP], Some(Input), Some(ReadStatus))] <= o.w.trace
      && Sent(o.w.trace[|w.trace| + 2], [0x27, 0x60], None, Some(HandleTxAck(Cleared)))
      && Sent(o.w.trace[|w.trace| + 3], [R_RX_PL_WID], Some(TxReadLen), Some(HandleTxAck(WidthKnown)))
      && Sent(o.w.trace[|w.trace| + 4], [R_RX_PAYLOAD], Some(Output), Some(HandleTxAck(PayloadIn)))
      && o.w.trace[|w.trace| + 5] == TxCallback(cb, true, Some(ack))
      && !o.w.drv.transmitting && o.w.drv.irqUnmasked && !o.w.spi.IsBusy()
  {
    var pre := [AppTransmit(Some(data), Some(cb))] + Clocked(b1) + [RadioInterrupt] + Clocked([status]);
    var rest := Clocked(b3) + Clocked(wid) + Clocked([y] + ack);
    var x := TransmitToStatus(w, data, Some(cb), b1, status);
    assert Run(Running(w), pre + Clocked(b3) + Clocked(wid) + Clocked([y] + ack)) == Run(StatusRead(x), rest) by {
      RunAppend(Running(w), pre, rest);
      Assoc(pre, Clocked(b3) + Clocked(wid), Clocked([y] + ack));
      Assoc(pre, Clocked(b3), Clocked(wid));
    }
    AckAfterStatus(x, status, b3, wid, y, ack);
  }

  /** The part of `TransmitAckPayload` after the STATUS read. */
  lemma AckAfterStatus(x: World, status: byte, b3: seq<byte>, wid: seq<byte>, y: byte, ack: seq<byte>)
    requires Wf(x) && !x.spi.IsBusy() && x.mem[Input][0] == status
    requires x.drv.role == Transmitter && x.drv.txEot.Some?
    requires !AnySet(status, MAX_RT) && AnySet(status, RX_DR) && |b3| == 2
    requires |wid| == 2 && wid[1] as int == |ack| && |ack| + 1 <= SCRATCH_SIZE
    ensures var o := Run(StatusRead(x), Clocked(b3) + Clocked(wid) + Clocked([y] + ack));
      && o.Running?
      && |o.w.trace| == |x.trace| + 4 && x.trace <= o.w.trace
      && Sent(o.w.trace[|x.trace|], [0x27, 0x60], None, Some(HandleTxAck(Cleared)))
      && Sent(o.w.trace[|x.trace| + 1], [R_RX_PL_WID], Some(TxReadLen), Some(HandleTxAck(WidthKnown)))
      && Sent(o.w.trace[|x.trace| + 2], [R_RX_PAYLOAD], Some(Output), Some(HandleTxAck(PayloadIn)))
      && o.w.trace[|x.trace| + 3] == TxCallback(x.drv.txEot.value, true, Some(ack))
      && !o.w.drv.transmitting && o.w.drv.irqUnmasked && !o.w.spi.IsBusy()
  {
    var u := TxAckClearRuns(x, status, b3);
    var z := ReadBackPayloadRuns(u, TxReadLen, wid, y, ack);
    RunAppend(StatusRead(x), Clocked(b3), Clocked(wid) + Clocked([y] + ack));
    Assoc(Clocked(b3), Clocked(wid), Clocked([y] + ack));
  }

  /** The first part of `AckAfterStatus`: TX_DS and RX_DR cleared, the width read started. */
  lemma TxAckClearRuns(x: World, status: byte, b3: seq<byte>) returns (u: World)
    requires Wf(x) && !x.spi.IsBusy() && x.mem[Input][0] == status && x.drv.role == Transmitter
    requires !AnySet(status, MAX_RT) && AnySet(status, RX_DR) && |b3| == 2
    ensures Run(StatusRead(x), Clocked(b3)) == Running(u)
    ensures Wf(u) && u.drv == x.drv.(irqUnmasked := true)
    ensures u.spi.current == Some(Spi.Descriptor(Input, Some(TxReadLen), 2, 0, Some(HandleTxAck(WidthKnown))))
    ensures |u.trace| == |x.trace| + 2 && x.trace <= u.trace
    ensures Sent(u.trace[|x.trace|], [0x27, 0x60], None, Some(HandleTxAck(Cleared)))
    ensures Sent(u.trace[|x.trace| + 1], [R_RX_PL_WID], Some(TxReadLen), Some(HandleTxAck(WidthKnown)))
  {
    StatusClassifiedIdle(x, status);
    var o4 := StatusRead(x);
    Exchange(o4.w, b3);
    var o5 := TxAckStep(Settled(o4.w, b3), Cleared);
    assert o5.w.mem[Input][0] == R_RX_PL_WID;
    u := o5.w;
  }

  /** `StatusClassified`, restated for the world the STATUS read leaves behind. */
  lemma StatusClassifiedIdle(x: World, status: byte)
    requires Wf(x) && !x.spi.IsBusy() && x.mem[Input][0] == status
    ensures var o := StatusRead(x);
      && o.Running? && o.w.drv == x.drv && |o.w.trace| == |x.trace| + 1 && x.trace <= o.w.trace
      && o.w.spi.current.value.read.None? && o.w.spi.current.value.index == 0
      && o.w.spi.current.value.length == 2
      && o.w.trace[|x.trace|].bytes == o.w.mem[Input][..2]
      && o.w.mem[Input][..2] == (
           if x.drv.role == Receiver then [0x27, 0x60]
           else if AnySet(status, MAX_RT) then [0x27, 0x10]
           else if AnySet(status, RX_DR) then [0x27, 0x60]
           else [0x27, 0x20])
      && o.w.trace[|x.trace|].cont == o.w.spi.current.value.eot
      && o.w.spi.current.value.eot == Some(
           if x.drv.role == Receiver then HandleRx(Cleared)
           else if AnySet(status, MAX_RT) then HandleMaxRt(RtCleared)
           else if AnySet(status, RX_DR) then HandleTxAck(Cleared)
           else HandleTx)
  {
  }

  // ---------------------------------------------------------------- receive

  /** `nrf24_receive`'s assertions in order, and the registration it makes. */
  lemma ReceiveChecks(w: World, eot: Option<CallbackId>)
    requires Wf(w)
    ensures var o := Receive(w, eot);
      && (w.drv.role != Receiver ==> o == Halted(Assert(ReceiveOutsideRx)))
      && (w.drv.role == Receiver && w.drv.rxEot.Some? ==> o == Halted(Assert(SecondReceiveCallback)))
      && (w.drv.role == Receiver && w.drv.rxEot.None? && eot.None? ==> o == Halted(Assert(NullCallback)))
      && (w.drv.role == Receiver && w.drv.rxEot.None? && eot.Some? ==>
            o == Running(w.(drv := w.drv.(rxEot := eot))))
  {
  }

  /**
   * `nrf24_storeAckPayload`: refused outside RX mode; while a receive is
   * being serviced the payload is only remembered; otherwise W_ACK_PAYLOAD
   * for pipe 0 and the payload go on the bus, with `send_request` raised
   * until the upload completes. If the bus is still busy (a second call
   * while the first upload is in flight), the engine's assertion halts.
   */
  lemma StoreAckChecks(w: World, payload: Payload)
    requires Wf(w)
    ensures var o := StoreAckPayload(w, payload);
      && (w.drv.role != Receiver ==> o == Halted(Assert(StoreAckOutsideRx)))
      && (w.drv.role == Receiver && w.drv.receiveRequest ==>
            o == Running(w.(drv := w.drv.(sendRequest := true, deferred := payload, replayPending := true))))
      && (w.drv.role == Receiver && !w.drv.receiveRequest && !w.spi.IsBusy() && |payload| + 1 <= SCRATCH_SIZE ==>
            && o.Running? && o.w.drv == w.drv.(sendRequest := true, replayPending := false)
            && o.w.trace == w.trace + [Issued([W_ACK_PAYLOAD_P0] + payload, None, Some(StoreAckDone))]
            && o.w.spi.current == Some(Spi.Descriptor(Input, None, (|payload| + 1) as byte, 0, Some(StoreAckDone))))
      && (w.drv.role == Receiver && !w.drv.receiveRequest && w.spi.IsBusy() && |payload| + 1 <= SCRATCH_SIZE ==>
            o == Halted(SpiAssert(Spi.TransferWhileBusy)))
      && (w.drv.role == Receiver && !w.drv.receiveRequest && SCRATCH_SIZE < |payload| + 1 ==> o == Halted(Overrun))
  {
  }

  /**
   * `nrf24_irqISR` in RX mode masks the line and records the request; while
   * an ack upload is in flight it starts nothing, otherwise it reads STATUS.
   * Before bring-up completes it only masks the line. A STATUS read it
   * starts while another transfer is on the bus (in either mode) halts on
   * the engine's assertion.
   */
  lemma RadioIrqDefers(w: World)
    requires Wf(w)
    ensures var o := RadioIrq(w);
      && (!w.drv.ready ==> o == Running(w.(drv := w.drv.(irqUnmasked := false))))
      && (w.drv.ready && w.drv.role == Receiver && w.drv.sendRequest ==>
            o == Running(w.(drv := w.drv.(irqUnmasked := false, receiveRequest := true))))
      && (w.drv.ready && w.drv.role == Receiver && !w.drv.sendRequest && !w.spi.IsBusy() ==>
            && o.Running? && StatusInFlight(o.w)
            && o.w.drv == w.drv.(irqUnmasked := false, receiveRequest := true)
            && o.w.trace == w.trace + [Issued([NOP], Some(Input), Some(ReadStatus))])
      && (w.drv.ready && w.drv.role == Receiver && !w.drv.sendRequest && w.spi.IsBusy() ==>
            o == Halted(SpiAssert(Spi.TransferWhileBusy)))
      && (w.drv.ready && w.drv.role == Transmitter && w.spi.IsBusy() ==>
            o == Halted(SpiAssert(Spi.TransferWhileBusy)))
  {
  }

  /**
   * The receive handler unmasks the IRQ line when it clears STATUS, before
   * the width and payload reads: a radio interrupt arriving while the width
   * read is in flight (and no upload pending) starts a STATUS read on the
   * busy bus, and the engine's assertion halts.
   */
  lemma IrqDuringRxRead(x: World, status: byte, clr: seq<byte>)
    requires StatusInFlight(x) && x.drv.role == Receiver && x.drv.ready && !x.drv.sendRequest && |clr| == 2
    ensures Run(Running(x), Clocked([status]) + Clocked(clr) + [RadioInterrupt]) == Halted(SpiAssert(Spi.TransferWhileBusy))
  {
    var u := RxClearRuns(x, status, clr);
    RunAppend(Running(x), Clocked([status]) + Clocked(clr), [RadioInterrupt]);
    RunOne(Running(u), RadioInterrupt);
    RadioIrqDefers(u);
  }

  /**
   * The end of a receive: the callback gets the payload, `receive_request`
   * drops, and a remembered ack payload (if `send_request` is set) is
   * uploaded next.
   */
  lemma RxDelivers(z: World, data: seq<byte>)
    requires Wf(z) && !z.spi.IsBusy() && z.drv.role == Receiver
    requires |data| + 1 <= SCRATCH_SIZE && z.mem[RxReadLen][1] as int == |data|
    requires ReadBackPayload(z, |data|) == Some(data)
    ensures var o := RxStep(z, PayloadIn);
      && (!z.drv.sendRequest ==>
            o == Running(z.(drv := z.drv.(receiveRequest := false), trace := z.trace + CallRx(z.drv.rxEot, data))))
      && (z.drv.sendRequest && |z.drv.deferred| + 1 <= SCRATCH_SIZE ==>
            && o.Running?
            && o.w.trace == z.trace + CallRx(z.drv.rxEot, data)
                                    + [Issued([W_ACK_PAYLOAD_P0] + z.drv.deferred, None, Some(StoreAckDone))]
            && o.w.drv == z.drv.(receiveRequest := false, replayPending := false))
  {
  }

  /**
   * Servicing a receive once STATUS has been read: clear TX_DS and RX_DR
   * (unmasking the line), read the width, then the payload. `z` is the world
   * when the payload read completes; the driver's flags are as they were.
   */
  lemma RxAfterStatus(x: World, status: byte, clr: seq<byte>, wid: seq<byte>, y: byte, data: seq<byte>)
    returns (z: World)
    requires StatusInFlight(x) && x.drv.role == Receiver
    requires |clr| == 2 && |wid| == 2 && wid[1] as int == |data| && |data| + 1 <= SCRATCH_SIZE
    ensures Wf(z) && !z.spi.IsBusy() && z.drv == x.drv.(irqUnmasked := true)
    ensures Run(Running(x), Clocked([status]) + Clocked(clr) + Clocked(wid) + Clocked([y] + data)) == RxStep(z, PayloadIn)
    ensures z.mem[RxReadLen][1] as int == |data| && ReadBackPayload(z, |data|) == Some(data)
    ensures |z.trace| == |x.trace| + 3 && x.trace <= z.trace
    ensures Sent(z.trace[|x.trace|], [0x27, 0x60], None, Some(HandleRx(Cleared)))
    ensures Sent(z.trace[|x.trace| + 1], [R_RX_PL_WID], Some(RxReadLen), Some(HandleRx(WidthKnown)))
    ensures Sent(z.trace[|x.trace| + 2], [R_RX_PAYLOAD], Some(Output), Some(HandleRx(PayloadIn)))
  {
    var u := RxClearRuns(x, status, clr);
    z := ReadBackPayloadRuns(u, RxReadLen, wid, y, data);
    var head := Clocked([status]) + Clocked(clr);
    var tail := Clocked(wid) + Clocked([y] + data);
    assert Run(Running(x), Clocked([status]) + Clocked(clr) + Clocked(wid) + Clocked([y] + data))
        == Run(Run(Running(x), head), tail) by {
      RunAppend(Running(x), head, tail);
      Assoc(head, Clocked(wid), Clocked([y] + data));
    }
  }

  /** The three transfers of receive servicing are none of them an ack upload. */
  lemma RxReadsUploadNothing(t: seq<Obs>, n: nat)
    requires |t| == n + 3
    requires Sent(t[n], [0x27, 0x60], None, Some(HandleRx(Cleared)))
    requires Sent(t[n + 1], [R_RX_PL_WID], Some(RxReadLen), Some(HandleRx(WidthKnown)))
    requires Sent(t[n + 2], [R_RX_PAYLOAD], Some(Output), Some(HandleRx(PayloadIn)))
    ensures forall i :: n <= i < |t| ==> !Sent(t[i], [W_ACK_PAYLOAD_P0], None, Some(StoreAckDone))
  {
    forall i | n <= i < |t|
      ensures !Sent(t[i], [W_ACK_PAYLOAD_P0], None, Some(StoreAckDone))
    {
      assert i == n || i == n + 1 || i == n + 2;
    }
  }

  /** The first half of `RxAfterStatus`: STATUS read, TX_DS and RX_DR cleared, the width read started. */
  lemma RxClearRuns(x: World, status: byte, clr: seq<byte>) returns (u: World)
    requires StatusInFlight(x) && x.drv.role == Receiver && |clr| == 2
    ensures Run(Running(x), Clocked([status]) + Clocked(clr)) == Running(u)
    ensures Wf(u) && u.drv == x.drv.(irqUnmasked := true)
    ensures u.spi.current == Some(Spi.Descriptor(Input, Some(RxReadLen), 2, 0, Some(HandleRx(WidthKnown))))
    ensures |u.trace| == |x.trace| + 2 && x.trace <= u.trace
    ensures Sent(u.trace[|x.trace|], [0x27, 0x60], None, Some(HandleRx(Cleared)))
    ensures Sent(u.trace[|x.trace| + 1], [R_RX_PL_WID], Some(RxReadLen), Some(HandleRx(WidthKnown)))
  {
    var v := Settled(x, [status]);
    assert v.mem[Input][0] == status;
    u := RxClearAfterRead(v, status, clr);
    Exchange(x, [status]);
    RunAppend(Running(x), Clocked([status]), Clocked(clr));
  }

  /** The receive side once STATUS is in: the clearing write completes and the width read starts. */
  lemma RxClearAfterRead(v: World, status: byte, clr: seq<byte>) returns (u: World)
    requires Wf(v) && !v.spi.IsBusy() && v.mem[Input][0] == status && v.drv.role == Receiver && |clr| == 2
    ensures Run(StatusRead(v), Clocked(clr)) == Running(u)
    ensures Wf(u) && u.drv == v.drv.(irqUnmasked := true)
    ensures u.spi.current == Some(Spi.Descriptor(Input, Some(RxReadLen), 2, 0, Some(HandleRx(WidthKnown))))
    ensures |u.trace| == |v.trace| + 2 && v.trace <= u.trace
    ensures Sent(u.trace[|v.trace|], [0x27, 0x60], None, Some(HandleRx(Cleared)))
    ensures Sent(u.trace[|v.trace| + 1], [R_RX_PL_WID], Some(RxReadLen), Some(HandleRx(WidthKnown)))
  {
    StatusClassifiedIdle(v, status);
    var o1 := StatusRead(v);
    Exchange(o1.w, clr);
    var o2 := RxStep(Settled(o1.w, clr), Cleared);
    assert o2.w.mem[Input][0] == R_RX_PL_WID;
    u := o2.w;
  }

  /**
   * A packet received end to end: the radio interrupt reads STATUS, the
   * driver clears TX_DS and RX_DR, reads the width and the payload, and
   * hands the registered callback exactly the bytes the radio clocked in
   * after the status byte; the line is unmasked and the bus idle at the end.
   */
  lemma ReceiveOne(w: World, cb: CallbackId, status: byte, clr: seq<byte>, wid: seq<byte>, y: byte, data: seq<byte>)
    requires Wf(w) && w.drv.role == Receiver && w.drv.ready && w.drv.irqUnmasked && !w.spi.IsBusy()
    requires w.drv.rxEot == Some(cb) && !w.drv.sendRequest
    requires |clr| == 2 && |wid| == 2 && wid[1] as int == |data| && |data| + 1 <= SCRATCH_SIZE
    ensures var o := Run(Running(w), [RadioInterrupt] + Clocked([status]) + Clocked(clr) + Clocked(wid) + Clocked([y] + data));
      && o.Running?
      && |o.w.trace| == |w.trace| + 5
      && w.trace + [Issued([NOP], Some(Input), Some(ReadStatus))] <= o.w.trace
      && Sent(o.w.trace[|w.trace| + 1], [0x27, 0x60], None, Some(HandleRx(Cleared)))
      && o.w.trace[|w.trace| + 4] == RxCallback(cb, data)
      && !o.w.drv.receiveRequest && o.w.drv.irqUnmasked && !o.w.spi.IsBusy()
  {
    var rest := Clocked([status]) + Clocked(clr) + Clocked(wid) + Clocked([y] + data);
    RadioIrqDefers(w);
    var x := RadioIrq(w).w;
    var z := RxAfterStatus(x, status, clr, wid, y, data);
    RxDelivers(z, data);
    var o := Run(Running(w), [RadioInterrupt] + Clocked([status]) + Clocked(clr) + Clocked(wid) + Clocked([y] + data));
    assert o == RxStep(z, PayloadIn) by {
      RunAppend(Running(w), [RadioInterrupt], rest);
      RunOne(Running(w), RadioInterrupt);
      Assoc([RadioInterrupt], Clocked([status]) + Clocked(clr) + Clocked(wid), Clocked([y] + data));
      Assoc([RadioInterrupt], Clocked([status]) + Clocked(clr), Clocked(wid));
      Assoc([RadioInterrupt], Clocked([status]), Clocked(clr));
    }
    assert o.w.trace == z.trace + [RxCallback(cb, data)];
  }

  // ---------------------------------------------------------------- the ack-payload rendezvous

  /**
   * An ack upload is started, the radio interrupts while it is in flight,
   * and a second payload is stored before the upload completes: the second
   * payload is only remembered, with `send_request` and `receive_request`
   * both raised, and nothing new goes on the bus.
   */
  lemma SecondAckDeferred(w: World, a: Payload, b: Payload)
    requires Wf(w) && w.drv.role == Receiver && w.drv.ready && w.drv.irqUnmasked && !w.spi.IsBusy()
    requires !w.drv.receiveRequest && !w.drv.sendRequest
    requires |a| + 1 <= SCRATCH_SIZE
    ensures var o := Run(Running(w), [AppStoreAck(a), RadioInterrupt, AppStoreAck(b)]);
      && o.Running?
      && o.w.drv == w.drv.(irqUnmasked := false, receiveRequest := true, sendRequest := true,
                           deferred := b, replayPending := true)
      && o.w.spi.current == Some(Spi.Descriptor(Input, None, (|a| + 1) as byte, 0, Some(StoreAckDone)))
      && o.w.trace == w.trace + [Issued([W_ACK_PAYLOAD_P0] + a, None, Some(StoreAckDone))]
  {
    StoreAckChecks(w, a);
    var o1 := StoreAckPayload(w, a);
    RadioIrqDefers(o1.w);
    var o2 := RadioIrq(o1.w);
    StoreAckChecks(o2.w, b);
    var evs := [AppStoreAck(a), RadioInterrupt, AppStoreAck(b)];
    assert evs == [AppStoreAck(a)] + [RadioInterrupt] + [AppStoreAck(b)];
    RunAppend(Running(w), [AppStoreAck(a)] + [RadioInterrupt], [AppStoreAck(b)]);
    RunAppend(Running(w), [AppStoreAck(a)], [RadioInterrupt]);
    RunOne(Running(w), AppStoreAck(a));
    RunOne(o1, RadioInterrupt);
    RunOne(o2, AppStoreAck(b));
  }

  /**
   * The defect, as written: when the first upload completes, the source's
   * handler clears `send_request`, the pending receive is serviced, and at
   * its end nothing is uploaded. The driver is left idle with both flags
   * down, so the remembered payload `b` is never sent.
   */
  lemma AckDroppedAsWritten(w: World, a: Payload, b: Payload, bs: seq<byte>,
                            status: byte, clr: seq<byte>, wid: seq<byte>, y: byte, data: seq<byte>)
    requires Wf(w) && w.drv.role == Receiver && w.drv.ready && w.drv.irqUnmasked && !w.spi.IsBusy()
    requires !w.drv.receiveRequest && !w.drv.sendRequest
    requires |a| + 1 <= SCRATCH_SIZE && |bs| == |a| + 1
    requires |clr| == 2 && |wid| == 2 && wid[1] as int == |data| && |data| + 1 <= SCRATCH_SIZE
    ensures var o3 := Run(Running(w), [AppStoreAck(a), RadioInterrupt, AppStoreAck(b)]);
      && o3.Running? && o3.w.drv.deferred == b
      && o3.w.spi.current == Some(Spi.Descriptor(Input, None, (|a| + 1) as byte, 0, Some(StoreAckDone)))
      && var u := Settled(o3.w, bs);
      && AckStoredAsWritten(u).Running?
      && var o := Run(AckStoredAsWritten(u), Clocked([status]) + Clocked(clr) + Clocked(wid) + Clocked([y] + data));
      && o.Running?
      && !o.w.drv.sendRequest && !o.w.drv.receiveRequest && !o.w.spi.IsBusy()
      && (forall i :: |o3.w.trace| <= i < |o.w.trace| ==> !Sent(o.w.trace[i], [W_ACK_PAYLOAD_P0], None, Some(StoreAckDone)))
  {
    SecondAckDeferred(w, a, b);
    var o3 := Run(Running(w), [AppStoreAck(a), RadioInterrupt, AppStoreAck(b)]);
    var u := Settled(o3.w, bs);
    StatusReadStarts(u.(drv := u.drv.(sendRequest := false)));
    var x := AckStoredAsWritten(u).w;
    var v := NoUploadAfterStatus(x, status, clr, wid, y, data);
    var n := |o3.w.trace|;
    assert x.trace == o3.w.trace + [Issued([NOP], Some(Input), Some(ReadStatus))];
    forall i | n <= i < |v.trace|
      ensures !Sent(v.trace[i], [W_ACK_PAYLOAD_P0], None, Some(StoreAckDone))
    {
      if i == n {
        assert v.trace[i] == x.trace[n];
      }
    }
  }

  /** A receive serviced while `send_request` is down uploads nothing and leaves both flags down. */
  lemma NoUploadAfterStatus(x: World, status: byte, clr: seq<byte>, wid: seq<byte>, y: byte, data: seq<byte>)
    returns (v: World)
    requires StatusInFlight(x) && x.drv.role == Receiver && !x.drv.sendRequest
    requires |clr| == 2 && |wid| == 2 && wid[1] as int == |data| && |data| + 1 <= SCRATCH_SIZE
    ensures Run(Running(x), Clocked([status]) + Clocked(clr) + Clocked(wid) + Clocked([y] + data)) == Running(v)
    ensures x.trace <= v.trace && !v.drv.sendRequest && !v.drv.receiveRequest && !v.spi.IsBusy()
    ensures forall i :: |x.trace| <= i < |v.trace| ==> !Sent(v.trace[i], [W_ACK_PAYLOAD_P0], None, Some(StoreAckDone))
  {
    var z := RxAfterStatus(x, status, clr, wid, y, data);
    RxReadsUploadNothing(z.trace, |x.trace|);
    QuietDelivery(z, data, |x.trace|);
    v := RxStep(z, PayloadIn).w;
  }

  /**
   * The end of a receive with `send_request` down: the callback runs, both
   * flags are down, the bus is idle, and no ack upload joins the trace.
   */
  lemma QuietDelivery(z: World, data: seq<byte>, n: nat)
    requires Wf(z) && !z.spi.IsBusy() && z.drv.role == Receiver && !z.drv.sendRequest
    requires |data| + 1 <= SCRATCH_SIZE && z.mem[RxReadLen][1] as int == |data|
    requires ReadBackPayload(z, |data|) == Some(data)
    requires n <= |z.trace| && forall i :: n <= i < |z.trace| ==> !Sent(z.trace[i], [W_ACK_PAYLOAD_P0], None, Some(StoreAckDone))
    ensures var o := RxStep(z, PayloadIn);
      && o.Running? && z.trace <= o.w.trace
      && !o.w.drv.sendRequest && !o.w.drv.receiveRequest && !o.w.spi.IsBusy()
      && (forall i :: n <= i < |o.w.trace| ==> !Sent(o.w.trace[i], [W_ACK_PAYLOAD_P0], None, Some(StoreAckDone)))
  {
    RxDelivers(z, data);
    var o := RxStep(z, PayloadIn);
    assert o.w.trace == z.trace + CallRx(z.drv.rxEot, data);
    forall i | n <= i < |o.w.trace|
      ensures !Sent(o.w.trace[i], [W_ACK_PAYLOAD_P0], None, Some(StoreAckDone))
    {
      if i < |z.trace| {
        assert o.w.trace[i] == z.trace[i];
      } else {
        assert !o.w.trace[i].Issued?;
      }
    }
  }

  /**
   * The correction: with `send_request` kept raised while a remembered
   * payload awaits upload, the same events end with the remembered payload
   * `b` uploaded, right after the receive callback, and it is the only ack
   * upload after the three opening events.
   */
  lemma AckReplayed(w: World, a: Payload, b: Payload, bs: seq<byte>,
                    status: byte, clr: seq<byte>, wid: seq<byte>, y: byte, data: seq<byte>) returns (v: World)
    requires Wf(w) && w.drv.role == Receiver && w.drv.ready && w.drv.irqUnmasked && !w.spi.IsBusy()
    requires !w.drv.receiveRequest && !w.drv.sendRequest
    requires |a| + 1 <= SCRATCH_SIZE && |bs| == |a| + 1 && |b| + 1 <= SCRATCH_SIZE
    requires |clr| == 2 && |wid| == 2 && wid[1] as int == |data| && |data| + 1 <= SCRATCH_SIZE
    ensures Run(Running(w), [AppStoreAck(a), RadioInterrupt, AppStoreAck(b)] + Clocked(bs)
                            + Clocked([status]) + Clocked(clr) + Clocked(wid) + Clocked([y] + data)) == Running(v)
    ensures |v.trace| > 0 && v.trace[|v.trace| - 1] == Issued([W_ACK_PAYLOAD_P0] + b, None, Some(StoreAckDone))
    ensures w.drv.rxEot.Some? ==> |v.trace| >= 2 && v.trace[|v.trace| - 2] == RxCallback(w.drv.rxEot.value, data)
    ensures var o3 := Run(Running(w), [AppStoreAck(a), RadioInterrupt, AppStoreAck(b)]);
      && o3.Running? && o3.w.trace <= v.trace
      && forall i :: |o3.w.trace| <= i < |v.trace| - 1 ==> !Sent(v.trace[i], [W_ACK_PAYLOAD_P0], None, Some(StoreAckDone))
    ensures v.drv.sendRequest && !v.drv.receiveRequest && v.spi.IsBusy()
  {
    SecondAckDeferred(w, a, b);
    var pre := [AppStoreAck(a), RadioInterrupt, AppStoreAck(b)];
    var o3 := Run(Running(w), pre);
    var u := Settled(o3.w, bs);
    assert Run(o3, Clocked(bs)) == AckStored(u) by {
      Exchange(o3.w, bs);
      assert o3 == Running(o3.w);
    }
    assert u.drv.deferred == b && u.drv.rxEot == w.drv.rxEot && u.trace == o3.w.trace;
    v := ReplayAfterUpload(u, status, clr, wid, y, data);
    RunTwoThenFour(Running(w), pre, Clocked(bs), Clocked([status]), Clocked(clr), Clocked(wid), Clocked([y] + data));
    ReplayUploadsOnce(v.trace, |u.trace|, u.drv.rxEot, data, u.drv.deferred);
  }

  /** Regrouping a run of six event sequences: the first two one at a time, then the other four together. */
  lemma RunTwoThenFour(o: Outcome, p: seq<Event>, q: seq<Event>, r1: seq<Event>, r2: seq<Event>, r3: seq<Event>, r4: seq<Event>)
    requires o.Running? ==> Wf(o.w)
    ensures Run(o, p + q + r1 + r2 + r3 + r4) == Run(Run(Run(o, p), q), r1 + r2 + r3 + r4)
  {
    RunAppend(o, p + q, r1 + r2 + r3 + r4);
    RunAppend(o, p, q);
    Assoc(p + q, r1 + r2 + r3, r4);
    Assoc(p + q, r1 + r2, r3);
    Assoc(p + q, r1, r2);
  }

  /**
   * The actions of a replaying receive, from index n of trace `t`: the
   * STATUS read, the clearing write, the width read and the payload read,
   * then the callback (if one is registered) with `data`, then the upload
   * of `p`.
   */
  predicate ReplayTail(t: seq<Obs>, n: nat, rxEot: Option<CallbackId>, data: seq<byte>, p: Payload)
  {
    && |t| == n + 5 + |CallRx(rxEot, data)|
    && Sent(t[n], [NOP], Some(Input), Some(ReadStatus))
    && Sent(t[n + 1], [0x27, 0x60], None, Some(HandleRx(Cleared)))
    && Sent(t[n + 2], [R_RX_PL_WID], Some(RxReadLen), Some(HandleRx(WidthKnown)))
    && Sent(t[n + 3], [R_RX_PAYLOAD], Some(Output), Some(HandleRx(PayloadIn)))
    && t[n + 4..|t| - 1] == CallRx(rxEot, data)
    && t[|t| - 1] == Issued([W_ACK_PAYLOAD_P0] + p, None, Some(StoreAckDone))
  }

  /**
   * In a replaying receive the upload of `p` comes last, right after the
   * callback, and no earlier action from index n is an ack upload.
   */
  lemma ReplayUploadsOnce(t: seq<Obs>, n: nat, rxEot: Option<CallbackId>, data: seq<byte>, p: Payload)
    requires ReplayTail(t, n, rxEot, data, p)
    ensures |t| > 0 && t[|t| - 1] == Issued([W_ACK_PAYLOAD_P0] + p, None, Some(StoreAckDone))
    ensures rxEot.Some? ==> |t| >= 2 && t[|t| - 2] == RxCallback(rxEot.value, data)
    ensures forall i :: n <= i < |t| - 1 ==> !Sent(t[i], [W_ACK_PAYLOAD_P0], None, Some(StoreAckDone))
  {
    if rxEot.Some? {
      assert t[|t| - 2] == t[n + 4..|t| - 1][0];
    }
    forall i | n <= i < |t| - 1
      ensures !Sent(t[i], [W_ACK_PAYLOAD_P0], None, Some(StoreAckDone))
    {
      if i >= n + 4 {
        assert t[i] == t[n + 4..|t| - 1][i - n - 4];
      }
    }
  }

  /**
   * The corrected upload-finished handler with a payload remembered: the
   * pending receive is serviced, and at its end the callback gets the
   * payload and then the remembered payload goes on the bus with
   * `send_request` raised.
   */
  lemma ReplayAfterUpload(u: World, status: byte, clr: seq<byte>, wid: seq<byte>, y: byte, data: seq<byte>) returns (v: World)
    requires Wf(u) && !u.spi.IsBusy() && u.drv.role == Receiver
    requires u.drv.receiveRequest && u.drv.replayPending && |u.drv.deferred| + 1 <= SCRATCH_SIZE
    requires |clr| == 2 && |wid| == 2 && wid[1] as int == |data| && |data| + 1 <= SCRATCH_SIZE
    ensures Run(AckStored(u), Clocked([status]) + Clocked(clr) + Clocked(wid) + Clocked([y] + data)) == Running(v)
    ensures u.trace <= v.trace && ReplayTail(v.trace, |u.trace|, u.drv.rxEot, data, u.drv.deferred)
    ensures v.drv.sendRequest && !v.drv.receiveRequest && v.spi.IsBusy()
  {
    StatusReadStarts(u.(drv := u.drv.(sendRequest := true)));
    var x := AckStored(u).w;
    var z := RxAfterStatus(x, status, clr, wid, y, data);
    RxDelivers(z, data);
    v := RxStep(z, PayloadIn).w;
    var n := |u.trace|;
    var cb := CallRx(u.drv.rxEot, data);
    assert v.trace == z.trace + cb + [Issued([W_ACK_PAYLOAD_P0] + u.drv.deferred, None, Some(StoreAckDone))];
    assert v.trace[n] == x.trace[n] == Issued([NOP], Some(Input), Some(ReadStatus));
    assert v.trace[n + 1] == z.trace[n + 1] && v.trace[n + 2] == z.trace[n + 2] && v.trace[n + 3] == z.trace[n + 3];
    assert v.trace[n + 4..|v.trace| - 1] == cb;
  }
}
