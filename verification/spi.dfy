/**
 * The non-blocking SPI transfer engine (canvas/src/spi.c).
 *
 * One transfer descriptor is active at a time. Starting a transfer asserts
 * chip-select and pushes the first byte; every completion interrupt drains the
 * byte clocked in, stores it when a read buffer is present, and either pushes
 * the next byte or deselects the device, clears busy and hands back the
 * end-of-transfer callback.
 *
 * Buffers are named by an identity of type `B` and live in a memory map, so a
 * transfer whose read and write buffers are the same storage is modelled as
 * the C code behaves: each byte pushed is read from memory at push time.
 * Callbacks are values of an arbitrary type `C`.
 */
module Spi {
  import opened Base

  /** Motorola SPI frame formats of the SSI peripheral. */
  datatype FrameMode = Moto0 | Moto1 | Moto2 | Moto3
  {
    /** Clock polarity: the clock idles high. */
    predicate Cpol() { this == Moto2 || this == Moto3 }

    /** Clock phase: data is captured on the second clock edge. */
    predicate Cpha() { this == Moto1 || this == Moto3 }
  }

  /** The frame format `spi_init` selects for a clock polarity and phase. */
  function ModeFor(cpol: bool, cpha: bool): (m: FrameMode)
    ensures m.Cpol() == cpol && m.Cpha() == cpha
  {
    if !cpol then (if !cpha then Moto0 else Moto1)
    else (if !cpha then Moto2 else Moto3)
  }

  /** Buffer contents, by buffer identity. */
  type Mem<B> = map<B, seq<byte>>

  /** The three conditions `spi_Transfer` asserts, in the order it checks them. */
  datatype Fault = TransferWhileBusy | NullWrite | ZeroLength

  /** The transfer descriptor: buffers, length, next byte index, completion callback. */
  datatype Descriptor<B, C> = Descriptor(write: B, read: Option<B>, length: byte, index: nat, eot: Option<C>)

  /**
   * The engine: the configured frame format (none before `spi_init`), the
   * active descriptor (present exactly while busy) and the chip-select line.
   */
  datatype Engine<B, C> = Engine(mode: Option<FrameMode>, current: Option<Descriptor<B, C>>, selected: bool)
  {
    /** `spi_isBusy`. */
    predicate IsBusy() { current.Some? }
  }

  /** The caller's promise that both buffers hold at least `length` bytes. */
  predicate Fits<B, C>(d: Descriptor<B, C>, mem: Mem<B>)
  {
    && d.write in mem && d.length as int <= |mem[d.write]|
    && (d.read.Some? ==> d.read.value in mem && d.length as int <= |mem[d.read.value]|)
  }

  /** Mid-transfer: selected, a byte still to come, and buffers that fit. */
  predicate Active<B, C>(e: Engine<B, C>, mem: Mem<B>)
  {
    && e.current.Some?
    && e.selected
    && e.current.value.index < e.current.value.length as int
    && Fits(e.current.value, mem)
  }

  /** What holds of the engine between events: chip-select follows busy. */
  predicate Consistent<B, C>(e: Engine<B, C>, mem: Mem<B>)
  {
    && (e.IsBusy() ==> Active(e, mem))
    && (e.selected <==> e.IsBusy())
  }

  /** The engine before `spi_init` has run (zero-initialised statics). */
  function Unconfigured<B, C>(): (e: Engine<B, C>)
    ensures !e.IsBusy() && !e.selected && e.mode.None?
  {
    Engine(None, None, false)
  }

  /** `spi_init`: the frame-format choice and the busy reset; the hardware set-up is not modelled. */
  function Init<B, C>(cpol: bool, cpha: bool): (e: Engine<B, C>)
    ensures e.mode == Some(ModeFor(cpol, cpha))
    ensures !e.IsBusy() && !e.selected
  {
    Engine(Some(ModeFor(cpol, cpha)), None, false)
  }

  datatype Started<B, C> =
    | Started(engine: Engine<B, C>, pushed: byte)
    | Faulted(fault: Fault)
      /** A buffer shorter than `length`: the C code would read or write out of bounds. */
    | OutOfBounds

  /** `spi_Transfer`: checks, stores the descriptor, selects the device and pushes `write[0]`. */
  function Start<B, C>(e: Engine<B, C>, mem: Mem<B>, write: Option<B>, read: Option<B>, length: byte, eot: Option<C>)
    : (r: Started<B, C>)
    ensures r.Faulted? <==> e.IsBusy() || write.None? || length == 0
    ensures e.IsBusy() ==> r == Faulted(TransferWhileBusy)
    ensures !e.IsBusy() && write.None? ==> r == Faulted(NullWrite)
    ensures !e.IsBusy() && write.Some? && length == 0 ==> r == Faulted(ZeroLength)
    ensures r.OutOfBounds? <==>
              !r.Faulted? && !Fits(Descriptor(write.value, read, length, 0, eot), mem)
    ensures r.Started? ==>
              && r.engine == e.(current := Some(Descriptor(write.value, read, length, 0, eot)), selected := true)
              && Active(r.engine, mem)
              && r.pushed == mem[write.value][0]
  {
    if e.IsBusy() then Faulted(TransferWhileBusy)
    else if write.None? then Faulted(NullWrite)
    else if length == 0 then Faulted(ZeroLength)
    else
      var d := Descriptor(write.value, read, length, 0, eot);
      if !Fits(d, mem) then OutOfBounds
      else Started(e.(current := Some(d), selected := true), mem[d.write][0])
  }

  datatype Fired<B, C> =
    | Pumped(engine: Engine<B, C>, mem: Mem<B>, pushed: byte)
    | Finished(engine: Engine<B, C>, mem: Mem<B>, eot: Option<C>)

  /** `mem` with `bs` written into buffer `read` (if present) from position `at` on. */
  function Stored<B>(mem: Mem<B>, read: Option<B>, at: nat, bs: seq<byte>): Mem<B>
    requires read.Some? ==> read.value in mem && at + |bs| <= |mem[read.value]|
  {
    if read.None? then mem
    else mem[read.value := mem[read.value][..at] + bs + mem[read.value][at + |bs|..]]
  }

  /** `mem` with `b` written into buffer `read` (if present) at position `at`; `PokedStored` relates it to `Stored`. */
  function Poked<B>(mem: Mem<B>, read: Option<B>, at: nat, b: byte): (m: Mem<B>)
    requires read.Some? ==> read.value in mem && at < |mem[read.value]|
    ensures m.Keys == mem.Keys
    ensures forall k :: k in mem ==> |m[k]| == |mem[k]|
    ensures read.Some? ==> m[read.value][at] == b
    ensures read.Some? ==> forall i :: 0 <= i < |mem[read.value]| && i != at ==> m[read.value][i] == mem[read.value][i]
    ensures forall k :: k in mem && Some(k) != read ==> m[k] == mem[k]
    ensures read.None? ==> m == mem
  {
    if read.None? then mem
    else
      var s: seq<byte> := mem[read.value][at := b];
      mem[read.value := s]
  }

  /** Writing one byte is storing a one-byte sequence. */
  lemma PokedStored<B>(mem: Mem<B>, read: Option<B>, at: nat, b: byte)
    requires read.Some? ==> read.value in mem && at < |mem[read.value]|
    ensures Poked(mem, read, at, b) == Stored(mem, read, at, [b])
  {
    if read.Some? {
      var s := mem[read.value];
      assert s[at := b] == s[..at] + [b] + s[at + 1..];
    }
  }

  /**
   * `spi_ISR`: one completion interrupt with the byte clocked in. The SSI
   * interrupt is enabled only while a transfer is active, hence `Active`.
   */
  function ByteDone<B, C>(e: Engine<B, C>, mem: Mem<B>, incoming: byte): (r: Fired<B, C>)
    requires Active(e, mem)
    ensures var d := e.current.value;
      && r.mem == Poked(mem, d.read, d.index, incoming)
      && (r.Finished? <==> d.index + 1 == d.length as int)
      && (r.Pumped? ==>
            && r.engine == e.(current := Some(d.(index := d.index + 1)))
            && Active(r.engine, r.mem)
            && r.pushed == mem[d.write][d.index + 1])
      && (r.Finished? ==>
            && r.engine == e.(current := None, selected := false)
            && r.eot == d.eot)
  {
    var d := e.current.value;
    var mem' := Poked(mem, d.read, d.index, incoming);
    var d' := d.(index := d.index + 1);
    if d'.index != d.length as int then
      Pumped(e.(current := Some(d')), mem', mem'[d.write][d'.index])
    else
      Finished(e.(current := None, selected := false), mem', d.eot)
  }

  /** The engine and memory after a run of interrupts, the bytes pushed, and the callback if it ended. */
  datatype Run<B, C> = Run(engine: Engine<B, C>, mem: Mem<B>, pushed: seq<byte>, done: Option<Option<C>>)

  /**
   * A run of completion interrupts with the incoming bytes `bs`: every
   * interrupt but a final one pushes a byte. `DriveStores`, `DriveEnds` and
   * `DrivePushes` state what it stores, when it ends and what it pushes.
   */
  function Drive<B, C>(e: Engine<B, C>, mem: Mem<B>, bs: seq<byte>): (r: Run<B, C>)
    requires Active(e, mem)
    requires |bs| <= e.current.value.length as int - e.current.value.index
    ensures |r.pushed| + (if r.done.Some? then 1 else 0) == |bs|
    ensures r.mem.Keys == mem.Keys && r.engine.mode == e.mode
    decreases |bs|
  {
    if bs == [] then Run(e, mem, [], None)
    else
      match ByteDone(e, mem, bs[0])
      case Pumped(e', m', p) =>
        var r := Drive(e', m', bs[1..]);
        Run(r.engine, r.mem, [p] + r.pushed, r.done)
      case Finished(e', m', eot) =>
        Run(e', m', [], Some(eot))
  }

  /** A run of interrupts stores `bs` in the read buffer, in order, from the current index. */
  lemma {:induction false} DriveStores<B, C>(e: Engine<B, C>, mem: Mem<B>, bs: seq<byte>)
    requires Active(e, mem)
    requires |bs| <= e.current.value.length as int - e.current.value.index
    ensures var d := e.current.value;
      Drive(e, mem, bs).mem == Stored(mem, d.read, d.index, bs)
    decreases |bs|
  {
    var d := e.current.value;
    if bs == [] {
      if d.read.Some? {
        var buf := mem[d.read.value];
        assert buf[..d.index] + [] + buf[d.index..] == buf;
      }
    } else {
      var f := ByteDone(e, mem, bs[0]);
      if f.Pumped? {
        DriveStores(f.engine, f.mem, bs[1..]);
        DriveStep(e, mem, bs);
      } else {
        assert bs == [bs[0]];
        PokedStored(mem, d.read, d.index, bs[0]);
      }
    }
  }

  /** A run of interrupts ends the transfer, idle and deselected, exactly when it covers the remaining length. */
  lemma {:induction false} DriveEnds<B, C>(e: Engine<B, C>, mem: Mem<B>, bs: seq<byte>)
    requires Active(e, mem)
    requires |bs| <= e.current.value.length as int - e.current.value.index
    ensures var d := e.current.value;
      var r := Drive(e, mem, bs);
      && (|bs| < d.length as int - d.index ==>
            r.done.None? && r.engine == e.(current := Some(d.(index := d.index + |bs|))))
      && (|bs| == d.length as int - d.index ==>
            r.done == Some(d.eot) && r.engine == e.(current := None, selected := false))
    decreases |bs|
  {
    var d := e.current.value;
    if bs == [] {
      assert e == e.(current := Some(d.(index := d.index + 0)));
    } else {
      var f := ByteDone(e, mem, bs[0]);
      if f.Pumped? {
        DriveEnds(f.engine, f.mem, bs[1..]);
      }
    }
  }

  /**
   * The bytes a run of interrupts pushes are the write-buffer bytes after the
   * current index, as they were before the run, even when the read and write
   * buffers coincide; a run that ends the transfer pushes up to `length`, and
   * never beyond.
   */
  lemma DrivePushes<B, C>(e: Engine<B, C>, mem: Mem<B>, bs: seq<byte>)
    requires Active(e, mem)
    requires |bs| <= e.current.value.length as int - e.current.value.index
    ensures var d := e.current.value;
      var hi := if |bs| < d.length as int - d.index then d.index + 1 + |bs| else d.length as int;
      Drive(e, mem, bs).pushed == mem[d.write][d.index + 1 .. hi]
  {
    DrivePushesAt(e, mem, bs);
  }

  /** `DrivePushes` byte by byte: the k-th byte pushed is the write byte k + 1 places after the current index. */
  lemma {:induction false} DrivePushesAt<B, C>(e: Engine<B, C>, mem: Mem<B>, bs: seq<byte>)
    requires Active(e, mem)
    requires |bs| <= e.current.value.length as int - e.current.value.index
    ensures var d := e.current.value;
      var r := Drive(e, mem, bs);
      && |r.pushed| == (if |bs| < d.length as int - d.index then |bs| else |bs| - 1)
      && forall k :: 0 <= k < |r.pushed| ==> r.pushed[k] == mem[d.write][d.index + 1 + k]
    decreases |bs|
  {
    if bs != [] {
      var f := ByteDone(e, mem, bs[0]);
      if f.Pumped? {
        DrivePushesAt(f.engine, f.mem, bs[1..]);
        DriveStep(e, mem, bs);
      }
    }
  }

  /** The two facts `Drive` needs about one pumped byte: stores compose, and later write bytes are untouched. */
  lemma DriveStep<B, C>(e: Engine<B, C>, mem: Mem<B>, bs: seq<byte>)
    requires Active(e, mem)
    requires 0 < |bs| <= e.current.value.length as int - e.current.value.index
    requires ByteDone(e, mem, bs[0]).Pumped?
    ensures var d := e.current.value;
      var m' := ByteDone(e, mem, bs[0]).mem;
      && Stored(m', d.read, d.index + 1, bs[1..]) == Stored(mem, d.read, d.index, bs)
      && |m'[d.write]| == |mem[d.write]|
      && (forall k :: d.index < k < |mem[d.write]| ==> m'[d.write][k] == mem[d.write][k])
  {
    var d := e.current.value;
    var m' := ByteDone(e, mem, bs[0]).mem;
    PokedStored(mem, d.read, d.index, bs[0]);
    if d.read.Some? {
      var b := d.read.value;
      var s := mem[b];
      assert m'[b] == s[..d.index] + [bs[0]] + s[d.index + 1..];
      assert m'[b][..d.index + 1] + bs[1..] + m'[b][d.index + 1 + |bs[1..]|..]
          == s[..d.index] + bs + s[d.index + |bs|..];
    }
  }

  /**
   * Round trip of a whole transfer: started on an idle engine and driven by
   * exactly `length` interrupts, the bytes pushed are `write[0..length)` in
   * order, the read buffer (if any) holds the incoming bytes at `[0..length)`
   * and is unchanged beyond, and the engine is idle and deselected when it
   * hands back the callback.
   */
  lemma {:induction false} RoundTrip<B, C>(e: Engine<B, C>, mem: Mem<B>, write: B, read: Option<B>, length: byte,
                                           eot: Option<C>, bs: seq<byte>)
    requires !e.IsBusy() && length > 0 && |bs| == length as int
    requires Fits(Descriptor(write, read, length, 0, eot), mem)
    ensures var s := Start(e, mem, Some(write), read, length, eot);
      && s.Started?
      && var r := Drive(s.engine, mem, bs);
      && [s.pushed] + r.pushed == mem[write][..length]
      && r.done == Some(eot)
      && !r.engine.IsBusy() && !r.engine.selected && r.engine.mode == e.mode
      && (read.Some? ==> r.mem == mem[read.value := bs + mem[read.value][length..]])
      && (read.None? ==> r.mem == mem)
  {
    var s := Start(e, mem, Some(write), read, length, eot);
    DriveStores(s.engine, mem, bs);
    DriveEnds(s.engine, mem, bs);
    DrivePushes(s.engine, mem, bs);
    var r := Drive(s.engine, mem, bs);
    assert mem[write][..length] == [mem[write][0]] + mem[write][1..length];
    if read.Some? {
      assert mem[read.value][..0] + bs == bs;
    }
  }

  /**
   * Busy is exactly "a new transfer cannot be initiated": with valid
   * arguments, starting faults if and only if the engine is busy.
   */
  lemma BusyIffStartRefused<B, C>(e: Engine<B, C>, mem: Mem<B>, write: B, read: Option<B>, length: byte, eot: Option<C>)
    requires length > 0 && Fits(Descriptor(write, read, length, 0, eot), mem)
    ensures e.IsBusy() <==> Start(e, mem, Some(write), read, length, eot).Faulted?
    ensures !e.IsBusy() <==> Start(e, mem, Some(write), read, length, eot).Started?
  {
  }

  /**
   * The engine is idle when the callback is handed back, so the callback
   * may start a new transfer: the last interrupt's engine accepts one.
   */
  lemma IdleBeforeCallback<B, C>(e: Engine<B, C>, mem: Mem<B>, incoming: byte,
                                  write: B, read: Option<B>, length: byte, eot: Option<C>)
    requires Active(e, mem)
    requires ByteDone(e, mem, incoming).Finished?
    requires length > 0
    ensures var f := ByteDone(e, mem, incoming);
      && !f.engine.IsBusy() && !f.engine.selected
      && (Fits(Descriptor(write, read, length, 0, eot), f.mem) ==>
            Start(f.engine, f.mem, Some(write), read, length, eot).Started?)
  {
  }
}
