/**
 * The SPI sensor interface: each logical register read or write becomes one
 * bus transaction framed by chip-select (assert, one transfer or write,
 * deassert), with the direction bit set in the address byte of reads.
 */
module Spi {
  import opened Hal
  import opened Errors

  /** Bit 7 of the address byte marks a read. */
  const DIR_READ: Byte := 0x80

  /** The kind of a register access. */
  datatype Op = RegRead | RegWrite

  /**
   * What the bus did with one framed transaction: either asserting
   * chip-select failed (and nothing else was attempted), or it succeeded and
   * the data phase and the deassert each had an outcome.
   */
  datatype Attempt<CommE, PinE> =
    | CsFailed(pinError: PinE)
    | Exchanged(data: Outcome<CommE>, high: Outcome<PinE>)

  /** The attempt a transaction starting at operation k meets: assert at k, data at k + 1, deassert at k + 2. */
  function AttemptAt<CommE, PinE>(env: Env<CommE, PinE>, k: nat): Attempt<CommE, PinE>
  {
    match env.pin(k)
    case Fail(e) => CsFailed(e)
    case Pass => Exchanged(env.spi(k + 1), env.pin(k + 2))
  }

  /**
   * The result of a framed transaction. A failed assert is a Pin error; a
   * failed deassert is a Pin error whatever the data phase did; a failed data
   * phase is reported as Comm only once the deassert has succeeded.
   */
  function FrameResult<CommE, PinE>(a: Attempt<CommE, PinE>): (r: Result<(), Error<CommE, PinE>>)
    ensures r.Ok? <==> a.Exchanged? && a.data.Pass? && a.high.Pass?
    ensures a.CsFailed? ==> r == Err(Pin(a.pinError))
    ensures a.Exchanged? && a.high.Fail? ==> r == Err(Pin(a.high.error))
    ensures r.Err? && r.error.Comm? ==> a.Exchanged? && a.high.Pass? && a.data == Fail(r.error.comm)
    ensures a.Exchanged? && a.high.Pass? && a.data.Fail? ==> r == Err(Comm(a.data.error))
  {
    match a
    case CsFailed(e) => Err(Pin(e))
    case Exchanged(data, high) =>
      if high.Fail? then Err(Pin(high.error))
      else if data.Fail? then Err(Comm(data.error))
      else Ok(())
  }

  /**
   * The bus events of one framed transaction whose data phase is the event
   * data: chip-select is asserted exactly once, the data moves only if that
   * succeeded, and then deassert is always attempted.
   */
  function Frame<CommE, PinE>(a: Attempt<CommE, PinE>, data: Event): seq<Event>
  {
    if a.CsFailed? then [CsLow] else [CsLow, data, CsHigh]
  }

  /**
   * Chip-select is asserted once per frame; the data moves and deassert is
   * attempted exactly when the assert succeeded; a frame that succeeded is
   * exactly assert, data, deassert.
   */
  lemma FrameShape<CommE, PinE>(a: Attempt<CommE, PinE>, data: Event)
    requires data.IsData()
    ensures var t := Frame(a, data);
      && t[0] == CsLow && multiset(t)[CsLow] == 1
      && multiset(t)[CsHigh] == (if a.Exchanged? then 1 else 0)
      && (data in t) == (CsHigh in t) == a.Exchanged?
      && (a.CsFailed? ==> t == [CsLow])
      && (FrameResult(a).Ok? ==> t == [CsLow, data, CsHigh])
  {
  }

  lemma FrameWellFramed<CommE, PinE>(a: Attempt<CommE, PinE>, data: Event)
    requires data.IsData()
    ensures WellFramed(Frame(a, data))
  {
    var t := Frame(a, data);
    forall i | 0 <= i < |t| ensures FramedAt(t, i) {
    }
  }

  /** The chip-select level a framed transaction leaves behind. */
  function LevelAfter<CommE, PinE>(a: Attempt<CommE, PinE>): (l: Level)
    ensures l != Low
    ensures l == High <==> FrameResult(a).Ok? || FrameResult(a).error.Comm?
  {
    if a.Exchanged? && a.high.Pass? then High else Unknown
  }

  /**
   * A bus trace is well framed when every data event sits directly between an
   * assert and a deassert of chip-select.
   */
  ghost predicate WellFramed(t: seq<Event>)
  {
    forall i | 0 <= i < |t| :: FramedAt(t, i)
  }

  /** The event at position i of t, if it moves data, has an assert just before it and a deassert just after it. */
  ghost predicate FramedAt(t: seq<Event>, i: nat)
    requires i < |t|
  {
    t[i].IsData() ==> 0 < i < |t| - 1 && t[i - 1] == CsLow && t[i + 1] == CsHigh
  }

  /** The frame of a register read: the address with the direction bit set, then a dummy byte. */
  function ReadRequest(addr: Byte): (frame: seq<Byte>)
    ensures |frame| == 2 && frame[1] == 0
    ensures frame[0] & DIR_READ == DIR_READ && frame[0] & 0x7F == addr & 0x7F
  {
    [addr | DIR_READ, 0]
  }

  /** How a 2-byte frame is read on the wire: bit 7 of the first byte selects a read of the low seven bits. */
  datatype Request = ReadReg(reg: Byte) | WriteReg(reg: Byte, val: Byte)

  function Decode(frame: seq<Byte>): Option<Request>
  {
    if |frame| != 2 then None
    else if frame[0] & DIR_READ != 0 then Some(ReadReg(frame[0] & 0x7F))
    else Some(WriteReg(frame[0], frame[1]))
  }

  /**
   * One register access as the interface performed it. For a write, val is
   * the byte written; for a read, val is byte 1 of the buffer after the
   * exchange (the register value when the read succeeds).
   */
  datatype Call<CommE, PinE> = Call(op: Op, addr: Byte, val: Byte, attempt: Attempt<CommE, PinE>)

  function Requested<CommE, PinE>(c: Call<CommE, PinE>): Request
  {
    if c.op == RegRead then ReadReg(c.addr) else WriteReg(c.addr, c.val)
  }

  /**
   * The bytes a call puts on the wire. A read sets the direction bit; a write
   * sends its address and value as given, masking nothing. For any address
   * without bit 7, the frame is read back as exactly the access the caller
   * asked for.
   */
  function Sent<CommE, PinE>(c: Call<CommE, PinE>): (frame: seq<Byte>)
    ensures |frame| == 2 && frame[0] & 0x7F == c.addr & 0x7F
    ensures frame[0] & DIR_READ == (if c.op == RegRead then DIR_READ else c.addr & DIR_READ)
    ensures c.op == RegWrite ==> frame[1] == c.val
    ensures c.op == RegRead ==> frame[1] == 0
    ensures c.addr & DIR_READ == 0 ==> Decode(frame) == Some(Requested(c))
  {
    if c.op == RegRead then ReadRequest(c.addr) else [c.addr, c.val]
  }

  /** The data event of a call: reads transfer, writes only write. */
  function DataEvent<CommE, PinE>(c: Call<CommE, PinE>): (e: Event)
    ensures e.IsData() && e.sent == Sent(c)
    ensures e.Transfer? <==> c.op == RegRead
  {
    if c.op == RegRead then Event.Transfer(Sent(c)) else Event.Write(Sent(c))
  }

  /** The bus events of one call. */
  function Wire<CommE, PinE>(c: Call<CommE, PinE>): seq<Event>
  {
    Frame(c.attempt, DataEvent(c))
  }

  /** The bus events of a sequence of calls, in order. */
  function WireAll<CommE, PinE>(calls: seq<Call<CommE, PinE>>): seq<Event>
  {
    if calls == [] then []
    else WireAll(calls[..|calls| - 1]) + Wire(calls[|calls| - 1])
  }

  /** The number of calls whose chip-select assert succeeded. */
  function Exchanges<CommE, PinE>(calls: seq<Call<CommE, PinE>>): nat
  {
    if calls == [] then 0
    else Exchanges(calls[..|calls| - 1]) + (if calls[|calls| - 1].attempt.Exchanged? then 1 else 0)
  }

  /** What register_read returns for the call it made. */
  function ReadResult<CommE, PinE>(c: Call<CommE, PinE>): Result<Byte, Error<CommE, PinE>>
  {
    match FrameResult(c.attempt)
    case Ok(_) => Ok(c.val)
    case Err(e) => Err(e)
  }

  /**
   * The call register_read(addr) makes when it starts at operation k: the
   * value it returns on success is byte 1 of what the transfer received.
   */
  function ReadCall<CommE, PinE>(env: Env<CommE, PinE>, k: nat, addr: Byte): (c: Call<CommE, PinE>)
    ensures c.op == RegRead && c.addr == addr && c.attempt == AttemptAt(env, k)
    ensures ReadResult(c).Ok? ==> ReadResult(c).value == env.miso(k + 1, 1)
    ensures ReadResult(c).Err? ==> ReadResult(c).error == FrameResult(AttemptAt(env, k)).error
  {
    var a := AttemptAt(env, k);
    Call(RegRead, addr, if a.Exchanged? && a.data.Pass? then env.miso(k + 1, 1) else 0, a)
  }

  /** The chip-select level after a sequence of calls made by an interface that deasserted it at creation. */
  ghost function IdleLevel<CommE, PinE>(calls: seq<Call<CommE, PinE>>): Level
  {
    if calls == [] then High else LevelAfter(calls[|calls| - 1].attempt)
  }

  lemma WireAllSnoc<CommE, PinE>(calls: seq<Call<CommE, PinE>>, c: Call<CommE, PinE>)
    ensures WireAll(calls + [c]) == WireAll(calls) + Wire(c)
    ensures Exchanges(calls + [c]) == Exchanges(calls) + (if c.attempt.Exchanged? then 1 else 0)
  {
    assert (calls + [c])[..|calls|] == calls;
  }

  /** A trace that followed calls and then got the frame of c follows calls + [c]. */
  lemma WireAllExtend<CommE, PinE>(origin: seq<Event>, calls: seq<Call<CommE, PinE>>, c: Call<CommE, PinE>, before: seq<Event>, after: seq<Event>)
    requires before == origin + WireAll(calls) && after == before + Wire(c)
    ensures after == origin + WireAll(calls + [c])
  {
    WireAllSnoc(calls, c);
  }

  lemma AppendFramed(p: seq<Event>, w: seq<Event>)
    requires WellFramed(p) && WellFramed(w)
    ensures WellFramed(p + w)
  {
    var t := p + w;
    forall i | 0 <= i < |t|
      ensures FramedAt(t, i)
    {
      if i < |p| {
        assert FramedAt(p, i);
      } else {
        assert FramedAt(w, i - |p|);
      }
    }
  }

  /** Every trace the interface produces is well framed, however many calls it made and however they failed. */
  lemma {:induction false} WireAllFramed<CommE, PinE>(calls: seq<Call<CommE, PinE>>)
    ensures WellFramed(WireAll(calls))
  {
    if calls != [] {
      var init := calls[..|calls| - 1];
      WireAllFramed(init);
      FrameWellFramed(calls[|calls| - 1].attempt, DataEvent(calls[|calls| - 1]));
      AppendFramed(WireAll(init), Wire(calls[|calls| - 1]));
    }
  }

  /**
   * Over any sequence of calls, chip-select is asserted exactly once per
   * call and deasserted exactly once per call whose assert succeeded.
   */
  lemma {:induction false} ChipSelectCounts<CommE, PinE>(calls: seq<Call<CommE, PinE>>)
    ensures multiset(WireAll(calls))[CsLow] == |calls|
    ensures multiset(WireAll(calls))[CsHigh] == Exchanges(calls)
  {
    if calls != [] {
      var init, c := calls[..|calls| - 1], calls[|calls| - 1];
      ChipSelectCounts(init);
      FrameShape(c.attempt, DataEvent(c));
      var before, frame := WireAll(init), Wire(c);
      assert WireAll(calls) == before + frame;
      assert multiset(before + frame) == multiset(before) + multiset(frame);
    }
  }

  class SpiInterface<CommE, PinE> {
    const bus: Bus<CommE, PinE>
    ghost const origin: seq<Event>            // the bus trace when the interface was created
    ghost var calls: seq<Call<CommE, PinE>>  // every register access made since, in order

    /** The bus trace is the creation trace followed by the frames of the calls, and chip-select is where they left it. */
    ghost predicate Valid()
      reads this, bus
    {
      bus.Valid() && bus.trace == origin + WireAll(calls) && bus.cs == IdleLevel(calls)
    }

    constructor (bus: Bus<CommE, PinE>)
      ensures this.bus == bus && origin == bus.trace && calls == []
    {
      this.bus := bus;
      origin := bus.trace;
      calls := [];
    }

    /** Takes the bus and deasserts chip-select once; a pin failure is returned as Pin. */
    static method New(bus: Bus<CommE, PinE>) returns (r: Result<SpiInterface<CommE, PinE>, Error<CommE, PinE>>)
      requires bus.Valid()
      modifies bus
      ensures bus.Valid() && bus.trace == old(bus.trace) + [CsHigh]
      ensures var o := bus.env.pin(old(bus.ops));
        && (o.Fail? ==> r == Err(Pin(o.error)))
        && (o.Pass? ==> r.Ok? && fresh(r.value) && r.value.bus == bus && r.value.calls == [] && r.value.Valid())
    {
      var o := bus.SetHigh();
      if o.Fail? {
        return Err(Pin(o.error));
      }
      var device := new SpiInterface(bus);
      return Ok(device);
    }

    /**
     * Puts the read address into buffer[0], then runs one framed transfer of
     * the whole buffer, which the transfer overwrites with what it received.
     */
    method ReadBlock(addr: Byte, buffer: array<Byte>) returns (r: Result<(), Error<CommE, PinE>>)
      requires bus.Valid() && buffer.Length > 0
      modifies bus, buffer
      ensures bus.Valid()
      ensures var a := AttemptAt(bus.env, old(bus.ops));
        && r == FrameResult(a)
        && bus.trace == old(bus.trace) + Frame(a, Event.Transfer(old(buffer[..])[0 := addr | DIR_READ]))
        && bus.cs == LevelAfter(a)
        && buffer[..] == if a.Exchanged? && a.data.Pass? then Received(bus.env, old(bus.ops) + 1, buffer.Length)
                         else old(buffer[..])[0 := addr | DIR_READ]
    {
      buffer[0] := addr | DIR_READ;
      var low := bus.SetLow();
      if low.Fail? {
        return Err(Pin(low.error));
      }
      var rc := bus.Transfer(buffer);
      var high := bus.SetHigh();
      if high.Fail? {
        return Err(Pin(high.error));
      }
      if rc.Fail? {
        return Err(Comm(rc.error));
      }
      return Ok(());
    }

    /** Runs one framed write of buffer. */
    method WriteBlock(buffer: seq<Byte>) returns (r: Result<(), Error<CommE, PinE>>)
      requires bus.Valid()
      modifies bus
      ensures bus.Valid()
      ensures var a := AttemptAt(bus.env, old(bus.ops));
        && r == FrameResult(a)
        && bus.trace == old(bus.trace) + Frame(a, Event.Write(buffer))
        && bus.cs == LevelAfter(a)
    {
      var low := bus.SetLow();
      if low.Fail? {
        return Err(Pin(low.error));
      }
      var rc := bus.Write(buffer);
      var high := bus.SetHigh();
      if high.Fail? {
        return Err(Pin(high.error));
      }
      if rc.Fail? {
        return Err(Comm(rc.error));
      }
      return Ok(());
    }

    /** Reads one register: one framed transfer of [addr | DIR_READ, 0], returning byte 1 of the reply. */
    method RegisterRead(addr: Byte) returns (r: Result<Byte, Error<CommE, PinE>>)
      requires Valid()
      modifies this, bus
      ensures Valid()
      ensures var c := ReadCall(bus.env, old(bus.ops), addr);
        && calls == old(calls) + [c]
        && bus.trace == old(bus.trace) + Wire(c)
        && r == ReadResult(c)
    {
      ghost var c := ReadCall(bus.env, bus.ops, addr);
      ghost var before := bus.trace;
      var buffer := new Byte[] [0, 0];
      assert buffer[..][0 := addr | DIR_READ] == Sent(c);
      var rc := ReadBlock(addr, buffer);
      assert DataEvent(c) == Event.Transfer(Sent(c));
      assert bus.trace == before + Wire(c);
      assert bus.cs == LevelAfter(c.attempt);
      assert rc == FrameResult(c.attempt);
      assert rc.Ok? ==> buffer[1] == c.val;
      WireAllExtend(origin, calls, c, before, bus.trace);
      calls := calls + [c];
      if rc.Err? {
        return Err(rc.error);
      }
      return Ok(buffer[1]);
    }

    /** Writes one register: one framed write of [addr, val], with no direction bit added or removed. */
    method RegisterWrite(addr: Byte, val: Byte) returns (r: Result<(), Error<CommE, PinE>>)
      requires Valid()
      modifies this, bus
      ensures Valid()
      ensures var c := Call(RegWrite, addr, val, AttemptAt(bus.env, old(bus.ops)));
        && calls == old(calls) + [c]
        && bus.trace == old(bus.trace) + Wire(c)
        && r == FrameResult(c.attempt)
    {
      ghost var c := Call(RegWrite, addr, val, AttemptAt(bus.env, bus.ops));
      ghost var before := bus.trace;
      var rc := WriteBlock([addr, val]);
      assert DataEvent(c) == Event.Write([addr, val]);
      assert bus.trace == before + Wire(c);
      WireAllExtend(origin, calls, c, before, bus.trace);
      calls := calls + [c];
      assert bus.cs == IdleLevel(calls);
      if rc.Err? {
        return Err(rc.error);
      }
      return Ok(());
    }
  }
}
