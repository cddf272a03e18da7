/**
 * The bus transport the driver is built on: an SPI peripheral offering a
 * full-duplex transfer and a write-only send, and the chip-select output pin.
 * Neither is part of the driver. Here both are one object whose answers come
 * from a fixed environment (what the k-th primitive operation on the bus
 * returns), and which records every primitive it is asked to perform in a
 * ghost trace.
 */
module Hal {

  /** One byte on the wire. */
  type Byte = bv8

  /** The result of a primitive that returns nothing on success. */
  datatype Outcome<+E> = Pass | Fail(error: E)

  /** One primitive attempted on the bus, whether or not it succeeded. */
  datatype Event =
    | CsLow                     // set_low on the chip-select pin (assert)
    | CsHigh                    // set_high on the chip-select pin (deassert)
    | Transfer(sent: seq<Byte>) // full-duplex exchange of these bytes
    | Write(sent: seq<Byte>)    // write-only send of these bytes
  {
    /** Events that move data, as opposed to chip-select events. */
    predicate IsData() { Transfer? || Write? }
  }

  /** The chip-select level as far as it is known: a failed pin operation leaves it unknown. */
  datatype Level = High | Low | Unknown

  /**
   * The behaviour of the hardware, fixed in advance. Primitive operations are
   * numbered 0, 1, 2, ... in the order they are performed on one bus.
   */
  datatype Env<CommE, PinE> = Env(
    pin: nat -> Outcome<PinE>,   // outcome of the pin operation performed as operation k
    spi: nat -> Outcome<CommE>,  // outcome of the transfer or write performed as operation k
    miso: (nat, nat) -> Byte)    // byte clocked in at position i of the transfer performed as operation k

  /** The bytes a successful transfer of length n, performed as operation k, leaves in its buffer. */
  function Received<CommE, PinE>(env: Env<CommE, PinE>, k: nat, n: nat): seq<Byte>
  {
    seq(n, i requires 0 <= i < n => env.miso(k, i))
  }

  class Bus<CommE, PinE> {
    const env: Env<CommE, PinE>
    var ops: nat                 // number of primitive operations performed so far
    ghost var trace: seq<Event>  // every primitive attempted, in order
    ghost var cs: Level          // the chip-select level

    ghost predicate Valid()
      reads this
    {
      |trace| == ops
    }

    constructor (env: Env<CommE, PinE>)
      ensures Valid() && this.env == env
      ensures trace == [] && cs == Unknown
    {
      this.env := env;
      ops := 0;
      trace := [];
      cs := Unknown;
    }

    method SetLow() returns (o: Outcome<PinE>)
      requires Valid()
      modifies this
      ensures Valid() && o == env.pin(old(ops))
      ensures trace == old(trace) + [CsLow]
      ensures cs == if o.Pass? then Low else Unknown
    {
      o := env.pin(ops);
      ops := ops + 1;
      trace := trace + [CsLow];
      cs := if o.Pass? then Low else Unknown;
    }

    method SetHigh() returns (o: Outcome<PinE>)
      requires Valid()
      modifies this
      ensures Valid() && o == env.pin(old(ops))
      ensures trace == old(trace) + [CsHigh]
      ensures cs == if o.Pass? then High else Unknown
    {
      o := env.pin(ops);
      ops := ops + 1;
      trace := trace + [CsHigh];
      cs := if o.Pass? then High else Unknown;
    }

    /** Sends the bytes of buffer and overwrites them with the bytes received. */
    method Transfer(buffer: array<Byte>) returns (o: Outcome<CommE>)
      requires Valid()
      modifies this, buffer
      ensures Valid() && o == env.spi(old(ops))
      ensures trace == old(trace) + [Event.Transfer(old(buffer[..]))]
      ensures cs == old(cs)
      ensures buffer[..] == if o.Pass? then Received(env, old(ops), buffer.Length) else old(buffer[..])
    {
      o := env.spi(ops);
      trace := trace + [Event.Transfer(buffer[..])];
      if o.Pass? {
        forall i | 0 <= i < buffer.Length {
          buffer[i] := env.miso(ops, i);
        }
      }
      ops := ops + 1;
    }

    /** Sends the bytes of words, ignoring whatever comes back. */
    method Write(words: seq<Byte>) returns (o: Outcome<CommE>)
      requires Valid()
      modifies this
      ensures Valid() && o == env.spi(old(ops))
      ensures trace == old(trace) + [Event.Write(words)]
      ensures cs == old(cs)
    {
      o := env.spi(ops);
      ops := ops + 1;
      trace := trace + [Event.Write(words)];
    }
  }
}
