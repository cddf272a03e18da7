# ICM-20948 register protocol, modelled in Dafny

This project models the core of a small `no_std` Rust driver for the ICM-20948
motion sensor. The core is a register protocol in two layers.

- **SPI sensor interface** (`src/interfaces/spi.rs`, module `Spi`). It turns a
  register read or write into one bus transaction framed by chip-select:
  assert chip-select (`set_low`), do one `transfer` or `write`, then deassert
  (`set_high`). Reads send `[addr | 0x80, 0]` and return byte 1 of the
  exchanged buffer. Writes send `[addr, val]` unchanged. The deassert is
  attempted even when the data phase failed. A deassert failure (`Pin`) is
  reported in preference to a data failure (`Comm`).
- **Bank state machine** (`src/lib.rs`, module `Driver`). The `ICM20948`
  handle remembers the selected bank (`Bank0` to `Bank3`). It switches banks by
  writing the bank number to register `0x7F`, and it updates `bank` only when
  that write succeeds. Construction selects `Bank0`. `who_am_i` reselects
  `Bank0` and then reads register `0x00`.

Files:

- `hal.dfy` (module `Hal`) holds the collaborators the driver is generic over:
  the embedded-hal SPI peripheral and the chip-select output pin. They are
  modelled as one `Bus` object. Its answers come from a fixed environment
  `Env`, which says what the k-th primitive operation on the bus returns: the
  outcome of a pin operation, the outcome of a transfer or write, and the
  bytes a transfer receives. The bus records every primitive attempted in a
  ghost trace of `CsLow`, `CsHigh`, `Transfer(bytes)` and `Write(bytes)`
  events. It also keeps the chip-select level in a ghost field. A failed pin
  operation makes that level `Unknown`.
- `errors.dfy` (module `Errors`) holds the driver's `Error` enum
  (`src/lib.rs:9-12`). `Comm` and `Pin` are distinct variants, and each keeps
  the collaborator's own error value. It also holds the `Result` and `Option`
  wrappers.
- `spi.dfy` (module `Spi`) holds the `SpiInterface` class and the
  specification of what each call puts on the bus. The interface keeps a ghost
  log `calls` of `Call(op, addr, val, attempt)` entries. Its invariant
  `Valid()` says that the bus trace is the trace at creation followed by
  `WireAll(calls)`, the frames of those calls in order. It also says that
  chip-select is at the level the last call left it.
- `driver.dfy` (module `Driver`) holds the `ICM20948` class. Its invariant says
  that `bank` is the bank of the last bank-select write that fully succeeded
  (`LastSelected`). It also says that every call made since construction is
  either a bank-select write of a value up to 3 or a read of register `0x00`.

## Model

| member | source | states |
|---|---|---|
| `Spi.FrameResult` | src/interfaces/spi.rs:32-40 | A framed transaction succeeds only if assert, data phase and deassert all succeed. A failed assert gives `Pin`. A failed deassert gives `Pin` whatever the data phase did. `Comm` is returned exactly when the data phase failed and the deassert succeeded, and it carries the transport's error. |
| `Spi.FrameShape` | src/interfaces/spi.rs:43-52 | Chip-select is asserted exactly once per transaction. The data event occurs, and the deassert is attempted, exactly when the assert succeeded. A failed assert leaves just `[CsLow]`. A successful transaction is exactly `CsLow; data; CsHigh`. |
| `Spi.LevelAfter` | src/interfaces/spi.rs:32-38 | A transaction never leaves chip-select asserted. It leaves it deasserted on success and on a `Comm` failure. Only a `Pin` failure leaves it unknown. |
| `Spi.ReadRequest` | src/interfaces/spi.rs:29-65 | The first byte of a read frame has bit 7 (`DIR_READ`, 0x80) set by `read_block`, and its low seven bits equal those of `addr`. The second byte is 0, from the zeroed buffer of `register_read`. |
| `Spi.Sent` | src/interfaces/spi.rs:64-73 | Every frame is two bytes and keeps the low seven bits of `addr`. A read frame has bit 7 set and a zero second byte. A write frame keeps bit 7 of `addr` as given and carries `val` as its second byte, so nothing is added or masked. For any address without bit 7, reading the frame by the wire convention (bit 7 means read) gives back exactly the access that was asked for. |
| `Spi.DataEvent` | src/interfaces/spi.rs:34-46 | Reads use a full-duplex transfer and writes use write-only. In both cases the bytes sent are the call's frame. |
| `Spi.ReadCall` | src/interfaces/spi.rs:64-69 | On success, `register_read` returns byte 1 of what the transfer received. On failure it returns the framing error unchanged. |
| `Spi.WireAllFramed` | src/interfaces/spi.rs:29-53 | Over any sequence of register calls, and however each one fails, every data event on the bus lies directly between a `CsLow` and a `CsHigh`. |
| `Spi.ChipSelectCounts` | src/interfaces/spi.rs:29-53 | Over any sequence of register calls, chip-select is asserted exactly once per call. It is deasserted exactly once per call whose assert succeeded. |
| `Spi.SpiInterface.New` | src/interfaces/spi.rs:21-27 | Makes exactly one chip-select deassert. If it fails, the result is `Pin` with the pin's error. Otherwise the result is a fresh interface with an empty call log and chip-select high. |
| `Spi.SpiInterface.ReadBlock` | src/interfaces/spi.rs:29-41 | Sets `buffer[0]` to `addr` with bit 7 set before anything else. It then makes one framed transfer of the whole buffer, and the transfer overwrites the buffer on success. The result, trace and chip-select level are those of the framing specification. |
| `Spi.SpiInterface.WriteBlock` | src/interfaces/spi.rs:43-53 | Makes one framed write of the buffer. The result, trace and chip-select level are those of the framing specification. |
| `Spi.SpiInterface.RegisterRead` | src/interfaces/spi.rs:64-69 | Appends exactly one read call (`ReadCall`) to the log and its frame to the bus trace. Returns what `ReadResult` gives for it. Keeps `Valid()`. |
| `Spi.SpiInterface.RegisterWrite` | src/interfaces/spi.rs:71-75 | Appends exactly one write call `(RegWrite, addr, val)` to the log and its frame, a single `Write([addr, val])` with no transfer, to the trace. Returns the framing result. Keeps `Valid()`. |
| `Driver.BankIndex` | src/lib.rs:61-67 | The value written for a bank is its number, at most 3. Each bank has its own number, and the driver's numbering maps it back to the bank. |
| `Driver.LastSelectedSkips` | src/lib.rs:61-72 | Calls that do not fully succeed in writing the bank-select register leave the selected bank unchanged. These are reads, writes elsewhere and failed bank-select writes. |
| `Driver.SelectWriteOnWireWithoutSelecting` | src/lib.rs:61-72 | A bank-select write whose deassert fails has still put the bank number on the bus. Yet it returns `Pin` and leaves the driver's bank unchanged. |
| `Driver.ICM20948.ChangeBank` | src/lib.rs:61-72 | Issues exactly one `register_write(0x7F, BankIndex(b))`, even when `b` is already selected. Returns its result unchanged. Sets `bank := b` only on success, and otherwise keeps the old bank. Preserves `Valid()`, and establishes it on success. |
| `Driver.ICM20948.NewWithInterface` | src/lib.rs:45-54 | Issues exactly one write of `(0x7F, 0)` and propagates its error. On success, returns a fresh handle in `Bank0` that satisfies `Valid()`. |
| `Driver.ICM20948.WhoAmI` | src/lib.rs:56-59 | Whatever the prior bank, writes `(0x7F, 0)` first. If that fails, it returns the error, issues no read and keeps the bank. Otherwise it reads register `0x00` and returns that result with `bank == Bank0`. The read is then made with bank 0 as the last selected bank. |
| `Driver.ICM20948.NewSpi` | src/lib.rs:27-38 | End to end on the bus, the trace is one `CsHigh`. If that succeeded, it is followed by the frame of `Write([0x7F, 0])`. A deassert failure gives `Pin`. A failed bank-select write gives its error. Success gives a `Bank0` handle. |

## Left out

- The `SensorInterface` trait (declared in `src/interfaces/mod.rs`, which is not part of this model) is not modelled as an abstraction. The model has no trait, so `ICM20948` holds the one implementation the source has, `SpiInterface`, as `new_spi` builds it.
- `read_vec3_i16` (`src/interfaces/spi.rs:77-79`) is a stub that always returns zeros. It gives no byte order or block-read behaviour to model.
- The embedded-hal `Transfer`, `Write` and `OutputPin` traits are foreign. They are represented only by the `Bus` object, whose outcomes come from a fixed environment. A failed transfer is modelled as leaving the buffer unchanged, since embedded-hal leaves it unspecified and the only caller discards it.
- The model uses one `Bus` object for both the SPI peripheral and the chip-select pin, so that the order of their events is kept in one trace.
- Electrical and timing behaviour of SPI, and how the device reacts to frames, are not modelled. In particular, a register value written is not related to the value later read back. The device's reading of the value written to `0x7F` is not modelled either: the driver writes the bank number itself (0 to 3), as the source does.
- Soft reset, setup, temperature conversion and all register constants other than `0x7F` and `0x00` are not part of the modelled source.
- Concurrency and sharing of the bus are not modelled: the driver assumes one owner on one thread.
- Rust's panic on an empty buffer in `read_block` appears as the precondition `buffer.Length > 0`. The only caller passes a 2-byte buffer.
- `Spi.SpiInterface.New` sets chip-select high before creating the interface object. The source creates the object first. Creating it has no effect on the bus, so the two orders are indistinguishable.
