# RFM95 / SX1276 register access over SPI — a Dafny model

This project models the driver core of a bring-up tool for an RFM95 (SX1276)
LoRa radio attached to a microcontroller over SPI. It covers three parts:

- **Register framing.** Every register access is a two-byte SPI frame. The
  first byte carries the register address in bits 0-6 and the direction in
  bit 7: `reg | 0x80` for a write, `reg & 0x7F` for a read. The second byte is
  the value written, or the dummy byte `0x00` during a read. A read returns
  the second byte received. The frame follows the single-access SPI mode of
  the SX1276 datasheet.
- **Transactions and the reset pulse.** Each transaction drives chip-select
  low, does one two-byte exchange, and drives chip-select high. The reset
  routine drives the reset line high, low, high, sleeping 1, 1 and 5 ms.
- **Bring-up.** The driver resets the chip and reads the version register
  (0x42). Only if the version is 0x12 does it write 0x80 (LoRa mode, sleep) to
  RegOpMode (0x01). After that it polls RegOpMode, sleeping 1000 ms between
  polls.

The hardware is abstracted as a class, `Radio.Rfm95`. It holds the levels of
the chip-select and reset lines and a trace of every event the driver causes.
A trace event is a line write, a sleep, or an SPI exchange with the bytes sent
and received. The chip on the other end is a `Peer`: a function that gives
the byte the chip shifts out at each position of an exchange, from the frame
and the whole history before it. `Trace.WellFormed` states the chip-select
discipline as a small state machine over the trace, and `Rfm95.Valid()` keeps
it as the object invariant.

Files and modules:

- `framing.dfy` (`Framing`): address-byte framing, frames, and how the chip
  decodes them.
- `trace.dfy` (`Trace`): events, the peer oracle, the chip-select discipline,
  and projections of a trace (its exchanges, line levels and delays).
- `radio.dfy` (`Radio`): `rmf95_reset`, `rmf95_write_reg` and
  `rmf95_read_reg` as methods of `Rfm95`, each specified by a function that
  gives the events it adds.
- `bringup.dfy` (`BringUp`): the control logic of `main` as a specification
  function `BringUpSession`, and the methods `BringUpAndPoll` and `Poll`
  proved against it.
- `register_file.dfy` (`RegisterFile`): a register-file stand-in for the chip.
  It proves that a write followed by a read of the same register returns the
  value written.

Register addresses are 7-bit, but `rmf95_write_reg` and `rmf95_read_reg` take
any `uint8_t` and overwrite bit 7, so `WriteReg` and `ReadReg` accept every
byte and have no precondition. The polling loop also sleeps 1000 ms per
iteration (lora_rx_01.c:97), and the model records that delay.

The reset pulse is also read in terms of holds: a `Hold` is a write to a line
together with the sleep right after it, `Trace.Holds` reads a trace as a list
of holds, and `Trace.TimeAt` sums the milliseconds a line spends at a level.

## Model

| member | source | states |
|---|---|---|
| `Framing.WriteAddress` | lora_rx_01.c:31 | the write address byte has bit 7 set and keeps the register's bits 0-6 |
| `Framing.ReadAddress` | lora_rx_01.c:40 | the read address byte has bit 7 clear and keeps bits 0-6; for a register at most 0x7F it is the register itself |
| `Framing.WriteFrame` | lora_rx_01.c:31 | a write frame is two bytes: a write-flagged byte for the register, then the value unchanged |
| `Framing.ReadFrame` | lora_rx_01.c:40 | a read frame is two bytes: a read byte for the register, then the dummy 0x00 |
| `Framing.AddressBytesDifferOnlyInBit7` | lora_rx_01.c:31-40 | for every byte `reg`, the write and read address bytes agree in bits 0-6 and differ in bit 7 (their XOR is 0x80) |
| `Framing.FramingDecodes` | lora_rx_01.c:31-40 | for a 7-bit register, the chip recovers both the address and the direction from either address byte |
| `Trace.TransactionWellFormed` | lora_rx_01.c:33-35 | select, one two-byte exchange, deselect keeps the chip-select discipline |
| `Trace.TransactionProjections` | lora_rx_01.c:43-45 | a transaction holds exactly one exchange, drives chip-select low then high, and leaves the reset line alone |
| `Trace.ExchangeIsBracketed` | lora_rx_01.c:33-45 | in a disciplined trace, every exchange has two bytes each way, the event just before it drives chip-select low, and the event just after it drives it high, so no two exchanges share one low window |
| `Trace.ScanAppend` | lora_rx_01.c:33-45 | checking the discipline over a concatenation checks the first part, then the second from where the first ended |
| `Radio.ResetSequence` | lora_rx_01.c:18-27 | reset is exactly three holds of the reset line, high 1 ms, low 1 ms, high 5 ms, each write at index 2i followed at once by its sleep at 2i+1; whatever level the line had before, it is low for exactly the 1 ms pulse, which is no longer than the 5 ms settle wait after release; chip-select is never driven, no exchange happens, and the discipline is kept |
| `Radio.ResetHolds` | lora_rx_01.c:20-26 | the reset events read as holds are (high, 1 ms), (low, 1 ms), (high, 5 ms) |
| `Radio.ResetTimeLow` | lora_rx_01.c:23-25 | from any starting level, the reset line spends exactly `ResetPulseMs` asleep while low |
| `Radio.ResetLeavesBusAlone` | lora_rx_01.c:18-27 | the reset pulse drives no chip-select level, makes no exchange and keeps the discipline |
| `Trace.HoldsShape` | lora_rx_01.c:20-26 | a trace read as holds has twice as many events as holds, with hold i's write at index 2i and its sleep at 2i+1 |
| `Trace.HoldsLevels` | lora_rx_01.c:20-25 | a trace read as holds of a line drives, on that line, exactly the levels of its holds in order |
| `Trace.HoldsDelays` | lora_rx_01.c:21-26 | a trace read as holds sleeps exactly the waits of its holds in order |
| `Trace.HoldsTouchNothingElse` | lora_rx_01.c:18-27 | a trace read as holds of one line drives no other line and makes no exchange |
| `Trace.ResetHoldsWellFormed` | lora_rx_01.c:18-27 | any trace made of reset-line holds keeps the chip-select discipline |
| `Radio.WriteTransmits` | lora_rx_01.c:30-36 | a write is one transaction whose frame is the byte reg OR 0x80 followed by the value, write-flagged and addressing `reg`'s bits 0-6 |
| `Radio.ReadTransmits` | lora_rx_01.c:39-48 | a read is one transaction whose frame is `[reg & 0x7F, 0x00]`, and the value returned is the second byte received in it |
| `Radio.ReadIgnoresFirstByte` | lora_rx_01.c:44-47 | two chips that send the same second byte give the same read value, whatever their first bytes |
| `Radio.Rfm95.constructor` | lora_rx_01.c:64-71 | after pin setup, chip-select is deasserted (high), the trace is empty, and the object invariant holds |
| `Radio.Rfm95.SetLine` | lora_rx_01.c:20-25 | drives one line (`gpio_put`, also at lines 33, 35, 43, 45): exactly that line's level changes, the other is unchanged, and the write is recorded |
| `Radio.Rfm95.SleepMs` | lora_rx_01.c:21-26 | a sleep (`sleep_ms`, also at line 97) records one delay of the given milliseconds, changes no line and keeps the invariant |
| `Radio.Rfm95.SpiWrite` | lora_rx_01.c:34 | a transmit-only exchange records the frame and the chip's reply, which is dropped; no line changes |
| `Radio.Rfm95.SpiWriteRead` | lora_rx_01.c:44 | the receive buffer is filled with the chip's reply, one byte per byte sent, and the exchange is recorded |
| `Radio.Rfm95.Reset` | lora_rx_01.c:18-27 | appends exactly the reset events; the reset line ends high; chip-select is unchanged; the invariant is kept |
| `Radio.Rfm95.WriteReg` | lora_rx_01.c:30-36 | appends exactly one write transaction for `(reg, value)`; the reset line is unchanged; the invariant is kept |
| `Radio.Rfm95.ReadReg` | lora_rx_01.c:39-48 | appends exactly one read transaction for `reg` and returns the second byte received in it; the invariant is kept |
| `BringUp.PollIsReadsOnly` | lora_rx_01.c:94-98 | n polling iterations make exactly n exchanges; each is a read frame for RegOpMode with bit 7 clear, so there are no writes; the i-th value reported is the second byte received in the i-th exchange |
| `BringUp.PollWellFormed` | lora_rx_01.c:94-98 | polling keeps the chip-select discipline |
| `BringUp.Poll` | lora_rx_01.c:94-98 | the loop appends exactly the events of n iterations (a RegOpMode read, then a 1000 ms sleep) and returns their values |
| `BringUp.BringUpChecksVersionFirst` | lora_rx_01.c:75-89 | bring-up starts with the whole reset sequence; its first exchange reads register 0x42; the outcome is Ready exactly when that read gives 0x12; on a mismatch that read is the only exchange |
| `BringUp.BringUpReady` | lora_rx_01.c:91-98 | after a match, the second exchange writes 0x80 to RegOpMode; every later exchange is a RegOpMode read whose second received byte is the value reported |
| `BringUp.ReadyExchanges` | lora_rx_01.c:75-98 | after a match the second exchange is the RegOpMode write, the exchanges after it are exactly those of polling, and the values reported are the polling values |
| `BringUp.ModeWrittenIffVersionMatches` | lora_rx_01.c:82-92 | the frame writing 0x80 to RegOpMode is sent if and only if the version read equals 0x12 |
| `BringUp.BringUpWellFormed` | lora_rx_01.c:75-98 | the whole bring-up keeps the chip-select discipline, whatever the version read |
| `BringUp.BringUpAndPoll` | lora_rx_01.c:75-98 | the method's outcome and new trace are those of `BringUpSession`; the invariant is kept and the reset line ends high |
| `RegisterFile.ReadReturnsStored` | lora_rx_01.c:39-47 | against the register-file stand-in, a read returns the value the addressed register holds |
| `RegisterFile.WriteThenRead` | lora_rx_01.c:30-47 | against a chip that stores writes, reading a register right after writing it returns the value written, for every register byte |
| `RegisterFile.WriteLeavesOthers` | lora_rx_01.c:30-47 | a write to one register does not change what a read of any register with other bits 0-6 returns |

## Left out

- SPI and pin setup (`spi_init` at 500 kHz, `spi_set_format` mode 0 MSB-first, `gpio_set_function`, `gpio_init`, `gpio_set_dir`, pin numbers). These are hardware configuration through SDK calls. The constructor only records their outcome: chip-select high, with the reset pin at a level given as a parameter.
- `stdio_init_all` and every `printf`. This is terminal output. The values printed (the version, the polled RegOpMode values) are returned in the `Outcome` instead.
- The 2000 ms and 10000 ms start-up sleeps. They are pauses for the bench operator, not protocol. The real-time effect of every `sleep_ms` is left out too: a sleep is only a recorded `Delay` event carrying its milliseconds.
- The `while(1);` hang after a failed version check is modelled as the `Fatal` outcome, after which no event is added.
- The endless polling loop is modelled as `polls` iterations. Termination of the process is not modelled.
- SPI byte shifting and what the chip actually does. Received bytes come from the abstract `Peer` function. `RegisterFile.Chip` is a stand-in with a register file that reads 0x00 until written; it is not the SX1276's register map or reset values.
- Transport failure. The SDK's exchange calls cannot fail in the source, so the model has no error path for them.
- Concurrency. The source is single-threaded, so no lock around the chip-select window is modelled.
