/** The RFM95 driver routines: the reset pulse, a register write and a
    register read, as methods of an object that holds the two control-line
    levels and records every event it causes on the wire. */
module Radio {
  import opened Framing
  import opened Trace

  /** Waits of the reset pulse, in milliseconds: before the pulse, during the
      pulse (reset held low) and after release while the chip settles. */
  const ResetHoldMs: nat := 1
  const ResetPulseMs: nat := 1
  const ResetSettleMs: nat := 5

  /** The events of the reset pulse. */
  function ResetEvents(): seq<Event> {
    [LineSet(ResetLine, High), Delay(ResetHoldMs),
     LineSet(ResetLine, Low), Delay(ResetPulseMs),
     LineSet(ResetLine, High), Delay(ResetSettleMs)]
  }

  /** The events of a register write issued after `history`. */
  function WriteEvents(peer: Peer, history: seq<Event>, reg: bv8, value: bv8): seq<Event> {
    var tx := WriteFrame(reg, value);
    Transaction(tx, Reply(peer, history + [LineSet(ChipSelect, Low)], tx))
  }

  /** The events of a register read issued after `history`. */
  function ReadEvents(peer: Peer, history: seq<Event>, reg: bv8): seq<Event> {
    var tx := ReadFrame(reg);
    Transaction(tx, Reply(peer, history + [LineSet(ChipSelect, Low)], tx))
  }

  /** The value a register read issued after `history` returns. */
  function ReadValue(peer: Peer, history: seq<Event>, reg: bv8): bv8 {
    Reply(peer, history + [LineSet(ChipSelect, Low)], ReadFrame(reg))[1]
  }

  /** Reset drives only the reset line: high for 1 ms, low for 1 ms, then
      high again with a 5 ms settle wait, each write followed at once by its
      sleep. Whatever level the line had before, it is low for exactly the
      pulse, and the pulse is no longer than the settle wait after release.
      The bus is left alone. */
  lemma ResetSequence()
    ensures Holds(ResetEvents(), ResetLine)
         == Some([Hold(High, ResetHoldMs), Hold(Low, ResetPulseMs), Hold(High, ResetSettleMs)])
    ensures var r := ResetEvents();
      && |r| == 6
      && (forall i :: 0 <= i < 3 ==>
            r[2 * i] == LineSet(ResetLine, Levels(r, ResetLine)[i]) && r[2 * i + 1] == Delay(Delays(r)[i]))
      && Levels(r, ResetLine) == [High, Low, High]
      && Delays(r) == [ResetHoldMs, ResetPulseMs, ResetSettleMs] == [1, 1, 5]
    ensures forall start :: TimeAt(ResetEvents(), ResetLine, start, Low) == ResetPulseMs <= ResetSettleMs
    ensures Levels(ResetEvents(), ChipSelect) == [] && Exchanges(ResetEvents()) == []
    ensures WellFormed(ResetEvents())
  {
    ResetLeavesBusAlone();
    ResetHolds();
    var r := ResetEvents();
    HoldsShape(r, ResetLine);
    HoldsLevels(r, ResetLine);
    HoldsDelays(r, ResetLine);
    forall start
      ensures TimeAt(r, ResetLine, start, Low) == ResetPulseMs
    {
      ResetTimeLow(start);
    }
  }

  /** The reset pulse, read as writes each followed by its sleep. */
  lemma ResetHolds()
    ensures Holds(ResetEvents(), ResetLine)
         == Some([Hold(High, ResetHoldMs), Hold(Low, ResetPulseMs), Hold(High, ResetSettleMs)])
  {
    var r := ResetEvents();
    assert r[2..][2..] == r[4..];
    assert r[4..][2..] == [];
    var settle := [Hold(High, ResetSettleMs)];
    assert Holds(r[4..][2..], ResetLine) == Some([]);
    assert [Hold(High, ResetSettleMs)] + [] == settle;
    assert Holds(r[4..], ResetLine) == Some(settle);
    assert Holds(r[2..], ResetLine) == Some([Hold(Low, ResetPulseMs)] + settle);
    assert Holds(r, ResetLine) == Some([Hold(High, ResetHoldMs)] + ([Hold(Low, ResetPulseMs)] + settle));
    assert [Hold(High, ResetHoldMs)] + ([Hold(Low, ResetPulseMs)] + settle)
        == [Hold(High, ResetHoldMs), Hold(Low, ResetPulseMs), Hold(High, ResetSettleMs)];
  }

  /** During the reset pulse the line is low for exactly the pulse, whatever
      level it had before. */
  lemma ResetTimeLow(start: Level)
    ensures TimeAt(ResetEvents(), ResetLine, start, Low) == ResetPulseMs
  {
    var r := ResetEvents();
    assert r[1..][1..] == r[2..] && r[2..][1..] == r[3..] && r[3..][1..] == r[4..];
    assert r[4..][1..] == r[5..] && r[5..][1..] == [];
    assert TimeAt(r[5..], ResetLine, High, Low) == 0;
    assert TimeAt(r[4..], ResetLine, Low, Low) == 0;
    assert TimeAt(r[3..], ResetLine, Low, Low) == ResetPulseMs;
    assert TimeAt(r[2..], ResetLine, High, Low) == ResetPulseMs;
    assert TimeAt(r[1..], ResetLine, High, Low) == ResetPulseMs;
  }

  /** The reset pulse never touches chip-select, makes no exchange and keeps
      the chip-select discipline. */
  lemma ResetLeavesBusAlone()
    ensures Levels(ResetEvents(), ChipSelect) == [] && Exchanges(ResetEvents()) == []
    ensures WellFormed(ResetEvents())
  {
    ResetHolds();
    HoldsTouchNothingElse(ResetEvents(), ResetLine, ChipSelect);
    ResetHoldsWellFormed(ResetEvents());
  }

  /** A write is one transaction whose frame is the flagged address byte and
      the value; the bytes received meanwhile are recorded but not used. */
  lemma WriteTransmits(peer: Peer, history: seq<Event>, reg: bv8, value: bv8)
    ensures var t := WriteEvents(peer, history, reg, value);
      && |t| == 3
      && t[0] == LineSet(ChipSelect, Low) && t[2] == LineSet(ChipSelect, High)
      && Exchanges(t) == [t[1]]
      && t[1].tx == [reg | 0x80, value]
      && IsWrite(t[1].tx[0]) && AddressOf(t[1].tx[0]) == AddressOf(reg)
      && WellFormed(t)
  {
    var t := WriteEvents(peer, history, reg, value);
    TransactionWellFormed(t[1].tx, t[1].rx);
    TransactionProjections(t[1].tx, t[1].rx);
  }

  /** A read is one transaction whose frame is the unflagged address byte and
      the dummy byte, and it returns the second byte received. */
  lemma ReadTransmits(peer: Peer, history: seq<Event>, reg: bv8)
    ensures var t := ReadEvents(peer, history, reg);
      && |t| == 3
      && t[0] == LineSet(ChipSelect, Low) && t[2] == LineSet(ChipSelect, High)
      && Exchanges(t) == [t[1]]
      && t[1].tx == [reg & 0x7F, 0x00]
      && !IsWrite(t[1].tx[0]) && AddressOf(t[1].tx[0]) == AddressOf(reg)
      && ReadValue(peer, history, reg) == t[1].rx[1]
      && WellFormed(t)
  {
    var t := ReadEvents(peer, history, reg);
    TransactionWellFormed(t[1].tx, t[1].rx);
    TransactionProjections(t[1].tx, t[1].rx);
  }

  /** What a read returns depends only on the second byte the chip sends:
      two chips that differ only in the first byte give the same value. */
  lemma ReadIgnoresFirstByte(p: Peer, q: Peer, history: seq<Event>, reg: bv8)
    requires forall h, tx :: p(h, tx, 1) == q(h, tx, 1)
    ensures ReadValue(p, history, reg) == ReadValue(q, history, reg)
  {
  }

  /** The radio as the driver sees it: the two control-line levels it drives,
      every event so far, and the chip on the other end of the bus. */
  class Rfm95 {
    var cs: Level
    var rst: Level
    var trace: seq<Event>
    const peer: Peer

    /** Chip-select is released and the recorded events keep the discipline. */
    ghost predicate Valid()
      reads this
    {
      cs == High && WellFormed(trace)
    }

    /** The radio after pin setup: chip-select driven high (deasserted), the
        reset pin at whatever level it had. */
    constructor (peer: Peer, rst: Level)
      ensures Valid()
      ensures this.peer == peer && this.rst == rst && trace == []
    {
      this.peer := peer;
      this.rst := rst;
      cs := High;
      trace := [];
    }

    /** Drives one control line to a level (`gpio_put`). */
    method SetLine(line: Line, level: Level)
      modifies this
      ensures trace == old(trace) + [LineSet(line, level)]
      ensures cs == (if line == ChipSelect then level else old(cs))
      ensures rst == (if line == ResetLine then level else old(rst))
    {
      if line == ChipSelect {
        cs := level;
      } else {
        rst := level;
      }
      trace := trace + [LineSet(line, level)];
    }

    /** Blocks for `ms` milliseconds (`sleep_ms`); only the event is kept. */
    method SleepMs(ms: nat)
      requires Valid()
      modifies this
      ensures Valid()
      ensures trace == old(trace) + [Delay(ms)]
      ensures cs == old(cs) && rst == old(rst)
    {
      IdleEventWellFormed(trace, Delay(ms));
      trace := trace + [Delay(ms)];
    }

    /** Full-duplex exchange that fills `rx` with the bytes received
        (`spi_write_read_blocking`). */
    method SpiWriteRead(tx: seq<bv8>, rx: array<bv8>)
      requires rx.Length == |tx|
      modifies this, rx
      ensures rx[..] == Reply(peer, old(trace), tx)
      ensures trace == old(trace) + [Transfer(tx, rx[..])]
      ensures cs == old(cs) && rst == old(rst)
    {
      var reply := Reply(peer, trace, tx);
      forall k | 0 <= k < rx.Length {
        rx[k] := reply[k];
      }
      trace := trace + [Transfer(tx, reply)];
    }

    /** Exchange that drops the bytes received (`spi_write_blocking`). */
    method SpiWrite(tx: seq<bv8>)
      modifies this
      ensures trace == old(trace) + [Transfer(tx, Reply(peer, old(trace), tx))]
      ensures cs == old(cs) && rst == old(rst)
    {
      trace := trace + [Transfer(tx, Reply(peer, trace, tx))];
    }

    /** Pulses the reset line: high, low, high, with the three waits. */
    method Reset()
      requires Valid()
      modifies this
      ensures Valid()
      ensures trace == old(trace) + ResetEvents()
      ensures rst == High && cs == old(cs)
    {
      IdleEventWellFormed(trace, LineSet(ResetLine, High));
      SetLine(ResetLine, High);
      SleepMs(ResetHoldMs);
      IdleEventWellFormed(trace, LineSet(ResetLine, Low));
      SetLine(ResetLine, Low);
      SleepMs(ResetPulseMs);
      IdleEventWellFormed(trace, LineSet(ResetLine, High));
      SetLine(ResetLine, High);
      SleepMs(ResetSettleMs);
    }

    /** Writes `value` to register `reg` in one transaction. */
    method WriteReg(reg: bv8, value: bv8)
      requires Valid()
      modifies this
      ensures Valid()
      ensures trace == old(trace) + WriteEvents(peer, old(trace), reg, value)
      ensures rst == old(rst)
    {
      var txData := [reg | 0x80, value];
      SetLine(ChipSelect, Low);
      SpiWrite(txData);
      SetLine(ChipSelect, High);
      WriteTransmits(peer, old(trace), reg, value);
      assert trace == old(trace) + WriteEvents(peer, old(trace), reg, value);
      assert WellFormed(old(trace));
      WellFormedAppend(old(trace), WriteEvents(peer, old(trace), reg, value));
    }

    /** Reads register `reg` in one transaction and returns the second byte
        received. */
    method ReadReg(reg: bv8) returns (v: bv8)
      requires Valid()
      modifies this
      ensures Valid()
      ensures trace == old(trace) + ReadEvents(peer, old(trace), reg)
      ensures v == ReadValue(peer, old(trace), reg)
      ensures rst == old(rst)
    {
      var txData := [reg & 0x7F, 0x00];
      var rxData := new bv8[2];
      SetLine(ChipSelect, Low);
      SpiWriteRead(txData, rxData);
      SetLine(ChipSelect, High);
      v := rxData[1];
      ReadTransmits(peer, old(trace), reg);
      assert trace == old(trace) + ReadEvents(peer, old(trace), reg);
      assert WellFormed(old(trace));
      WellFormedAppend(old(trace), ReadEvents(peer, old(trace), reg));
    }
  }
}
