/** A register-file stand-in for the chip: it decodes each frame the way the
    SX1276 does (bit 7 direction, bits 0-6 address), keeps the last value
    written to each register and shifts it out as the second byte of a read.
    Against it, the driver's framing makes a write followed by a read of the
    same register return the value written. */
module RegisterFile {
  import opened Framing
  import opened Trace
  import opened Radio

  /** Whether an event is a write frame addressed to register `addr`. */
  predicate WritesTo(e: Event, addr: bv8) {
    e.Transfer? && |e.tx| == 2 && IsWrite(e.tx[0]) && AddressOf(e.tx[0]) == addr
  }

  /** Value register `addr` holds after `history`: the payload of the last
      write frame addressed to it, or 0x00 if it was never written. */
  function Stored(history: seq<Event>, addr: bv8): bv8
    decreases |history|
  {
    if history == [] then 0x00
    else
      var e := history[|history| - 1];
      if WritesTo(e, addr) then e.tx[1]
      else Stored(history[..|history| - 1], addr)
  }

  /** The stand-in chip: the second byte of a read frame is the stored value
      of the register addressed; every other byte it sends is 0x00. */
  function Chip(history: seq<Event>, tx: seq<bv8>, k: nat): bv8 {
    if k == 1 && |tx| == 2 && !IsWrite(tx[0]) then Stored(history, AddressOf(tx[0])) else 0x00
  }

  /** Events that carry no write frame for a register leave it as it was. */
  lemma {:induction false} StoredSkipsNonWrites(history: seq<Event>, tail: seq<Event>, addr: bv8)
    requires forall e :: e in tail ==> !WritesTo(e, addr)
    ensures Stored(history + tail, addr) == Stored(history, addr)
    decreases |tail|
  {
    if tail == [] {
      assert history + tail == history;
    } else {
      var n := |tail| - 1;
      assert (history + tail)[..|history + tail| - 1] == history + tail[..n];
      assert tail[n] in tail;
      forall e | e in tail[..n] ensures !WritesTo(e, addr) {
        assert e in tail;
      }
      StoredSkipsNonWrites(history, tail[..n], addr);
    }
  }

  /** A read against the stand-in returns what the addressed register holds
      once chip-select is low. */
  lemma ReadReturnsStored(history: seq<Event>, reg: bv8)
    ensures ReadValue(Chip, history, reg) == Stored(history + [LineSet(ChipSelect, Low)], AddressOf(reg))
  {
    var h := history + [LineSet(ChipSelect, Low)];
    assert Reply(Chip, h, ReadFrame(reg))[1] == Chip(h, ReadFrame(reg), 1);
  }

  /** Round trip: reading a register right after writing it returns the
      value written, for every register byte (both frames address bits 0-6). */
  lemma WriteThenRead(history: seq<Event>, reg: bv8, value: bv8)
    ensures ReadValue(Chip, history + WriteEvents(Chip, history, reg, value), reg) == value
  {
    var w := WriteEvents(Chip, history, reg, value);
    ReadReturnsStored(history + w, reg);
    var h := history + w + [LineSet(ChipSelect, Low)];
    var tail := [w[2], LineSet(ChipSelect, Low)];
    assert h == (history + w[..2]) + tail;
    StoredSkipsNonWrites(history + w[..2], tail, AddressOf(reg));
    var last := history + w[..2];
    assert last[|last| - 1] == w[1];
  }

  /** A write leaves every other register as it was. */
  lemma WriteLeavesOthers(history: seq<Event>, reg: bv8, other: bv8, value: bv8)
    requires AddressOf(reg) != AddressOf(other)
    ensures ReadValue(Chip, history + WriteEvents(Chip, history, reg, value), other)
         == ReadValue(Chip, history, other)
  {
    var w := WriteEvents(Chip, history, reg, value);
    var a := AddressOf(other);
    ReadReturnsStored(history + w, other);
    ReadReturnsStored(history, other);
    StoredSkipsNonWrites(history, [LineSet(ChipSelect, Low)], a);
    StoredSkipsNonWrites(history, w + [LineSet(ChipSelect, Low)], a);
    assert history + w + [LineSet(ChipSelect, Low)] == history + (w + [LineSet(ChipSelect, Low)]);
  }
}
