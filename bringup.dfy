/** Bring-up of the radio: reset it, read the version register, and only if
    the chip identifies as an SX1276 write the operating mode and start
    polling it. The hang on a failed check becomes a Fatal outcome, and the
    endless polling loop runs a given number of iterations. */
module BringUp {
  import opened Framing
  import opened Trace
  import opened Radio

  /** Silicon version an SX1276/RFM95 reports in RegVersion. */
  const ExpectedVersion: bv8 := 0x12
  /** RegOpMode value written after a good check: LoRa mode, sleep. */
  const LoraSleepMode: bv8 := 0x80
  /** Wait between two polls of RegOpMode, in milliseconds. */
  const PollPeriodMs: nat := 1000

  datatype Outcome =
    | Ready(version: bv8, opModes: seq<bv8>)  // version matched; the RegOpMode values polled
    | Fatal(version: bv8)                     // version mismatch: no further register access

  /** One polling iteration after `history`: read RegOpMode, then wait. */
  function PollIteration(peer: Peer, history: seq<Event>): seq<Event> {
    ReadEvents(peer, history, RegOpMode) + [Delay(PollPeriodMs)]
  }

  /** The events of `n` polling iterations after `history`. */
  function PollEvents(peer: Peer, history: seq<Event>, n: nat): seq<Event> {
    if n == 0 then []
    else
      var earlier := PollEvents(peer, history, n - 1);
      earlier + PollIteration(peer, history + earlier)
  }

  /** The RegOpMode values those `n` iterations read. */
  function PollValues(peer: Peer, history: seq<Event>, n: nat): seq<bv8> {
    if n == 0 then []
    else
      PollValues(peer, history, n - 1)
      + [ReadValue(peer, history + PollEvents(peer, history, n - 1), RegOpMode)]
  }

  /** What the bring-up does after `history`: its outcome and its events. */
  datatype Session = Session(outcome: Outcome, events: seq<Event>)

  function BringUpSession(peer: Peer, history: seq<Event>, polls: nat): Session {
    var reset := ResetEvents();
    var check := ReadEvents(peer, history + reset, RegVersion);
    var version := ReadValue(peer, history + reset, RegVersion);
    if version != ExpectedVersion then
      Session(Fatal(version), reset + check)
    else
      var mode := WriteEvents(peer, history + reset + check, RegOpMode, LoraSleepMode);
      var before := history + reset + check + mode;
      Session(Ready(version, PollValues(peer, before, polls)),
              reset + check + mode + PollEvents(peer, before, polls))
  }

  /** Each polling iteration is one read of RegOpMode and nothing else on the
      bus: n iterations make n read transactions, no write among them, and the
      i-th value reported is the second byte received in the i-th exchange. */
  lemma {:induction false} PollIsReadsOnly(peer: Peer, history: seq<Event>, n: nat)
    ensures var x := Exchanges(PollEvents(peer, history, n));
      && |x| == n == |PollValues(peer, history, n)|
      && forall i :: 0 <= i < n ==>
           && x[i].tx == ReadFrame(RegOpMode)
           && !IsWrite(x[i].tx[0])
           && |x[i].rx| == 2
           && x[i].rx[1] == PollValues(peer, history, n)[i]
  {
    if n > 0 {
      var earlier := PollEvents(peer, history, n - 1);
      var x' := Exchanges(earlier);
      var values' := PollValues(peer, history, n - 1);
      PollIsReadsOnly(peer, history, n - 1);
      var last := PollStep(peer, history, n);
      var x := Exchanges(PollEvents(peer, history, n));
      var values := PollValues(peer, history, n);
      forall i | 0 <= i < n
        ensures x[i].tx == ReadFrame(RegOpMode) && |x[i].rx| == 2 && x[i].rx[1] == values[i]
      {
        if i < n - 1 {
          assert x[i] == x'[i] && values[i] == values'[i];
        }
      }
    }
  }

  /** The n-th polling iteration adds one read exchange and one value. */
  lemma PollStep(peer: Peer, history: seq<Event>, n: nat) returns (last: Event)
    requires n > 0
    ensures last.Transfer? && last.tx == ReadFrame(RegOpMode) && |last.rx| == 2
    ensures Exchanges(PollEvents(peer, history, n)) == Exchanges(PollEvents(peer, history, n - 1)) + [last]
    ensures PollValues(peer, history, n) == PollValues(peer, history, n - 1) + [last.rx[1]]
  {
    var earlier := PollEvents(peer, history, n - 1);
    var read := ReadEvents(peer, history + earlier, RegOpMode);
    ReadTransmits(peer, history + earlier, RegOpMode);
    assert Exchanges([Delay(PollPeriodMs)]) == [];
    ExchangesAppend(read, [Delay(PollPeriodMs)]);
    ExchangesAppend(earlier, read + [Delay(PollPeriodMs)]);
    assert PollEvents(peer, history, n) == earlier + (read + [Delay(PollPeriodMs)]);
    last := read[1];
  }

  /** Polling keeps the chip-select discipline. */
  lemma {:induction false} PollWellFormed(peer: Peer, history: seq<Event>, n: nat)
    ensures WellFormed(PollEvents(peer, history, n))
  {
    if n == 0 {
      assert WellFormed([]);
    } else {
      var earlier := PollEvents(peer, history, n - 1);
      var read := ReadEvents(peer, history + earlier, RegOpMode);
      PollWellFormed(peer, history, n - 1);
      ReadTransmits(peer, history + earlier, RegOpMode);
      WellFormedAppend(earlier, read);
      IdleEventWellFormed(earlier + read, Delay(PollPeriodMs));
      assert earlier + read + [Delay(PollPeriodMs)] == PollEvents(peer, history, n);
    }
  }

  /** The bring-up resets the chip before anything else, then reads the
      version register, and the outcome is Ready exactly when that read gives
      0x12; on a mismatch the version read is the only transaction. */
  lemma BringUpChecksVersionFirst(peer: Peer, history: seq<Event>, polls: nat)
    ensures var s := BringUpSession(peer, history, polls);
      && |s.events| >= |ResetEvents()| && s.events[..|ResetEvents()|] == ResetEvents()
      && s.outcome.version == ReadValue(peer, history + ResetEvents(), RegVersion)
      && (s.outcome.Ready? <==> s.outcome.version == ExpectedVersion)
    ensures var s := BringUpSession(peer, history, polls);
      var x := Exchanges(s.events);
      && |x| >= 1 && x[0].tx == ReadFrame(RegVersion) && |x[0].rx| == 2
      && x[0].rx[1] == s.outcome.version
      && (s.outcome.Fatal? ==> |x| == 1)
  {
    var reset := ResetEvents();
    var check := ReadEvents(peer, history + reset, RegVersion);
    ResetLeavesBusAlone();
    ReadTransmits(peer, history + reset, RegVersion);
    ExchangesAppend(reset, check);
    var s := BringUpSession(peer, history, polls);
    if s.outcome.Ready? {
      var mode := WriteEvents(peer, history + reset + check, RegOpMode, LoraSleepMode);
      ExchangesAppend(reset + check, mode + PollEvents(peer, history + reset + check + mode, polls));
      assert s.events == (reset + check) + (mode + PollEvents(peer, history + reset + check + mode, polls));
    }
  }

  /** After a matching version the bring-up writes LoRa-sleep to RegOpMode in
      the second transaction, and every later transaction is a read of
      RegOpMode whose second received byte is the value reported for it. */
  lemma BringUpReady(peer: Peer, history: seq<Event>, polls: nat)
    requires BringUpSession(peer, history, polls).outcome.Ready?
    ensures var s := BringUpSession(peer, history, polls);
      var x := Exchanges(s.events);
      && |x| == 2 + polls && |s.outcome.opModes| == polls
      && x[1].tx == WriteFrame(RegOpMode, LoraSleepMode)
      && (forall i :: 2 <= i < |x| ==>
            x[i].tx == ReadFrame(RegOpMode) && |x[i].rx| == 2 && x[i].rx[1] == s.outcome.opModes[i - 2])
  {
    var s := BringUpSession(peer, history, polls);
    var before := ReadyPrefix(peer, history);
    var x := Exchanges(s.events);
    var px := Exchanges(PollEvents(peer, before, polls));
    ReadyExchanges(peer, history, polls);
    PollIsReadsOnly(peer, before, polls);
    forall i | 2 <= i < |x|
      ensures x[i].tx == ReadFrame(RegOpMode) && |x[i].rx| == 2 && x[i].rx[1] == s.outcome.opModes[i - 2]
    {
      assert x[i] == px[i - 2];
    }
  }

  /** Everything on the wire before polling starts, after a matching check. */
  function ReadyPrefix(peer: Peer, history: seq<Event>): seq<Event> {
    var reset := ResetEvents();
    var check := ReadEvents(peer, history + reset, RegVersion);
    history + reset + check + WriteEvents(peer, history + reset + check, RegOpMode, LoraSleepMode)
  }

  /** After a matching check the exchanges are the version read, the mode
      write, then those of polling. */
  lemma ReadyExchanges(peer: Peer, history: seq<Event>, polls: nat)
    requires BringUpSession(peer, history, polls).outcome.Ready?
    ensures var before := ReadyPrefix(peer, history);
      var x := Exchanges(BringUpSession(peer, history, polls).events);
      && |x| >= 2 && x[1].tx == WriteFrame(RegOpMode, LoraSleepMode)
      && x[2..] == Exchanges(PollEvents(peer, before, polls))
      && BringUpSession(peer, history, polls).outcome.opModes == PollValues(peer, before, polls)
  {
    var s := BringUpSession(peer, history, polls);
    var reset := ResetEvents();
    var check := ReadEvents(peer, history + reset, RegVersion);
    var mode := WriteEvents(peer, history + reset + check, RegOpMode, LoraSleepMode);
    var poll := PollEvents(peer, ReadyPrefix(peer, history), polls);
    assert Exchanges(reset + check) == [check[1]] by {
      ResetLeavesBusAlone();
      ReadTransmits(peer, history + reset, RegVersion);
      ExchangesAppend(reset, check);
    }
    assert Exchanges(reset + check + mode) == [check[1], mode[1]] by {
      WriteTransmits(peer, history + reset + check, RegOpMode, LoraSleepMode);
      ExchangesAppend(reset + check, mode);
    }
    ExchangesAppend(reset + check + mode, poll);
    assert s.events == reset + check + mode + poll;
    assert Exchanges(s.events) == [check[1], mode[1]] + Exchanges(poll);
  }

  /** The whole bring-up keeps the chip-select discipline, whatever the
      version read. */
  lemma BringUpWellFormed(peer: Peer, history: seq<Event>, polls: nat)
    ensures WellFormed(BringUpSession(peer, history, polls).events)
  {
    var s := BringUpSession(peer, history, polls);
    var reset := ResetEvents();
    var check := ReadEvents(peer, history + reset, RegVersion);
    ResetLeavesBusAlone();
    ReadTransmits(peer, history + reset, RegVersion);
    WellFormedAppend(reset, check);
    if s.outcome.Ready? {
      var mode := WriteEvents(peer, history + reset + check, RegOpMode, LoraSleepMode);
      var before := history + reset + check + mode;
      var poll := PollEvents(peer, before, polls);
      WriteTransmits(peer, history + reset + check, RegOpMode, LoraSleepMode);
      PollWellFormed(peer, before, polls);
      WellFormedAppend(reset + check, mode);
      WellFormedAppend(reset + check + mode, poll);
    }
  }

  /** The mode write happens if and only if the version check passed. */
  lemma ModeWrittenIffVersionMatches(peer: Peer, history: seq<Event>, polls: nat)
    ensures var s := BringUpSession(peer, history, polls);
      var x := Exchanges(s.events);
      (exists i :: 0 <= i < |x| && x[i].tx == WriteFrame(RegOpMode, LoraSleepMode))
        <==> ReadValue(peer, history + ResetEvents(), RegVersion) == ExpectedVersion
  {
    var s := BringUpSession(peer, history, polls);
    var x := Exchanges(s.events);
    BringUpChecksVersionFirst(peer, history, polls);
    if s.outcome.Ready? {
      BringUpReady(peer, history, polls);
      assert x[1].tx == WriteFrame(RegOpMode, LoraSleepMode);
    } else {
      assert ReadFrame(RegVersion) != WriteFrame(RegOpMode, LoraSleepMode);
    }
  }

  /** Polls RegOpMode `n` times, waiting between polls, and returns the
      values read. */
  method Poll(radio: Rfm95, n: nat) returns (opModes: seq<bv8>)
    requires radio.Valid()
    modifies radio
    ensures radio.Valid()
    ensures radio.trace == old(radio.trace) + PollEvents(radio.peer, old(radio.trace), n)
    ensures opModes == PollValues(radio.peer, old(radio.trace), n)
    ensures radio.rst == old(radio.rst)
  {
    opModes := [];
    var i := 0;
    while i < n
      invariant 0 <= i <= n
      invariant radio.Valid()
      invariant radio.trace == old(radio.trace) + PollEvents(radio.peer, old(radio.trace), i)
      invariant opModes == PollValues(radio.peer, old(radio.trace), i)
      invariant radio.rst == old(radio.rst)
    {
      var opMode := radio.ReadReg(RegOpMode);
      opModes := opModes + [opMode];
      radio.SleepMs(PollPeriodMs);
      i := i + 1;
    }
  }

  /** Resets the radio, checks its version and, if it matches, sets LoRa
      sleep mode and polls RegOpMode `polls` times. */
  method BringUpAndPoll(radio: Rfm95, polls: nat) returns (outcome: Outcome)
    requires radio.Valid()
    modifies radio
    ensures radio.Valid()
    ensures outcome == BringUpSession(radio.peer, old(radio.trace), polls).outcome
    ensures radio.trace == old(radio.trace) + BringUpSession(radio.peer, old(radio.trace), polls).events
    ensures radio.rst == High
  {
    radio.Reset();
    var version := radio.ReadReg(RegVersion);
    if version != ExpectedVersion {
      outcome := Fatal(version);
      return;
    }
    radio.WriteReg(RegOpMode, LoraSleepMode);
    var opModes := Poll(radio, polls);
    outcome := Ready(version, opModes);
  }
}
