/** What the driver does to the outside world, as a sequence of events: the
    levels it drives on the chip-select and reset lines, the delays it sleeps
    and the full-duplex SPI exchanges it performs. The chip itself is an
    oracle (`Peer`) that answers each exchange. */
module Trace {
  import opened Framing

  datatype Option<T> = None | Some(value: T)

  datatype Line = ChipSelect | ResetLine
  datatype Level = Low | High

  datatype Event =
    | LineSet(line: Line, level: Level)     // a GPIO output driven to a level
    | Delay(ms: nat)                        // a blocking sleep of `ms` milliseconds
    | Transfer(tx: seq<bv8>, rx: seq<bv8>)  // one SPI exchange: bytes sent, bytes received

  /** The chip, seen from the bus: the byte it shifts out at position k of an
      exchange that transmits `tx`, given every event before the exchange. */
  type Peer = (seq<Event>, seq<bv8>, nat) -> bv8

  /** The bytes received during an exchange: one per byte transmitted. */
  function Reply(peer: Peer, history: seq<Event>, tx: seq<bv8>): (rx: seq<bv8>)
    ensures |rx| == |tx|
  {
    seq(|tx|, k requires 0 <= k < |tx| => peer(history, tx, k))
  }

  /** One register transaction on the wire: select, exchange, deselect. */
  function Transaction(tx: seq<bv8>, rx: seq<bv8>): seq<Event> {
    [LineSet(ChipSelect, Low), Transfer(tx, rx), LineSet(ChipSelect, High)]
  }

  // ---------------------------------------------------------------------
  // Chip-select discipline

  /** Where the bus is within a transaction. */
  datatype BusState =
    | Deselected   // chip-select high
    | Selected     // chip-select low, no exchange yet in this window
    | Exchanged    // chip-select low, its one exchange done

  /** The only moves the protocol allows: select, exactly one two-byte
      exchange, deselect; reset-line writes and sleeps only while deselected. */
  function Step(s: BusState, e: Event): Option<BusState> {
    match e
    case LineSet(ChipSelect, Low) => if s == Deselected then Some(Selected) else None
    case LineSet(ChipSelect, High) => if s == Exchanged then Some(Deselected) else None
    case Transfer(tx, rx) =>
      if s == Selected && |tx| == 2 && |rx| == 2 then Some(Exchanged) else None
    case _ => if s == Deselected then Some(Deselected) else None
  }

  /** Runs the discipline over a trace; None when some event breaks it. */
  function Scan(s: BusState, t: seq<Event>): Option<BusState>
    decreases |t|
  {
    if t == [] then Some(s)
    else match Step(s, t[0])
      case None => None
      case Some(s') => Scan(s', t[1..])
  }

  /** A trace that keeps the discipline and ends with chip-select released. */
  ghost predicate WellFormed(t: seq<Event>) {
    Scan(Deselected, t) == Some(Deselected)
  }

  /** Scanning a concatenation scans the first part, then the second. */
  lemma {:induction false} ScanAppend(s: BusState, a: seq<Event>, b: seq<Event>)
    ensures Scan(s, a + b) == match Scan(s, a)
                              case None => None
                              case Some(m) => Scan(m, b)
    decreases |a|
  {
    if a == [] {
      assert a + b == b;
    } else {
      assert (a + b)[0] == a[0];
      assert (a + b)[1..] == a[1..] + b;
      match Step(s, a[0])
      case None =>
      case Some(s') => ScanAppend(s', a[1..], b);
    }
  }

  /** Well-formed traces are closed under concatenation. */
  lemma WellFormedAppend(a: seq<Event>, b: seq<Event>)
    requires WellFormed(a) && WellFormed(b)
    ensures WellFormed(a + b)
  {
    ScanAppend(Deselected, a, b);
  }

  /** A two-byte transaction keeps the discipline. */
  lemma TransactionWellFormed(tx: seq<bv8>, rx: seq<bv8>)
    requires |tx| == 2 && |rx| == 2
    ensures WellFormed(Transaction(tx, rx))
  {
    var t := Transaction(tx, rx);
    assert Scan(Exchanged, t[2..]) == Some(Deselected) by {
      assert t[2..][1..] == [];
    }
    assert t[1..][1..] == t[2..];
    assert Scan(Selected, t[1..]) == Some(Deselected);
  }

  /** A reset-line write or a sleep, appended while deselected, keeps the
      discipline. */
  lemma IdleEventWellFormed(t: seq<Event>, e: Event)
    requires WellFormed(t)
    requires e.Delay? || (e.LineSet? && e.line == ResetLine)
    ensures WellFormed(t + [e])
  {
    assert [e][1..] == [];
    ScanAppend(Deselected, t, [e]);
  }

  /** In a well-formed trace every exchange sits alone in its own chip-select
      window: the event just before it drives chip-select low and the event
      just after it drives chip-select high. */
  lemma ExchangeIsBracketed(t: seq<Event>, i: nat)
    requires WellFormed(t)
    requires i < |t| && t[i].Transfer?
    ensures 0 < i < |t| - 1
    ensures t[i - 1] == LineSet(ChipSelect, Low)
    ensures t[i + 1] == LineSet(ChipSelect, High)
    ensures |t[i].tx| == 2 && |t[i].rx| == 2
  {
    BracketedFrom(Deselected, t, i);
  }

  /** ExchangeIsBracketed from any starting state. */
  lemma {:induction false} BracketedFrom(s: BusState, t: seq<Event>, i: nat)
    requires Scan(s, t) == Some(Deselected)
    requires i < |t| && t[i].Transfer?
    ensures i < |t| - 1 && t[i + 1] == LineSet(ChipSelect, High)
    ensures i == 0 ==> s == Selected
    ensures i > 0 ==> t[i - 1] == LineSet(ChipSelect, Low)
    ensures |t[i].tx| == 2 && |t[i].rx| == 2
    decreases i
  {
    match Step(s, t[0])
    case None =>
    case Some(s') =>
      if i == 0 {
        assert s' == Exchanged;
        assert t[1..] != [];
        assert Step(Exchanged, t[1..][0]).Some?;
      } else {
        BracketedFrom(s', t[1..], i - 1);
        if i == 1 {
          assert Step(s, t[0]) == Some(Selected);
        }
      }
  }

  // ---------------------------------------------------------------------
  // Projections of a trace

  /** The exchanges of a trace, in order. */
  function Exchanges(t: seq<Event>): (x: seq<Event>)
    ensures forall i :: 0 <= i < |x| ==> x[i].Transfer?
    decreases |t|
  {
    if t == [] then []
    else (if t[0].Transfer? then [t[0]] else []) + Exchanges(t[1..])
  }

  /** The levels a trace drives on one line, in order. */
  function Levels(t: seq<Event>, line: Line): seq<Level>
    decreases |t|
  {
    if t == [] then []
    else (if t[0].LineSet? && t[0].line == line then [t[0].level] else []) + Levels(t[1..], line)
  }

  /** The delays a trace sleeps, in order. */
  function Delays(t: seq<Event>): seq<nat>
    decreases |t|
  {
    if t == [] then []
    else (if t[0].Delay? then [t[0].ms] else []) + Delays(t[1..])
  }

  /** The projections of a one-event trace. */
  lemma OneEvent(e: Event, line: Line)
    ensures Exchanges([e]) == (if e.Transfer? then [e] else [])
    ensures Levels([e], line) == (if e.LineSet? && e.line == line then [e.level] else [])
    ensures Delays([e]) == (if e.Delay? then [e.ms] else [])
  {
    assert [e][1..] == [];
  }

  lemma {:induction false} ExchangesAppend(a: seq<Event>, b: seq<Event>)
    ensures Exchanges(a + b) == Exchanges(a) + Exchanges(b)
    decreases |a|
  {
    if a == [] {
      assert a + b == b;
    } else {
      assert (a + b)[0] == a[0];
      assert (a + b)[1..] == a[1..] + b;
      ExchangesAppend(a[1..], b);
    }
  }

  /** A transaction holds exactly its one exchange and drives chip-select low
      then high. */
  lemma TransactionProjections(tx: seq<bv8>, rx: seq<bv8>)
    ensures Exchanges(Transaction(tx, rx)) == [Transfer(tx, rx)]
    ensures Levels(Transaction(tx, rx), ChipSelect) == [Low, High]
    ensures Levels(Transaction(tx, rx), ResetLine) == []
  {
    var t := Transaction(tx, rx);
    assert t[2..] == [t[2]];
    assert t[1..][1..] == t[2..];
    OneEvent(t[2], ChipSelect);
    OneEvent(t[2], ResetLine);
    assert Exchanges(t[1..]) == [t[1]] && Levels(t[1..], ChipSelect) == [High];
    assert Levels(t[1..], ResetLine) == [];
  }

  // ---------------------------------------------------------------------
  // Timing of one line

  /** A write to a line together with the sleep that immediately follows it. */
  datatype Hold = Hold(level: Level, ms: nat)

  /** Reads a trace as writes to `line`, each immediately followed by exactly
      one sleep; None when the trace has any other shape. */
  function Holds(t: seq<Event>, line: Line): Option<seq<Hold>>
    decreases |t|
  {
    if t == [] then Some([])
    else if |t| >= 2 && t[0].LineSet? && t[0].line == line && t[1].Delay? then
      match Holds(t[2..], line)
      case None => None
      case Some(h) => Some([Hold(t[0].level, t[1].ms)] + h)
    else None
  }

  /** Milliseconds slept while `line` is at `level`, the line being at
      `start` before the trace. */
  function TimeAt(t: seq<Event>, line: Line, start: Level, level: Level): nat
    decreases |t|
  {
    if t == [] then 0
    else match t[0]
      case LineSet(l, v) => TimeAt(t[1..], line, if l == line then v else start, level)
      case Delay(ms) => (if start == level then ms else 0) + TimeAt(t[1..], line, start, level)
      case Transfer(_, _) => TimeAt(t[1..], line, start, level)
  }

  /** A trace read as holds is its holds laid out in order: the write of
      hold i at index 2i and its sleep at index 2i + 1. */
  lemma {:induction false} HoldsShape(t: seq<Event>, line: Line)
    requires Holds(t, line).Some?
    ensures var h := Holds(t, line).value;
      && |t| == 2 * |h|
      && forall i :: 0 <= i < |h| ==>
           t[2 * i] == LineSet(line, h[i].level) && t[2 * i + 1] == Delay(h[i].ms)
    decreases |t|
  {
    if t != [] {
      var rest := t[2..];
      HoldsShape(rest, line);
      var h := Holds(t, line).value;
      var h' := Holds(rest, line).value;
      assert h == [h[0]] + h';
      forall i | 1 <= i < |h|
        ensures t[2 * i] == LineSet(line, h[i].level) && t[2 * i + 1] == Delay(h[i].ms)
      {
        assert t[2 * i] == rest[2 * (i - 1)] && t[2 * i + 1] == rest[2 * (i - 1) + 1];
        assert h[i] == h'[i - 1];
      }
    }
  }

  /** A trace read as holds drives the levels of its holds, in order. */
  lemma {:induction false} HoldsLevels(t: seq<Event>, line: Line)
    requires Holds(t, line).Some?
    ensures var h := Holds(t, line).value;
      && |Levels(t, line)| == |h|
      && forall i :: 0 <= i < |h| ==> Levels(t, line)[i] == h[i].level
    decreases |t|
  {
    if t != [] {
      var rest := t[2..];
      var h := Holds(t, line).value;
      var h' := Holds(rest, line).value;
      assert h == [Hold(t[0].level, t[1].ms)] + h';
      var tail := t[1..];
      assert tail[0].Delay? && tail[1..] == rest;
      assert Levels(tail, line) == Levels(rest, line);
      assert Levels(t, line) == [t[0].level] + Levels(tail, line);
      HoldsLevels(rest, line);
    }
  }

  /** A trace read as holds sleeps the waits of its holds, in order. */
  lemma {:induction false} HoldsDelays(t: seq<Event>, line: Line)
    requires Holds(t, line).Some?
    ensures var h := Holds(t, line).value;
      && |Delays(t)| == |h|
      && forall i :: 0 <= i < |h| ==> Delays(t)[i] == h[i].ms
    decreases |t|
  {
    if t != [] {
      var rest := t[2..];
      assert t[1..][1..] == rest;
      HoldsDelays(rest, line);
      var h := Holds(t, line).value;
      var h' := Holds(rest, line).value;
      assert h == [h[0]] + h';
      assert Delays(t) == [h[0].ms] + Delays(rest);
    }
  }

  /** A trace read as holds of one line touches no other line and makes no
      exchange. */
  lemma {:induction false} HoldsTouchNothingElse(t: seq<Event>, line: Line, other: Line)
    requires Holds(t, line).Some?
    requires other != line
    ensures Levels(t, other) == [] && Exchanges(t) == []
    decreases |t|
  {
    if t != [] {
      var rest := t[2..];
      assert t[1..][1..] == rest;
      HoldsTouchNothingElse(rest, line, other);
    }
  }

  /** Holds of the reset line keep the chip-select discipline: they only
      happen while deselected. */
  lemma {:induction false} ResetHoldsWellFormed(t: seq<Event>)
    requires Holds(t, ResetLine).Some?
    ensures WellFormed(t)
    decreases |t|
  {
    if t != [] {
      var rest := t[2..];
      assert t[1..][1..] == rest;
      ResetHoldsWellFormed(rest);
    }
  }
}
