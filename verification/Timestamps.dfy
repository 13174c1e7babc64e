/** Time stamps in three units (pb/legacyconverter.go): missing ones are filled from the others through
    pointers, in a fixed order. Arithmetic is exact; sums and products do not overflow. */
module Timestamps {

  class Cell {
    var value: nat

    constructor (value: nat)
      ensures this.value == value
    {
      this.value := value;
    }
  }

  /** The conversion factors between units: 1e3, 1e6, 1e9 and their inverses. */
  datatype Factor = Times(k: nat) | Over(k: nat)
  {
    predicate Valid() { k > 0 }
  }

  /** Rounds to the nearest whole number, halves upwards. */
  function Converted(x: nat, factor: Factor): nat
    requires factor.Valid()
  {
    match factor
    case Times(k) => x * k
    case Over(k) => (2 * x + k) / (2 * k)
  }

  /** The value of a stamp after one attempt to fill it. */
  function Filled(x: nat, from: nat, factor: Factor): nat
    requires factor.Valid()
  {
    if x != 0 || from == 0 then x else Converted(from, factor)
  }

  method FillTimeIfEmpty(time1: Cell, time2: Cell, factor12: Factor)
    requires factor12.Valid()
    modifies time1
    ensures time1.value == Filled(old(time1.value), old(time2.value), factor12)
  {
    if time1.value != 0 {
      return;
    }
    if time2.value != 0 {
      time1.value := Converted(time2.value, factor12);
    }
  }

  /** The second source is used only if the first one leaves the stamp empty. */
  method FillTimeIfEmptyWithFallback(time1: Cell, time2: Cell, factor12: Factor, time3: Cell, factor13: Factor)
    requires factor12.Valid() && factor13.Valid() && time1 != time2 && time1 != time3
    modifies time1
    ensures time1.value == Filled(Filled(old(time1.value), time2.value, factor12), time3.value, factor13)
  {
    FillTimeIfEmpty(time1, time2, factor12);
    FillTimeIfEmpty(time1, time3, factor13);
  }

  /** One time in seconds, milliseconds and nanoseconds; zero is missing. */
  datatype Stamps = Stamps(s: nat, ms: nat, ns: nat)

  const E3: nat := 1_000
  const E6: nat := 1_000_000
  const E9: nat := 1_000_000_000

  function Synced(t: Stamps): Stamps {
    var s := Filled(Filled(t.s, t.ns, Over(E9)), t.ms, Over(E3));
    var ms := Filled(Filled(t.ms, t.ns, Over(E6)), s, Times(E3));
    var ns := Filled(Filled(t.ns, ms, Times(E6)), s, Times(E9));
    Stamps(s, ms, ns)
  }

  function SyncedReceived(s: nat, ns: nat): (nat, nat) {
    var s' := Filled(s, ns, Over(E9));
    (s', Filled(ns, s', Times(E9)))
  }

  class EnrichedFlow {
    const timeFlowStart: Cell
    const timeFlowStartMs: Cell
    const timeFlowStartNs: Cell
    const timeFlowEnd: Cell
    const timeFlowEndMs: Cell
    const timeFlowEndNs: Cell
    const timeReceived: Cell
    const timeReceivedNs: Cell

    constructor (start: Stamps, end: Stamps, received: nat, receivedNs: nat)
      ensures Valid() && fresh(Cells()) && Start() == start && End() == end
      ensures timeReceived.value == received && timeReceivedNs.value == receivedNs
    {
      timeFlowStart := new Cell(start.s);
      timeFlowStartMs := new Cell(start.ms);
      timeFlowStartNs := new Cell(start.ns);
      timeFlowEnd := new Cell(end.s);
      timeFlowEndMs := new Cell(end.ms);
      timeFlowEndNs := new Cell(end.ns);
      timeReceived := new Cell(received);
      timeReceivedNs := new Cell(receivedNs);
    }

    /** Different fields have different addresses. */
    ghost predicate Valid() {
      {timeFlowStart} !! {timeFlowStartMs} !! {timeFlowStartNs} !! {timeFlowEnd} !! {timeFlowEndMs} !! {timeFlowEndNs}
      !! {timeReceived} !! {timeReceivedNs}
    }

    ghost function Cells(): set<Cell> {
      {timeFlowStart, timeFlowStartMs, timeFlowStartNs, timeFlowEnd, timeFlowEndMs, timeFlowEndNs,
       timeReceived, timeReceivedNs}
    }

    function Start(): Stamps
      reads timeFlowStart, timeFlowStartMs, timeFlowStartNs
    {
      Stamps(timeFlowStart.value, timeFlowStartMs.value, timeFlowStartNs.value)
    }

    function End(): Stamps
      reads timeFlowEnd, timeFlowEndMs, timeFlowEndNs
    {
      Stamps(timeFlowEnd.value, timeFlowEndMs.value, timeFlowEndNs.value)
    }

    method SyncMissingTimeStamps()
      requires Valid()
      modifies Cells()
      ensures Start() == Synced(old(Start())) && End() == Synced(old(End()))
      ensures (timeReceived.value, timeReceivedNs.value)
        == SyncedReceived(old(timeReceived.value), old(timeReceivedNs.value))
    {
      SyncEach(timeFlowEnd, timeFlowEndMs, timeFlowEndNs);
      SyncEach(timeFlowStart, timeFlowStartMs, timeFlowStartNs);
      FillTimeIfEmpty(timeReceived, timeReceivedNs, Over(E9));
      FillTimeIfEmpty(timeReceivedNs, timeReceived, Times(E9));
    }
  }

  /** The three fills for one time. */
  method SyncEach(s: Cell, ms: Cell, ns: Cell)
    requires s != ms && ms != ns && s != ns
    modifies s, ms, ns
    ensures Stamps(s.value, ms.value, ns.value) == Synced(old(Stamps(s.value, ms.value, ns.value)))
  {
    FillTimeIfEmptyWithFallback(s, ns, Over(E9), ms, Over(E3));
    FillTimeIfEmptyWithFallback(ms, ns, Over(E6), s, Times(E3));
    FillTimeIfEmptyWithFallback(ns, ms, Times(E6), s, Times(E9));
  }

  // ---------------------------------------------------------------------------------------------
  // What syncing promises

  function Distance(x: int, y: int): nat {
    if x < y then y - x else x - y
  }

  /** A stamp that is there is never changed. */
  lemma PresentStampsStay(t: Stamps)
    ensures t.s != 0 ==> Synced(t).s == t.s
    ensures t.ms != 0 ==> Synced(t).ms == t.ms
    ensures t.ns != 0 ==> Synced(t).ns == t.ns
  {
    hide Converted;
  }

  /** Rounding is off by at most half a unit, and halves are rounded upwards. */
  lemma RoundingIsNear(x: nat, k: nat)
    requires k > 0
    ensures 2 * Distance(Converted(x, Over(k)) * k, x) <= k
    ensures 2 * x < 2 * (Converted(x, Over(k)) * k) + k
  {
    var q, r := (2 * x + k) / (2 * k), (2 * x + k) % (2 * k);
    assert 2 * x + k == q * (2 * k) + r;
    assert q * (2 * k) == 2 * (q * k);
  }

  /** Which stamp a missing one is filled from if there are two: seconds come from nanoseconds unless these round to
      zero, then from milliseconds; milliseconds from nanoseconds unless these round to zero, then from seconds;
      and nanoseconds from milliseconds if there are any, then from seconds. */
  lemma FilledFrom(t: Stamps)
    ensures t.s == 0 && t.ns >= 500_000_000 ==> 2 * Distance(Synced(t).s * E9, t.ns) <= E9
    ensures t.s == 0 && t.ns < 500_000_000 ==> 2 * Distance(Synced(t).s * E3, t.ms) <= E3
    ensures t.ms == 0 && t.ns >= 500_000 ==> 2 * Distance(Synced(t).ms * E6, t.ns) <= E6
    ensures t.ms == 0 && t.ns < 500_000 ==> Synced(t).ms == E3 * Synced(t).s
    ensures t.ns == 0 && Synced(t).ms != 0 ==> Synced(t).ns == E6 * Synced(t).ms
    ensures t.ns == 0 && Synced(t).ms == 0 ==> Synced(t).ns == E9 * Synced(t).s
  {
    RoundingIsNear(t.ns, E9);
    RoundingIsNear(t.ms, E3);
    RoundingIsNear(t.ns, E6);
  }

  /** The only stamp that is there, and whether it is large enough for the coarser units. */
  predicate LoneSource(t: Stamps) {
    (t.s != 0 && t.ms == 0 && t.ns == 0) || (t.s == 0 && t.ms != 0 && t.ns == 0) || (t.s == 0 && t.ms == 0 && t.ns != 0)
  }

  predicate LargeEnough(t: Stamps) {
    t.s != 0 || t.ms >= 500 || t.ns >= 500_000_000
  }

  predicate Complete(t: Stamps) {
    t.s != 0 && t.ms != 0 && t.ns != 0
  }

  /** Each two units agree to within half of the coarser one. */
  predicate Agree(t: Stamps) {
    2 * Distance(t.s * E3, t.ms) <= E3 && 2 * Distance(t.s * E9, t.ns) <= E9 && 2 * Distance(t.ms * E6, t.ns) <= E6
  }

  /** A single source fills all units exactly if it is large enough, and then they agree. */
  lemma LoneSourceFillsIffLarge(t: Stamps)
    requires LoneSource(t)
    ensures Complete(Synced(t)) <==> LargeEnough(t)
    ensures LargeEnough(t) ==> Agree(Synced(t))
  {
    if t.ms != 0 {
      RoundingIsNear(t.ms, E3);
    } else if t.ns != 0 {
      RoundingIsNear(t.ns, E9);
      RoundingIsNear(t.ns, E6);
    }
  }

  /** Milliseconds round up to a half second that the nanoseconds alone do not reach. */
  predicate RoundsTwice(t: Stamps) {
    t.s == 0 && t.ms == 0 && 499_500_000 <= t.ns < 500_000_000
  }

  /** A second call changes nothing, except for stamps that round twice. */
  lemma SecondCallChangesNothingIff(t: Stamps)
    ensures Synced(Synced(t)) == Synced(t) <==> !RoundsTwice(t)
  {
  }

  /** Two calls are always enough. */
  lemma ThirdCallChangesNothing(t: Stamps)
    ensures Synced(Synced(Synced(t))) == Synced(Synced(t))
  {
    SecondCallChangesNothingIff(t);
    SecondCallChangesNothingIff(Synced(t));
  }

  /** The two stamps of the time of receipt settle at once. */
  lemma ReceivedSettles(s: nat, ns: nat)
    ensures var r := SyncedReceived(s, ns);
      && SyncedReceived(r.0, r.1) == r && (s != 0 ==> r.0 == s) && (ns != 0 ==> r.1 == ns)
      && (s == 0 ==> 2 * Distance(r.0 * E9, ns) <= E9) && (ns == 0 ==> r.1 == E9 * s)
  {
    RoundingIsNear(ns, E9);
  }
}
