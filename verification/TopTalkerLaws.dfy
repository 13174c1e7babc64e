/** What a record reports, in terms of the messages that were counted over a run: averages of the last completed
    buckets, and the flag of the last tick. */
module TopTalkerLaws {
  import opened TopTalkerSpec

  /** The bytes counted for a key, forwarded or dropped, in the bucket that was running a ticks ago. */
  function BytesAt(run: seq<Event>, key: string, forwarded: bool, a: nat): nat {
    if run == [] then 0
    else
      var front := run[..|run| - 1];
      match run[|run| - 1]
      case Append(k, bytes, _, f) =>
        BytesAt(front, key, forwarded, a) + if a == 0 && k == key && f == forwarded then bytes else 0
      case Tick => if a == 0 then 0 else BytesAt(front, key, forwarded, a - 1)
      case Cleanup => BytesAt(front, key, forwarded, a)
  }

  function PacketsAt(run: seq<Event>, key: string, forwarded: bool, a: nat): nat {
    if run == [] then 0
    else
      var front := run[..|run| - 1];
      match run[|run| - 1]
      case Append(k, _, packets, f) =>
        PacketsAt(front, key, forwarded, a) + if a == 0 && k == key && f == forwarded then packets else 0
      case Tick => if a == 0 then 0 else PacketsAt(front, key, forwarded, a - 1)
      case Cleanup => PacketsAt(front, key, forwarded, a)
  }

  /** What was counted in the last n completed buckets. */
  function BytesOver(run: seq<Event>, key: string, forwarded: bool, n: nat): nat {
    if n == 0 then 0 else BytesOver(run, key, forwarded, n - 1) + BytesAt(run, key, forwarded, n)
  }

  function PacketsOver(run: seq<Event>, key: string, forwarded: bool, n: nat): nat {
    if n == 0 then 0 else PacketsOver(run, key, forwarded, n - 1) + PacketsAt(run, key, forwarded, n)
  }

  function At(r: Rec, a: nat): Bucket {
    if a == 0 then r.current else Past(r.history, a)
  }

  predicate Counts(b: Bucket, run: seq<Event>, key: string, a: nat) {
    && b.fwdBytes == BytesAt(run, key, true, a) && b.fwdPackets == PacketsAt(run, key, true, a)
    && b.dropBytes == BytesAt(run, key, false, a) && b.dropPackets == PacketsAt(run, key, false, a)
  }

  lemma TickCounts(cfg: Config, db: Db, run: seq<Event>, key: string, a: nat)
    requires cfg.Valid() && (a > 0 ==> Counts(At(Get(db, key), a - 1), run, key, a - 1))
    ensures Counts(At(Get(Apply(cfg, db, Tick), key), a), run + [Tick], key, a)
  {
    hide Flag;
    var next := run + [Tick];
    assert next[..|next| - 1] == run;
    if key in db {
      var r := db[key];
      assert a > 0 ==> At(Rec(r.history + [r.current], ZERO, false), a) == At(r, a - 1);
    }
  }

  lemma CountedNow(run: seq<Event>, e: Event, key: string, forwarded: bool, a: nat)
    requires e.Append?
    ensures var counted := a == 0 && e.key == key && e.forwarded == forwarded;
      && BytesAt(run + [e], key, forwarded, a) == BytesAt(run, key, forwarded, a) + (if counted then e.bytes else 0)
      && PacketsAt(run + [e], key, forwarded, a)
        == PacketsAt(run, key, forwarded, a) + if counted then e.packets else 0
  {
    var next := run + [e];
    assert next[..|next| - 1] == run;
  }

  lemma AppendCounts(cfg: Config, db: Db, run: seq<Event>, key: string, a: nat, e: Event)
    requires cfg.Valid() && e.Append? && Counts(At(Get(db, key), a), run, key, a)
    ensures Counts(At(Get(Apply(cfg, db, e), key), a), run + [e], key, a)
  {
    CountedNow(run, e, key, true, a);
    CountedNow(run, e, key, false, a);
    hide BytesAt, PacketsAt;
  }

  /** Without cleanup every bucket of a record holds what was counted for its key while it was running. */
  lemma {:induction false} RunCounts(cfg: Config, run: seq<Event>, key: string, a: nat)
    requires cfg.Valid()
    ensures Counts(At(Get(After(cfg, run, false), key), a), run, key, a)
  {
    if run != [] {
      hide Counts, At, Get, Apply;
      var front, e := run[..|run| - 1], run[|run| - 1];
      assert run == front + [e];
      var db := After(cfg, front, false);
      RunCounts(cfg, front, key, a);
      match e
      case Append(_, _, _, _) => AppendCounts(cfg, db, front, key, a, e);
      case Tick =>
        if a > 0 { RunCounts(cfg, front, key, a - 1); }
        TickCounts(cfg, db, front, key, a);
      case Cleanup => CleanupCounts(At(Get(db, key), a), front, key, a);
    }
  }

  lemma CleanupCounts(b: Bucket, run: seq<Event>, key: string, a: nat)
    requires Counts(b, run, key, a)
    ensures Counts(b, run + [Cleanup], key, a)
  {
    var next := run + [Cleanup];
    assert next[..|next| - 1] == run;
  }

  /** The sum of a window holds what was counted in it. */
  predicate CountsOver(sum: Bucket, run: seq<Event>, key: string, n: nat) {
    && sum.fwdBytes == BytesOver(run, key, true, n) && sum.fwdPackets == PacketsOver(run, key, true, n)
    && sum.dropBytes == BytesOver(run, key, false, n) && sum.dropPackets == PacketsOver(run, key, false, n)
  }

  lemma {:induction false} SumCounts(history: seq<Bucket>, run: seq<Event>, key: string, n: nat)
    requires forall a :: 0 < a <= n ==> Counts(Past(history, a), run, key, a)
    ensures CountsOver(WindowSum(history, n), run, key, n)
  {
    if n > 0 {
      hide BytesAt, PacketsAt, Past;
      SumCounts(history, run, key, n - 1);
      assert Counts(Past(history, n), run, key, n);
    }
  }

  lemma WindowCounts(cfg: Config, run: seq<Event>, key: string, n: nat)
    requires cfg.Valid()
    ensures CountsOver(WindowSum(Get(After(cfg, run, false), key).history, n), run, key, n)
  {
    hide After, Counts, CountsOver, WindowSum;
    var history := Get(After(cfg, run, false), key).history;
    forall a | 0 < a <= n
      ensures Counts(Past(history, a), run, key, a)
    {
      RunCounts(cfg, run, key, a);
    }
    SumCounts(history, run, key, n);
  }

  /** With and without cleanup, a report over fewer buckets than the ring has sums what was counted for the key
      in so many completed buckets. */
  lemma ReportCounts(cfg: Config, run: seq<Event>, key: string, n: nat, cleanup: bool)
    requires cfg.Valid() && n < cfg.capacity && (cleanup ==> AllSoundEvents(run))
    ensures var r := Get(After(cfg, run, cleanup), key);
      CountsOver(RingSum(r.history, r.current, cfg.capacity, n), run, key, n)
  {
    hide After;
    if cleanup {
      CleanupInvisible(cfg, run, key, n);
    }
    var q := Get(After(cfg, run, false), key);
    RingSumInside(q.history, q.current, cfg.capacity, n);
    WindowCounts(cfg, run, key, n);
  }

  lemma QuotientAbove(x: nat, t: nat, d: nat)
    requires d > 0
    ensures x / d > t <==> x >= (t + 1) * d
  {
    assert x >= (x / d) * d;
    if x >= (t + 1) * d {
      Quotient(x, t, d);
    } else if x / d > t {
      Ordered(t + 1, x / d, d);
    }
  }

  /** For a window that fits into the ring, a tick flags a record if and only if forwarded and dropped traffic
      of the window together reach, in every second on average, one bit more than the first threshold and one packet
      more than the second. */
  lemma FlagCounts(cfg: Config, run: seq<Event>, key: string, cleanup: bool)
    requires cfg.Valid() && cfg.thresholdBuckets <= cfg.capacity && (cleanup ==> AllSoundEvents(run))
    requires run != [] && run[|run| - 1].Tick?
    ensures var n := if cfg.thresholdBuckets == 0 then cfg.capacity else cfg.thresholdBuckets;
      var seconds := cfg.bucketDuration * n;
      Get(After(cfg, run, cleanup), key).above
      <==> && 8 * (BytesOver(run, key, true, n) + BytesOver(run, key, false, n)) >= (cfg.thresholdBps + 1) * seconds
           && PacketsOver(run, key, true, n) + PacketsOver(run, key, false, n) >= (cfg.thresholdPps + 1) * seconds
  {
    var n := cfg.Window();
    Positive(cfg.bucketDuration, n);
    if cleanup {
      CleanupInvisible(cfg, run, key, n);
    }
    WindowCounts(cfg, run, key, n);
    var q := Get(After(cfg, run, false), key);
    FlagAfterTick(cfg, run, key);
    hide After, BytesOver, PacketsOver, WindowSum;
    var sum := WindowSum(q.history, n);
    QuotientAbove((sum.fwdBytes + sum.dropBytes) * 8, cfg.thresholdBps, cfg.bucketDuration * n);
    QuotientAbove(sum.fwdPackets + sum.dropPackets, cfg.thresholdPps, cfg.bucketDuration * n);
  }

  lemma FlagAfterTick(cfg: Config, run: seq<Event>, key: string)
    requires cfg.Valid() && cfg.Window() <= cfg.capacity && run != [] && run[|run| - 1].Tick?
    ensures var q := Get(After(cfg, run, false), key);
      q.above == Exceeds(cfg, WindowSum(q.history, cfg.Window()), cfg.Window())
  {
    var db := After(cfg, run[..|run| - 1], false);
    hide Exceeds;
    if key in db {
      TickSum(db[key].history + [db[key].current], cfg.capacity, cfg.Window());
    } else {
      NothingSummed(cfg.Window());
      ZeroExceedsNothing(cfg, cfg.Window());
    }
  }

  lemma {:induction false} NothingSummed(n: nat)
    ensures WindowSum([], n) == ZERO
  {
    if n > 0 { NothingSummed(n - 1); }
  }

  // ---------------------------------------------------------------------------------------------
  // Steady traffic

  lemma OneMore(n: nat, x: nat)
    requires n > 0
    ensures n * x == (n - 1) * x + x
  {
  }

  lemma {:induction false} SteadySum(history: seq<Bucket>, current: Bucket, capacity: nat, n: nat, each: Bucket)
    requires capacity > 0 && forall a :: 0 < a <= n ==> Term(history, current, capacity, a) == each
    ensures var sum := RingSum(history, current, capacity, n);
      && sum.fwdBytes == n * each.fwdBytes && sum.fwdPackets == n * each.fwdPackets
      && sum.dropBytes == n * each.dropBytes && sum.dropPackets == n * each.dropPackets
  {
    if n > 0 {
      hide Term;
      SteadySum(history, current, capacity, n - 1, each);
      OneMore(n, each.fwdBytes);
      OneMore(n, each.fwdPackets);
      OneMore(n, each.dropBytes);
      OneMore(n, each.dropPackets);
    }
  }

  lemma Times(rate: nat, n: nat, seconds: nat)
    ensures n * (rate * seconds) == rate * (n * seconds)
  {
  }

  lemma Divided(x: real, rate: nat, d: nat)
    requires d > 0 && x * d as real == (rate * d) as real
    ensures x == rate as real
  {
    assert (rate * d) as real == rate as real * d as real;
    assert (x - rate as real) * d as real == 0.0;
  }

  /** If every bucket of a report holds the traffic of a steady rate, the average is that rate, whatever the number of
      buckets and their duration: x is what is reported for the bytes, in bits, and y for the packets. */
  lemma SteadyRate(
    history: seq<Bucket>, current: Bucket, capacity: nat, n: nat, duration: nat, bytes: nat, packets: nat, x: real,
    y: real)
    requires capacity > 0 && n > 0 && duration > 0
    requires forall a :: 0 < a <= n ==>
      Term(history, current, capacity, a) == Bucket(bytes * duration, packets * duration, 0, 0)
    requires var sum := RingSum(history, current, capacity, n);
      Averages(x, 8 * sum.fwdBytes, n * duration) && Averages(y, sum.fwdPackets, n * duration)
    ensures x == (8 * bytes) as real && y == packets as real
  {
    hide RingSum, Term;
    SteadySum(history, current, capacity, n, Bucket(bytes * duration, packets * duration, 0, 0));
    Positive(n, duration);
    Times(bytes, n, duration);
    Times(packets, n, duration);
    assert 8 * (bytes * (n * duration)) == (8 * bytes) * (n * duration);
    Divided(x, 8 * bytes, n * duration);
    Divided(y, packets, n * duration);
  }
}
