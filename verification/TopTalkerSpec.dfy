/** Sliding windows of traffic counters on values: the unbounded history of a record, the sums that a
    ring of fixed capacity can report about it, and databases of records with and without cleanup. */
module TopTalkerSpec {
  import opened Words

  datatype Bucket = Bucket(fwdBytes: nat, fwdPackets: nat, dropBytes: nat, dropPackets: nat)

  const ZERO := Bucket(0, 0, 0, 0)

  function Plus(x: Bucket, y: Bucket): Bucket {
    Bucket(x.fwdBytes + y.fwdBytes, x.fwdPackets + y.fwdPackets,
           x.dropBytes + y.dropBytes, x.dropPackets + y.dropPackets)
  }

  /** All buckets a record ever completed, oldest first; the bucket being filled; the threshold flag. */
  datatype Rec = Rec(history: seq<Bucket>, current: Bucket, above: bool)

  const NEW := Rec([], ZERO, false)

  datatype Config = Config(
    capacity: nat, thresholdBuckets: nat, bucketDuration: nat, thresholdBps: nat, thresholdPps: nat)
  {
    predicate Valid() {
      capacity > 0 && bucketDuration > 0
    }

    /** Zero stands for the whole window. */
    function Window(): nat {
      if thresholdBuckets == 0 then capacity else thresholdBuckets
    }
  }

  /** The bucket completed a ticks ago (a = 1 is the latest); nothing was counted before the first. */
  function Past(history: seq<Bucket>, a: nat): Bucket {
    if 0 < a <= |history| then history[|history| - a] else ZERO
  }

  /** What a ring of this capacity holds a steps behind its pointer. */
  function Term(history: seq<Bucket>, current: Bucket, capacity: nat, a: nat): Bucket
    requires capacity > 0
  {
    if a >= capacity then Term(history, current, capacity, a - capacity)
    else if a == 0 then current
    else Past(history, a)
  }

  /** The sum of n ring positions, starting right behind the pointer. */
  function RingSum(history: seq<Bucket>, current: Bucket, capacity: nat, n: nat): Bucket
    requires capacity > 0
  {
    if n == 0 then ZERO
    else Plus(RingSum(history, current, capacity, n - 1), Term(history, current, capacity, n))
  }

  /** The sum of the last n completed buckets. */
  function WindowSum(history: seq<Bucket>, n: nat): Bucket {
    if n == 0 then ZERO else Plus(WindowSum(history, n - 1), Past(history, n))
  }

  /** In so many seconds an average of x adds up to the total. */
  predicate Averages(x: real, total: nat, seconds: nat) {
    x * seconds as real == total as real
  }

  /** A truncated average above both thresholds. */
  predicate Exceeds(cfg: Config, sum: Bucket, n: nat)
    requires cfg.Valid() && n > 0
  {
    && (sum.fwdBytes + sum.dropBytes) * 8 / (cfg.bucketDuration * n) > cfg.thresholdBps
    && (sum.fwdPackets + sum.dropPackets) / (cfg.bucketDuration * n) > cfg.thresholdPps
  }

  /** The flag that a tick sets, given the history with the bucket just completed. When it is computed
      the ring's pointer is on the oldest bucket, completed capacity ticks ago. */
  predicate Flag(cfg: Config, history: seq<Bucket>)
    requires cfg.Valid()
  {
    Exceeds(cfg, RingSum(history, Past(history, cfg.capacity), cfg.capacity, cfg.Window()), cfg.Window())
  }

  function Ticked(cfg: Config, r: Rec): Rec
    requires cfg.Valid()
  {
    var history := r.history + [r.current];
    Rec(history, ZERO, Flag(cfg, history))
  }

  function Appended(r: Rec, bytes: nat, packets: nat, forwarded: bool): Rec {
    r.(current := Plus(r.current, if forwarded then Bucket(bytes, packets, 0, 0) else Bucket(0, 0, bytes, packets)))
  }

  // ---------------------------------------------------------------------------------------------
  // What the sums mean

  lemma {:induction false} RingSumInside(history: seq<Bucket>, current: Bucket, capacity: nat, n: nat)
    requires n < capacity
    ensures RingSum(history, current, capacity, n) == WindowSum(history, n)
  {
    if n > 0 { RingSumInside(history, current, capacity, n - 1); }
  }

  /** A report over fewer buckets than the capacity sums the last completed buckets; a report over the
      whole capacity sums one completed bucket less and the bucket being filled. */
  lemma ReportedSum(r: Rec, capacity: nat, b: nat)
    requires 0 < b <= capacity
    ensures b < capacity ==> RingSum(r.history, r.current, capacity, b) == WindowSum(r.history, b)
    ensures b == capacity ==>
      RingSum(r.history, r.current, capacity, b) == Plus(WindowSum(r.history, capacity - 1), r.current)
  {
    RingSumInside(r.history, r.current, capacity, if b == capacity then b - 1 else b);
    assert Term(r.history, r.current, capacity, capacity) == Term(r.history, r.current, capacity, 0);
  }

  /** A tick looks at the last completed buckets whenever the threshold window fits into the ring. */
  lemma TickSum(history: seq<Bucket>, capacity: nat, n: nat)
    requires 0 < n <= capacity
    ensures RingSum(history, Past(history, capacity), capacity, n) == WindowSum(history, n)
  {
    var current := Past(history, capacity);
    RingSumInside(history, current, capacity, if n == capacity then n - 1 else n);
    assert Term(history, current, capacity, capacity) == Term(history, current, capacity, 0);
  }

  /** For all histories the flag's sum is the sum of the last n completed buckets exactly if the window
      is no longer than the ring; a longer window counts some buckets twice. */
  lemma TickSumExact(capacity: nat, n: nat)
    requires capacity > 0 && n > 0
    ensures (forall history :: RingSum(history, Past(history, capacity), capacity, n) == WindowSum(history, n))
            <==> n <= capacity
  {
    if n <= capacity {
      forall history
        ensures RingSum(history, Past(history, capacity), capacity, n) == WindowSum(history, n)
      {
        TickSum(history, capacity, n);
      }
    } else {
      var once := [Bucket(1, 1, 0, 0)];
      OnceCountedOnce(once, n);
      CountedTwice(once, capacity, n);
      assert RingSum(once, Past(once, capacity), capacity, n) != WindowSum(once, n);
    }
  }

  lemma {:induction false} OnceCountedOnce(history: seq<Bucket>, n: nat)
    requires |history| == 1 && n > 0
    ensures WindowSum(history, n) == Plus(ZERO, history[0])
  {
    if n > 1 { OnceCountedOnce(history, n - 1); }
  }

  lemma {:induction false} CountedTwice(history: seq<Bucket>, capacity: nat, n: nat)
    requires history == [Bucket(1, 1, 0, 0)] && 0 < capacity < n
    ensures RingSum(history, Past(history, capacity), capacity, n).fwdBytes >= 2
  {
    var current := Past(history, capacity);
    if n == capacity + 1 {
      TickSum(history, capacity, capacity);
      OnceCountedOnce(history, capacity);
      assert Term(history, current, capacity, n) == Term(history, current, capacity, 1);
      assert Term(history, current, capacity, 1) == history[0] by {
        if capacity == 1 { assert Term(history, current, 1, 1) == Term(history, current, 1, 0); }
      }
    } else {
      CountedTwice(history, capacity, n - 1);
    }
  }

  // ---------------------------------------------------------------------------------------------
  // A database with and without cleanup

  type Db = map<string, Rec>

  datatype Event =
    | Append(key: string, bytes: nat, packets: nat, forwarded: bool)
    | Tick
    | Cleanup

  /** No packets in any ring position: what isEmpty looks at. */
  predicate NoPackets(r: Rec, capacity: nat)
    requires capacity > 0
  {
    forall a :: 0 <= a < capacity ==> Quiet(Term(r.history, r.current, capacity, a))
  }

  predicate Quiet(b: Bucket) {
    b.fwdPackets == 0 && b.dropPackets == 0
  }

  function Get(db: Db, key: string): Rec {
    if key in db then db[key] else NEW
  }

  function Apply(cfg: Config, db: Db, e: Event): Db
    requires cfg.Valid()
  {
    match e
    case Append(key, bytes, packets, forwarded) => db[key := Appended(Get(db, key), bytes, packets, forwarded)]
    case Tick => map k | k in db :: Ticked(cfg, db[k])
    case Cleanup => map k | k in db && !NoPackets(db[k], cfg.capacity) :: db[k]
  }

  /** The database after a run; without cleanup the cleanup events do nothing. */
  function After(cfg: Config, run: seq<Event>, cleanup: bool): Db
    requires cfg.Valid()
  {
    if run == [] then map[]
    else
      var db, e := After(cfg, run[..|run| - 1], cleanup), run[|run| - 1];
      if e.Cleanup? && !cleanup then db else Apply(cfg, db, e)
  }

  /** No cleanup since the last tick. */
  predicate Settled(run: seq<Event>) {
    run == [] || run[|run| - 1].Tick? || (run[|run| - 1].Append? && Settled(run[..|run| - 1]))
  }

  /** Bytes never arrive without packets. */
  predicate Sound(e: Event) {
    e.Append? && e.packets == 0 ==> e.bytes == 0
  }

  predicate SoundBucket(b: Bucket) {
    (b.fwdPackets == 0 ==> b.fwdBytes == 0) && (b.dropPackets == 0 ==> b.dropBytes == 0)
  }

  predicate SoundRec(r: Rec) {
    SoundBucket(r.current) && forall i :: 0 <= i < |r.history| ==> SoundBucket(r.history[i])
  }

  /** Two records hold the same in every position of their rings. */
  ghost predicate SameWindow(r: Rec, q: Rec, capacity: nat)
    requires capacity > 0
  {
    forall a :: 0 <= a < capacity ==> SameAt(r, q, capacity, a)
  }

  predicate SameAt(r: Rec, q: Rec, capacity: nat, a: nat)
    requires capacity > 0
  {
    Term(r.history, r.current, capacity, a) == Term(q.history, q.current, capacity, a)
  }

  lemma {:induction false} SameTerm(r: Rec, q: Rec, capacity: nat, a: nat)
    requires capacity > 0 && SameWindow(r, q, capacity)
    ensures Term(r.history, r.current, capacity, a) == Term(q.history, q.current, capacity, a)
  {
    if a >= capacity { SameTerm(r, q, capacity, a - capacity); } else { assert SameAt(r, q, capacity, a); }
  }

  lemma {:induction false} SameSum(r: Rec, q: Rec, capacity: nat, n: nat)
    requires capacity > 0 && SameWindow(r, q, capacity)
    ensures RingSum(r.history, r.current, capacity, n) == RingSum(q.history, q.current, capacity, n)
  {
    if n > 0 {
      SameSum(r, q, capacity, n - 1);
      SameTerm(r, q, capacity, n);
    }
  }

  /** Past buckets of a ticked record are the ring positions of the record before. */
  lemma PastAfterTick(r: Rec, capacity: nat, a: nat)
    requires 0 < a <= capacity
    ensures Past(r.history + [r.current], a) == Term(r.history, r.current, capacity, a - 1)
  {
  }

  lemma SameTicked(cfg: Config, r: Rec, q: Rec)
    requires cfg.Valid() && SameWindow(r, q, cfg.capacity)
    ensures SameWindow(Ticked(cfg, r), Ticked(cfg, q), cfg.capacity)
    ensures Ticked(cfg, r).above == Ticked(cfg, q).above
  {
    var c := cfg.capacity;
    var h, g := r.history + [r.current], q.history + [q.current];
    forall a | 0 < a <= c
      ensures Past(h, a) == Past(g, a)
    {
      PastAfterTick(r, c, a);
      PastAfterTick(q, c, a);
      assert SameAt(r, q, c, a - 1);
    }
    SameSum(Rec(h, Past(h, c), false), Rec(g, Past(g, c), false), c, cfg.Window());
  }

  lemma SameAppended(r: Rec, q: Rec, capacity: nat, bytes: nat, packets: nat, forwarded: bool)
    requires capacity > 0 && SameWindow(r, q, capacity)
    ensures SameWindow(Appended(r, bytes, packets, forwarded), Appended(q, bytes, packets, forwarded), capacity)
  {
    assert SameAt(r, q, capacity, 0);
    var s, t := Appended(r, bytes, packets, forwarded), Appended(q, bytes, packets, forwarded);
    forall a | 0 <= a < capacity
      ensures SameAt(s, t, capacity, a)
    {
      assert SameAt(r, q, capacity, a);
    }
  }

  lemma {:induction false} ZeroSum(r: Rec, capacity: nat, n: nat)
    requires capacity > 0 && SameWindow(r, NEW, capacity)
    ensures RingSum(r.history, r.current, capacity, n) == ZERO
  {
    if n > 0 {
      ZeroSum(r, capacity, n - 1);
      SameTerm(r, NEW, capacity, n);
      NewTerm(capacity, n);
    }
  }

  lemma {:induction false} NewTerm(capacity: nat, a: nat)
    requires capacity > 0
    ensures Term([], ZERO, capacity, a) == ZERO
  {
    if a >= capacity { NewTerm(capacity, a - capacity); }
  }

  /** A record without packets and with sound buckets is, for every report, like a new one. */
  lemma EmptyIsNew(r: Rec, capacity: nat)
    requires capacity > 0 && SoundRec(r) && NoPackets(r, capacity)
    ensures SameWindow(r, NEW, capacity)
  {
    forall a | 0 <= a < capacity
      ensures SameAt(r, NEW, capacity, a)
    {
      assert Quiet(Term(r.history, r.current, capacity, a));
    }
  }

  /** A new record stays like a new one when it is ticked, and its flag stays false. */
  lemma TickedNew(cfg: Config)
    requires cfg.Valid()
    ensures SameWindow(Ticked(cfg, NEW), NEW, cfg.capacity) && !Ticked(cfg, NEW).above
  {
    hide Exceeds;
    var c := cfg.capacity;
    var r := Rec([ZERO], ZERO, false);
    assert SameWindow(r, NEW, c);
    ZeroSum(r, c, cfg.Window());
    assert NEW.history + [NEW.current] == [ZERO];
    assert Past([ZERO], c) == ZERO;
    ZeroExceedsNothing(cfg, cfg.Window());
  }

  lemma ZeroExceedsNothing(cfg: Config, n: nat)
    requires cfg.Valid() && n > 0
    ensures !Exceeds(cfg, ZERO, n)
  {
    var d := cfg.bucketDuration * n;
    assert 0 / d == 0;
  }

  /** The databases hold the same windows for every key, an absent key counting as a new record,
      and the same flags if no cleanup has happened since the last tick. */
  ghost predicate Agree(cfg: Config, x: Db, y: Db, flags: bool)
    requires cfg.Valid()
  {
    forall key ::
      && SameWindow(Get(x, key), Get(y, key), cfg.capacity)
      && (flags ==> Get(x, key).above == Get(y, key).above)
  }

  ghost predicate AllSound(db: Db) {
    forall key :: key in db ==> SoundRec(db[key])
  }

  lemma StepKeepsSound(cfg: Config, db: Db, e: Event)
    requires cfg.Valid() && AllSound(db) && Sound(e)
    ensures AllSound(Apply(cfg, db, e))
  {
  }

  lemma AppendKeepsAgree(cfg: Config, x: Db, y: Db, e: Event, flags: bool)
    requires cfg.Valid() && Agree(cfg, x, y, flags) && e.Append?
    ensures Agree(cfg, Apply(cfg, x, e), Apply(cfg, y, e), flags)
  {
    hide SameWindow;
    SameAppended(Get(x, e.key), Get(y, e.key), cfg.capacity, e.bytes, e.packets, e.forwarded);
    var x', y' := Apply(cfg, x, e), Apply(cfg, y, e);
    forall key
      ensures SameWindow(Get(x', key), Get(y', key), cfg.capacity)
      ensures flags ==> Get(x', key).above == Get(y', key).above
    {
      assert key != e.key ==> Get(x', key) == Get(x, key) && Get(y', key) == Get(y, key);
    }
  }

  lemma TickMakesAgree(cfg: Config, x: Db, y: Db, flags: bool)
    requires cfg.Valid() && Agree(cfg, x, y, flags)
    ensures Agree(cfg, Apply(cfg, x, Tick), Apply(cfg, y, Tick), true)
  {
    hide SameWindow, Flag;
    forall key
      ensures SameWindow(Get(Apply(cfg, x, Tick), key), Get(Apply(cfg, y, Tick), key), cfg.capacity)
      ensures Get(Apply(cfg, x, Tick), key).above == Get(Apply(cfg, y, Tick), key).above
    {
      var r, q := Get(x, key), Get(y, key);
      SameTicked(cfg, r, q);
      TickedNew(cfg);
      SameTransitive(Ticked(cfg, r), Ticked(cfg, q), NEW, cfg.capacity);
      SameTransitive(Ticked(cfg, q), Ticked(cfg, r), NEW, cfg.capacity);
      SameTransitive(NEW, Ticked(cfg, q), NEW, cfg.capacity);
      SameTransitive(NEW, NEW, NEW, cfg.capacity);
    }
  }

  lemma SameTransitive(r: Rec, q: Rec, p: Rec, capacity: nat)
    requires capacity > 0
    ensures SameWindow(r, q, capacity) && SameWindow(q, p, capacity) ==> SameWindow(r, p, capacity)
    ensures SameWindow(r, q, capacity) <==> SameWindow(q, r, capacity)
    ensures SameWindow(r, r, capacity)
  {
    forall a | 0 <= a < capacity
      ensures SameAt(r, q, capacity, a) <==> SameAt(q, r, capacity, a)
      ensures SameAt(r, q, capacity, a) && SameAt(q, p, capacity, a) ==> SameAt(r, p, capacity, a)
    {
    }
    if SameWindow(r, q, capacity) && SameWindow(q, p, capacity) {
      forall a | 0 <= a < capacity
        ensures SameAt(r, p, capacity, a)
      {
        assert SameAt(r, q, capacity, a) && SameAt(q, p, capacity, a);
      }
    }
    hide SameAt;
  }

  /** Every flagged record still has packets in its ring, so no cleanup deletes it. */
  ghost predicate FlagsLive(cfg: Config, db: Db)
    requires cfg.Valid()
  {
    forall key :: key in db && db[key].above ==> !NoPackets(db[key], cfg.capacity)
  }

  lemma {:induction false} QuietSum(history: seq<Bucket>, n: nat)
    requires forall a :: 0 < a <= n ==> Quiet(Past(history, a))
    ensures Quiet(WindowSum(history, n))
  {
    if n > 0 {
      QuietSum(history, n - 1);
    }
  }

  lemma QuietExceedsNothing(cfg: Config, sum: Bucket, n: nat)
    requires cfg.Valid() && n > 0 && Quiet(sum)
    ensures !Exceeds(cfg, sum, n)
  {
    Positive(cfg.bucketDuration, n);
    var d := cfg.bucketDuration * n;
    assert 0 / d == 0;
  }

  lemma Positive(x: nat, y: nat)
    requires x > 0 && y > 0
    ensures x * y > 0
  {
  }

  /** With a window shorter than the ring, what raised the flag is still in the ring after the tick. */
  lemma FlaggedHasPackets(cfg: Config, r: Rec)
    requires cfg.Valid() && cfg.Window() < cfg.capacity && Ticked(cfg, r).above
    ensures !NoPackets(Ticked(cfg, r), cfg.capacity)
  {
    var t, n := Ticked(cfg, r), cfg.Window();
    if NoPackets(t, cfg.capacity) {
      forall a | 0 < a <= n
        ensures Quiet(Past(t.history, a))
      {
        assert Quiet(Term(t.history, t.current, cfg.capacity, a));
      }
      hide Exceeds;
      QuietSum(t.history, n);
      TickSum(t.history, cfg.capacity, n);
      QuietExceedsNothing(cfg, WindowSum(t.history, n), n);
    }
  }

  lemma AppendedHasPackets(r: Rec, capacity: nat, bytes: nat, packets: nat, forwarded: bool)
    requires capacity > 0 && !NoPackets(r, capacity)
    ensures !NoPackets(Appended(r, bytes, packets, forwarded), capacity)
  {
    var a :| 0 <= a < capacity && !Quiet(Term(r.history, r.current, capacity, a));
    var q := Appended(r, bytes, packets, forwarded);
    assert !Quiet(Term(q.history, q.current, capacity, a));
  }

  lemma StepKeepsLive(cfg: Config, db: Db, e: Event)
    requires cfg.Valid() && cfg.Window() < cfg.capacity && FlagsLive(cfg, db)
    ensures FlagsLive(cfg, Apply(cfg, db, e))
  {
    hide NoPackets, Ticked, Appended;
    var x := Apply(cfg, db, e);
    forall key | key in x && x[key].above
      ensures !NoPackets(x[key], cfg.capacity)
    {
      match e
      case Append(k, bytes, packets, forwarded) =>
        if key == k {
          AppendedKeepsFlag(Get(db, k), bytes, packets, forwarded);
          AppendedHasPackets(db[k], cfg.capacity, bytes, packets, forwarded);
        }
      case Tick => FlaggedHasPackets(cfg, db[key]);
      case Cleanup =>
    }
  }

  lemma AppendedKeepsFlag(r: Rec, bytes: nat, packets: nat, forwarded: bool)
    ensures Appended(r, bytes, packets, forwarded).above == r.above
  {
  }

  lemma {:induction false} RunKeepsLive(cfg: Config, run: seq<Event>, cleanup: bool)
    requires cfg.Valid() && cfg.Window() < cfg.capacity
    ensures FlagsLive(cfg, After(cfg, run, cleanup))
  {
    hide FlagsLive;
    if run == [] {
      NothingLive(cfg);
    } else {
      RunKeepsLive(cfg, run[..|run| - 1], cleanup);
      StepKeepsLive(cfg, After(cfg, run[..|run| - 1], cleanup), run[|run| - 1]);
    }
  }

  lemma NothingLive(cfg: Config)
    requires cfg.Valid()
    ensures FlagsLive(cfg, map[])
  {
  }

  lemma CleanupKeepsAgree(cfg: Config, x: Db, y: Db, flags: bool)
    requires cfg.Valid() && Agree(cfg, x, y, flags) && AllSound(x)
    ensures Agree(cfg, Apply(cfg, x, Cleanup), y, flags && FlagsLive(cfg, x))
  {
    hide SameWindow, NoPackets, SoundRec;
    var z := Apply(cfg, x, Cleanup);
    forall key
      ensures SameWindow(Get(z, key), Get(y, key), cfg.capacity)
      ensures flags && FlagsLive(cfg, x) ==> Get(z, key).above == Get(y, key).above
    {
      if key in x && key !in z {
        EmptyIsNew(x[key], cfg.capacity);
        SameTransitive(x[key], NEW, NEW, cfg.capacity);
        SameTransitive(NEW, x[key], Get(y, key), cfg.capacity);
      }
    }
  }

  /** Cleanup is unobservable: if bytes never arrive without packets, a run with cleanup and the same run
      without it agree on every window sum of every key, and on every flag if the threshold window is
      shorter than the ring, or else from the next tick on. */
  lemma {:induction false} RunsAgree(cfg: Config, run: seq<Event>)
    requires cfg.Valid() && AllSoundEvents(run)
    ensures Agree(cfg, After(cfg, run, true), After(cfg, run, false), Settled(run) || cfg.Window() < cfg.capacity)
    ensures AllSound(After(cfg, run, true))
  {
    hide Agree, AllSound, FlagsLive;
    if run == [] {
      EmptyAgree(cfg);
    } else {
      var earlier, e := run[..|run| - 1], run[|run| - 1];
      RunsAgree(cfg, earlier);
      var x, y := After(cfg, earlier, true), After(cfg, earlier, false);
      var flags := Settled(earlier) || cfg.Window() < cfg.capacity;
      StepKeepsSound(cfg, x, e);
      match e
      case Append(_, _, _, _) => AppendKeepsAgree(cfg, x, y, e, flags);
      case Tick => TickMakesAgree(cfg, x, y, flags);
      case Cleanup =>
        CleanupKeepsAgree(cfg, x, y, flags);
        if cfg.Window() < cfg.capacity {
          RunKeepsLive(cfg, earlier, true);
        } else {
          Weaken(cfg, Apply(cfg, x, Cleanup), y, flags && FlagsLive(cfg, x));
        }
    }
  }

  predicate AllSoundEvents(run: seq<Event>) {
    forall i :: 0 <= i < |run| ==> Sound(run[i])
  }

  lemma Weaken(cfg: Config, x: Db, y: Db, flags: bool)
    requires cfg.Valid() && Agree(cfg, x, y, flags)
    ensures Agree(cfg, x, y, false)
  {
  }

  lemma EmptyAgree(cfg: Config)
    requires cfg.Valid()
    ensures Agree(cfg, map[], map[], true) && AllSound(map[])
  {
    SameTransitive(NEW, NEW, NEW, cfg.capacity);
  }

  lemma CleanupInvisible(cfg: Config, run: seq<Event>, key: string, n: nat)
    requires cfg.Valid() && AllSoundEvents(run)
    ensures var r, q := Get(After(cfg, run, true), key), Get(After(cfg, run, false), key);
      && RingSum(r.history, r.current, cfg.capacity, n) == RingSum(q.history, q.current, cfg.capacity, n)
      && (Settled(run) || cfg.Window() < cfg.capacity ==> r.above == q.above)
  {
    RunsAgree(cfg, run);
    SameSum(Get(After(cfg, run, true), key), Get(After(cfg, run, false), key), cfg.capacity, n);
  }

  /** No bytes in any ring position. */
  predicate NoBytes(r: Rec, capacity: nat)
    requires capacity > 0
  {
    forall a :: 0 <= a < capacity ==> ByteFree(Term(r.history, r.current, capacity, a))
  }

  predicate ByteFree(b: Bucket) {
    b.fwdBytes == 0 && b.dropBytes == 0
  }

  /** The condition is needed: deleting a record without packets changes no window exactly if it has no bytes. */
  lemma DeletionHarmlessIff(r: Rec, capacity: nat)
    requires capacity > 0 && NoPackets(r, capacity)
    ensures SameWindow(r, NEW, capacity) <==> NoBytes(r, capacity)
  {
    forall a | 0 <= a < capacity
      ensures SameAt(r, NEW, capacity, a) <==> ByteFree(Term(r.history, r.current, capacity, a))
    {
      NewTerm(capacity, a);
      assert Quiet(Term(r.history, r.current, capacity, a));
    }
    hide SameAt, ByteFree;
    if NoBytes(r, capacity) {
      assert SameWindow(r, NEW, capacity);
    }
    if SameWindow(r, NEW, capacity) {
      forall a | 0 <= a < capacity
        ensures ByteFree(Term(r.history, r.current, capacity, a))
      {
        assert SameAt(r, NEW, capacity, a);
      }
    }
  }

  // ---------------------------------------------------------------------------------------------
  // When cleanup can lose a flag

  /** The flag of a key is the same with and without cleanup. */
  ghost predicate SameFlag(cfg: Config, run: seq<Event>, key: string)
    requires cfg.Valid()
  {
    Get(After(cfg, run, true), key).above == Get(After(cfg, run, false), key).above
  }

  /** Cleanup can be seen in no flag of any run exactly if the threshold window is shorter than the ring. */
  lemma FlagsAgreeIff(cfg: Config)
    requires cfg.Valid()
    ensures (forall run, key | AllSoundEvents(run) :: SameFlag(cfg, run, key)) <==> cfg.Window() < cfg.capacity
  {
    if cfg.Window() < cfg.capacity {
      forall run, key | AllSoundEvents(run)
        ensures SameFlag(cfg, run, key)
      {
        CleanupInvisible(cfg, run, key, 0);
      }
    } else {
      FlagLostUntilTick(cfg, "");
      assert !SameFlag(cfg, LosingRun(cfg, ""), "");
    }
  }

  /** One burst above both thresholds, as many ticks as the ring has buckets, a cleanup. */
  function LosingRun(cfg: Config, key: string): seq<Event> {
    var d := cfg.bucketDuration * cfg.Window();
    Burst(key, (cfg.thresholdBps + 1) * d, (cfg.thresholdPps + 1) * d, cfg.capacity) + [Cleanup]
  }

  function Burst(key: string, bytes: nat, packets: nat, ticks: nat): seq<Event> {
    if ticks == 0 then [Append(key, bytes, packets, true)] else Burst(key, bytes, packets, ticks - 1) + [Tick]
  }

  /** The history of such a record. */
  function Once(bucket: Bucket, ticks: nat): seq<Bucket> {
    if ticks == 0 then [] else if ticks == 1 then [bucket] else Once(bucket, ticks - 1) + [ZERO]
  }

  lemma {:induction false} PastOnce(bucket: Bucket, ticks: nat, a: nat)
    requires 0 < a <= ticks
    ensures |Once(bucket, ticks)| == ticks
    ensures Past(Once(bucket, ticks), a) == if a == ticks then bucket else ZERO
  {
    if ticks > 1 {
      PastOnce(bucket, ticks - 1, if a > 1 then a - 1 else 1);
    }
  }

  lemma {:induction false} AfterBurst(cfg: Config, key: string, bytes: nat, packets: nat, ticks: nat, cleanup: bool)
    requires cfg.Valid()
    ensures var db := After(cfg, Burst(key, bytes, packets, ticks), cleanup);
      var bucket := Bucket(bytes, packets, 0, 0);
      && key in db && db[key].history == Once(bucket, ticks)
      && db[key].current == (if ticks == 0 then bucket else ZERO)
      && (ticks > 0 ==> db[key].above == Flag(cfg, Once(bucket, ticks)))
  {
    var run := Burst(key, bytes, packets, ticks);
    hide Flag;
    if ticks == 0 {
      assert run[..0] == [];
      assert After(cfg, [], cleanup) == map[];
    } else {
      assert run[..|run| - 1] == Burst(key, bytes, packets, ticks - 1);
      AfterBurst(cfg, key, bytes, packets, ticks - 1, cleanup);
    }
  }

  lemma {:induction false} RingSumAtLeast(history: seq<Bucket>, current: Bucket, capacity: nat, n: nat, a: nat)
    requires capacity > 0 && 0 < a <= n
    ensures var sum, term := RingSum(history, current, capacity, n), Term(history, current, capacity, a);
      sum.fwdBytes >= term.fwdBytes && sum.fwdPackets >= term.fwdPackets
  {
    if a < n {
      RingSumAtLeast(history, current, capacity, n - 1, a);
    }
  }

  lemma Ordered(x: nat, y: nat, d: nat)
    requires x <= y
    ensures x * d <= y * d
  {
  }

  lemma Quotient(x: nat, t: nat, d: nat)
    requires d > 0 && x >= (t + 1) * d
    ensures x / d > t
  {
    var q := x / d;
    assert x < (q + 1) * d;
    if q <= t {
      Ordered(q + 1, t + 1, d);
    }
  }

  /** A sum that holds the burst exceeds both thresholds. */
  lemma BurstExceeds(cfg: Config, sum: Bucket)
    requires cfg.Valid() && cfg.Window() > 0
    requires var d := cfg.bucketDuration * cfg.Window();
      sum.fwdBytes >= (cfg.thresholdBps + 1) * d && sum.fwdPackets >= (cfg.thresholdPps + 1) * d
    ensures Exceeds(cfg, sum, cfg.Window())
  {
    var d := cfg.bucketDuration * cfg.Window();
    Positive(cfg.bucketDuration, cfg.Window());
    Quotient((sum.fwdBytes + sum.dropBytes) * 8, cfg.thresholdBps, d);
    Quotient(sum.fwdPackets + sum.dropPackets, cfg.thresholdPps, d);
  }

  /** Otherwise the tick that flags a record can also clear the last packets from its ring; a cleanup
      then deletes the record, and the flag is lost until the next tick. */
  lemma FlagLostUntilTick(cfg: Config, key: string)
    requires cfg.Valid() && cfg.Window() >= cfg.capacity
    ensures AllSoundEvents(LosingRun(cfg, key))
    ensures Get(After(cfg, LosingRun(cfg, key), false), key).above
    ensures !Get(After(cfg, LosingRun(cfg, key), true), key).above
  {
    var d, c := cfg.bucketDuration * cfg.Window(), cfg.capacity;
    var bytes, packets := (cfg.thresholdBps + 1) * d, (cfg.thresholdPps + 1) * d;
    Positive(cfg.bucketDuration, cfg.Window());
    Positive(cfg.thresholdPps + 1, d);
    var burst, run := Burst(key, bytes, packets, c), LosingRun(cfg, key);
    BurstSound(key, bytes, packets, c);
    assert run[..|run| - 1] == burst;
    AfterBurst(cfg, key, bytes, packets, c, false);
    AfterBurst(cfg, key, bytes, packets, c, true);
    BurstFlags(cfg, Bucket(bytes, packets, 0, 0));
    BurstGone(After(cfg, burst, true)[key], Bucket(bytes, packets, 0, 0), c);
  }

  lemma {:induction false} BurstSound(key: string, bytes: nat, packets: nat, ticks: nat)
    requires packets > 0
    ensures AllSoundEvents(Burst(key, bytes, packets, ticks))
  {
    if ticks > 0 {
      BurstSound(key, bytes, packets, ticks - 1);
    }
  }

  lemma BurstFlags(cfg: Config, bucket: Bucket)
    requires cfg.Valid() && cfg.Window() >= cfg.capacity
    requires var d := cfg.bucketDuration * cfg.Window();
      bucket.fwdBytes >= (cfg.thresholdBps + 1) * d && bucket.fwdPackets >= (cfg.thresholdPps + 1) * d
    ensures Flag(cfg, Once(bucket, cfg.capacity))
  {
    hide Exceeds;
    var c := cfg.capacity;
    var history := Once(bucket, c);
    PastOnce(bucket, c, c);
    assert Term(history, Past(history, c), c, c) == Term(history, Past(history, c), c, 0) == bucket;
    RingSumAtLeast(history, Past(history, c), c, cfg.Window(), c);
    BurstExceeds(cfg, RingSum(history, Past(history, c), c, cfg.Window()));
  }

  lemma BurstGone(r: Rec, bucket: Bucket, capacity: nat)
    requires capacity > 0 && r.history == Once(bucket, capacity) && r.current == ZERO
    ensures NoPackets(r, capacity)
  {
    forall a | 0 <= a < capacity
      ensures Quiet(Term(r.history, r.current, capacity, a))
    {
      if a > 0 {
        PastOnce(bucket, capacity, a);
      }
    }
  }
}
