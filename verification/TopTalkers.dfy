/** The toptalker database (toptalker_database.go): ring buffers that are advanced by a clock, and a map of
    them from which empty ones are deleted. Every method runs under the lock of its object. */
module TopTalkers {
  import opened Words
  import opened TopTalkerSpec

  /** The ring position i steps behind p. */
  function Behind(p: nat, capacity: nat, i: nat): (pos: nat)
    requires p < capacity
    ensures pos < capacity
  {
    if i == 0 then p
    else if Behind(p, capacity, i - 1) == 0 then capacity - 1
    else Behind(p, capacity, i - 1) - 1
  }

  /** One turn around the ring in closed form. */
  lemma {:induction false} BehindClosed(p: nat, capacity: nat, i: nat)
    requires p < capacity && i <= capacity
    ensures Behind(p, capacity, i) == if i <= p then p - i else p - i + capacity
  {
    if i > 0 { BehindClosed(p, capacity, i - 1); }
  }

  lemma {:induction false} BehindPeriodic(p: nat, capacity: nat, i: nat)
    requires p < capacity
    ensures Behind(p, capacity, i + capacity) == Behind(p, capacity, i)
  {
    if i == 0 { BehindClosed(p, capacity, capacity); } else { BehindPeriodic(p, capacity, i - 1); }
  }

  /** An average over n buckets of the given duration. */
  function PerSecond(total: nat, n: nat, bucketDuration: nat): (average: real)
    requires n > 0 && bucketDuration > 0
    ensures Averages(average, total, n * bucketDuration)
  {
    Positive(n, bucketDuration);
    total as real / (n * bucketDuration) as real
  }

  class Record {
    const fwdBytes: array<nat>
    const fwdPackets: array<nat>
    const dropBytes: array<nat>
    const dropPackets: array<nat>
    const capacity: nat
    var pointer: nat
    var aboveThreshold: bool
    ghost var history: seq<Bucket> // every bucket completed so far

    ghost function Repr(): set<object> {
      {this, fwdBytes, fwdPackets, dropBytes, dropPackets}
    }

    ghost predicate Shaped()
      reads this
    {
      && capacity > 0 && pointer < capacity
      && fwdBytes.Length == fwdPackets.Length == dropBytes.Length == dropPackets.Length == capacity
      && fwdBytes != fwdPackets && fwdBytes != dropBytes && fwdBytes != dropPackets
      && fwdPackets != dropBytes && fwdPackets != dropPackets && dropBytes != dropPackets
    }

    ghost function Slot(j: nat): Bucket
      requires Shaped() && j < capacity
      reads this, Repr()
    {
      Bucket(fwdBytes[j], fwdPackets[j], dropBytes[j], dropPackets[j])
    }

    ghost function View(): Rec
      requires Valid()
      reads Repr()
    {
      Rec(history, Slot(pointer), aboveThreshold)
    }

    /** The slots behind the pointer hold the latest completed buckets. */
    ghost predicate Valid()
      reads Repr()
    {
      && Shaped()
      && forall a :: 0 < a < capacity ==> Slot(Behind(pointer, capacity, a)) == Past(history, a)
    }

    constructor (windowSize: nat)
      requires windowSize > 0
      ensures Valid() && View() == NEW && capacity == windowSize && fresh(Repr())
    {
      fwdBytes := new nat[windowSize](_ => 0);
      fwdPackets := new nat[windowSize](_ => 0);
      dropBytes := new nat[windowSize](_ => 0);
      dropPackets := new nat[windowSize](_ => 0);
      capacity := windowSize;
      pointer, aboveThreshold, history := 0, false, [];
    }

    method Append(bytes: nat, packets: nat, statusFwd: bool)
      requires Valid()
      modifies Repr()
      ensures Valid() && View() == Appended(old(View()), bytes, packets, statusFwd)
    {
      forall a | 0 < a < capacity
        ensures Behind(pointer, capacity, a) != pointer
      {
        BehindClosed(pointer, capacity, a);
      }
      if statusFwd {
        fwdBytes[pointer] := fwdBytes[pointer] + bytes;
        fwdPackets[pointer] := fwdPackets[pointer] + packets;
      } else {
        dropBytes[pointer] := dropBytes[pointer] + bytes;
        dropPackets[pointer] := dropPackets[pointer] + packets;
      }
    }

    /** A walk backwards around the ring sees the terms of the history, again and again. */
    lemma {:induction false} SlotTerm(a: nat)
      requires Valid()
      ensures Slot(Behind(pointer, capacity, a)) == Term(history, Slot(pointer), capacity, a)
      decreases a
    {
      if a >= capacity {
        SlotTerm(a - capacity);
        BehindPeriodic(pointer, capacity, a - capacity);
      }
    }

    method IsEmpty() returns (empty: bool)
      requires Valid()
      ensures empty == NoPackets(View(), capacity)
    {
      for i := 0 to capacity
        invariant forall j :: 0 <= j < i ==> Quiet(Slot(j))
      {
        if fwdPackets[i] > 0 || dropPackets[i] > 0 {
          var a := if i <= pointer then pointer - i else pointer - i + capacity;
          BehindClosed(pointer, capacity, a);
          SlotTerm(a);
          return false;
        }
      }
      forall a | 0 <= a < capacity
        ensures Quiet(Term(history, Slot(pointer), capacity, a))
      {
        SlotTerm(a);
      }
      return true;
    }

    /** The averages per second over the last buckets, bits for byte counters; zero buckets mean the whole window.
        Each average times the seconds of the window is what was counted in it. */
    method GetMetrics(buckets: nat, bucketDuration: nat)
      returns (fwdBps: real, fwdPps: real, dropBps: real, dropPps: real)
      requires Valid() && bucketDuration > 0
      ensures var n := if buckets == 0 then capacity else buckets;
        var sum := RingSum(history, Slot(pointer), capacity, n);
        && Averages(fwdBps, 8 * sum.fwdBytes, n * bucketDuration)
        && Averages(fwdPps, sum.fwdPackets, n * bucketDuration)
        && Averages(dropBps, 8 * sum.dropBytes, n * bucketDuration)
        && Averages(dropPps, sum.dropPackets, n * bucketDuration)
    {
      var n := if buckets == 0 then capacity else buckets;
      var sum := SumSeparately(n);
      hide PerSecond, Averages;
      fwdBps := PerSecond(sum.fwdBytes * 8, n, bucketDuration);
      fwdPps := PerSecond(sum.fwdPackets, n, bucketDuration);
      dropBps := PerSecond(sum.dropBytes * 8, n, bucketDuration);
      dropPps := PerSecond(sum.dropPackets, n, bucketDuration);
    }

    method SumSeparately(n: nat) returns (sum: Bucket)
      requires Valid()
      ensures sum == RingSum(history, Slot(pointer), capacity, n)
    {
      var sumFwdBytes, sumFwdPackets, sumDropBytes, sumDropPackets := 0, 0, 0, 0;
      var pos := pointer;
      for i := 0 to n
        invariant pos == Behind(pointer, capacity, i)
        invariant RingSum(history, Slot(pointer), capacity, i)
                  == Bucket(sumFwdBytes, sumFwdPackets, sumDropBytes, sumDropPackets)
      {
        if pos <= 0 {
          pos := capacity - 1;
        } else {
          pos := pos - 1;
        }
        SlotTerm(i + 1);
        sumFwdBytes := sumFwdBytes + fwdBytes[pos];
        sumFwdPackets := sumFwdPackets + fwdPackets[pos];
        sumDropBytes := sumDropBytes + dropBytes[pos];
        sumDropPackets := sumDropPackets + dropPackets[pos];
      }
      sum := Bucket(sumFwdBytes, sumFwdPackets, sumDropBytes, sumDropPackets);
    }

    /** The bucket under the pointer is complete; the pointer moves on to the oldest one. */
    method Advance()
      requires Valid()
      modifies `pointer, `history
      ensures Valid() && history == old(history) + [old(Slot(pointer))]
      ensures Slot(pointer) == Past(history, capacity)
    {
      ghost var h, p := history, pointer;
      history := history + [Slot(pointer)];
      pointer := pointer + 1;
      if pointer >= capacity {
        pointer := 0;
      }
      forall a | 0 < a <= capacity
        ensures Behind(pointer, capacity, a) == Behind(p, capacity, a - 1)
        ensures Slot(Behind(pointer, capacity, a)) == Past(history, a)
      {
        BehindClosed(pointer, capacity, a);
        BehindClosed(p, capacity, a - 1);
        assert a > 1 ==> Past(history, a) == Past(h, a - 1);
      }
      BehindClosed(pointer, capacity, capacity);
    }

    /** Sums over the ring behind the pointer, forwarded and dropped traffic together. */
    method SumBehind(n: nat) returns (sumBytes: nat, sumPackets: nat)
      requires Valid()
      ensures var sum := RingSum(history, Slot(pointer), capacity, n);
        sumBytes == sum.fwdBytes + sum.dropBytes && sumPackets == sum.fwdPackets + sum.dropPackets
    {
      sumBytes, sumPackets := 0, 0;
      var pos := pointer;
      for i := 0 to n
        invariant pos == Behind(pointer, capacity, i)
        invariant var sum := RingSum(history, Slot(pointer), capacity, i);
          sumBytes == sum.fwdBytes + sum.dropBytes && sumPackets == sum.fwdPackets + sum.dropPackets
      {
        if pos <= 0 {
          pos := capacity - 1;
        } else {
          pos := pos - 1;
        }
        SlotTerm(i + 1);
        sumBytes := sumBytes + fwdBytes[pos] + dropBytes[pos];
        sumPackets := sumPackets + fwdPackets[pos] + dropPackets[pos];
      }
    }

    method Clear()
      requires Valid()
      modifies fwdBytes, fwdPackets, dropBytes, dropPackets
      ensures Valid() && Slot(pointer) == ZERO
    {
      forall a | 0 < a < capacity
        ensures Behind(pointer, capacity, a) != pointer
      {
        BehindClosed(pointer, capacity, a);
      }
      fwdBytes[pointer] := 0;
      fwdPackets[pointer] := 0;
      dropBytes[pointer] := 0;
      dropPackets[pointer] := 0;
    }

    /** tick: advance, compare the averages with the thresholds, clear the new current bucket. */
    method Tick(cfg: Config)
      requires Valid() && cfg.Valid() && cfg.capacity == capacity
      modifies Repr()
      ensures Valid() && View() == Ticked(cfg, old(View()))
    {
      Advance();
      Compare(cfg);
      Clear();
    }

    /** The averages over the threshold window, truncated, against the thresholds. */
    method Compare(cfg: Config)
      requires Valid() && cfg.Valid() && cfg.capacity == capacity && Slot(pointer) == Past(history, capacity)
      modifies `aboveThreshold
      ensures aboveThreshold == Flag(cfg, history)
    {
      var n := if cfg.thresholdBuckets == 0 then capacity else cfg.thresholdBuckets;
      var sumBytes, sumPackets := SumBehind(n);
      Positive(cfg.bucketDuration, n);
      var bps := sumBytes * 8 / (cfg.bucketDuration * n);
      var pps := sumPackets / (cfg.bucketDuration * n);
      if bps > cfg.thresholdBps && pps > cfg.thresholdPps {
        aboveThreshold := true;
      } else {
        aboveThreshold := false;
      }
    }
  }

  /** The record is in order and its contents are the given value. */
  ghost predicate Holds(record: Record, cfg: Config, r: Rec)
    reads record.Repr()
  {
    record.Valid() && record.capacity == cfg.capacity && record.View() == r
  }

  lemma Held(record: Record, cfg: Config, r: Rec)
    ensures Holds(record, cfg, r) <==> record.Valid() && record.capacity == cfg.capacity && record.View() == r
  {
  }

  /** A map of records under their printed keys. Records of different keys share no memory. */
  class Database {
    const cfg: Config
    const buckets: nat
    const cleanupWindowSizes: nat
    var database: map<string, Record>
    var cleanupCounter: int
    ghost var view: Db
    ghost var repr: set<object>

    ghost predicate Valid()
      reads this, repr
    {
      && cfg.Valid() && this !in repr && database.Keys == view.Keys
      && (forall k :: k in database ==>
            database[k].Repr() <= repr && Holds(database[k], cfg, view[k]))
      && (forall k, l :: k in database && l in database && k != l ==> database[k].Repr() !! database[l].Repr())
    }

    constructor (cfg: Config, buckets: nat, cleanupWindowSizes: nat)
      requires cfg.Valid()
      ensures Valid() && fresh(repr) && view == map[] && this.cfg == cfg
      ensures cleanupCounter == buckets * cleanupWindowSizes
      ensures this.buckets == buckets && this.cleanupWindowSizes == cleanupWindowSizes
    {
      this.cfg, this.buckets, this.cleanupWindowSizes := cfg, buckets, cleanupWindowSizes;
      database, view, repr := map[], map[], {};
      cleanupCounter := buckets * cleanupWindowSizes;
    }

    function Key(typeLabel: string, address: string): string {
      typeLabel + ": " + address
    }

    /** Labels without a colon have separate keys for every address. */
    lemma KeysApart(x: string, a: string, y: string, b: string)
      requires ':' !in x && ':' !in y
      ensures Key(x, a) == Key(y, b) <==> x == y && a == b
    {
      var k, l := Key(x, a), Key(y, b);
      if k == l {
        assert k[|x|] == ':' && l[|y|] == ':';
        assert k[..|x|] == x && l[..|y|] == y;
        assert |x| == |y|;
        assert k[|x| + 2..] == a && l[|y| + 2..] == b;
      }
    }

    /** The record under a key, created if there is none. */
    method GetTypedRecord(typeLabel: string, address: string) returns (record: Record)
      requires Valid()
      modifies this
      ensures Valid() && fresh(repr - old(repr)) && old(repr) <= repr && cleanupCounter == old(cleanupCounter)
      ensures Key(typeLabel, address) in database && database[Key(typeLabel, address)] == record
      ensures record.Repr() <= repr
      ensures view == old(view)[Key(typeLabel, address) := Get(old(view), Key(typeLabel, address))]
    {
      hide Holds, Record.Repr, Record.Valid, Record.View;
      var key := Key(typeLabel, address);
      if key in database {
        record := database[key];
      } else {
        record := Create(key);
      }
    }

    method Create(key: string) returns (record: Record)
      requires Valid() && key !in database
      modifies `database, `view, `repr
      ensures Valid() && fresh(repr - old(repr)) && old(repr) <= repr && record.Repr() <= repr
      ensures database == old(database)[key := record] && view == old(view)[key := NEW]
    {
      hide Holds, Record.Repr, Record.Valid, Record.View;
      record := new Record(cfg.capacity);
      Held(record, cfg, NEW);
      database := database[key := record];
      view := view[key := NEW];
      repr := repr + record.Repr();
    }

    /** Look up and append in one step, as the segments do for every message. */
    method Count(typeLabel: string, address: string, bytes: nat, packets: nat, forwarded: bool)
      requires Valid()
      modifies this, repr
      ensures Valid() && fresh(repr - old(repr)) && cleanupCounter == old(cleanupCounter)
      ensures view == Apply(cfg, old(view), TopTalkerSpec.Append(Key(typeLabel, address), bytes, packets, forwarded))
    {
      hide Valid, Appended;
      var record := GetTypedRecord(typeLabel, address);
      AppendTo(Key(typeLabel, address), record, bytes, packets, forwarded);
    }

    method AppendTo(key: string, record: Record, bytes: nat, packets: nat, forwarded: bool)
      requires Valid() && key in database && database[key] == record
      modifies `view, record.Repr()
      ensures Valid() && key in old(view)
      ensures view == old(view)[key := Appended(old(view)[key], bytes, packets, forwarded)]
    {
      hide Holds, Record.Repr, Record.Valid, Record.View;
      Held(record, cfg, view[key]);
      record.Append(bytes, packets, forwarded);
      view := view[key := record.View()];
      Held(record, cfg, view[key]);
    }

    /** One beat of Clock: every record is ticked once. */
    method Beat()
      requires Valid()
      modifies this, repr
      ensures Valid() && repr == old(repr) && cleanupCounter == old(cleanupCounter)
      ensures view == Apply(cfg, old(view), TopTalkerSpec.Tick)
    {
      hide Holds, Record.Repr, Record.Valid, Record.View, Ticked;
      assert cfg.Valid();
      hide Valid;
      TickAll();
    }

    method TickAll()
      requires Valid()
      modifies `view, repr
      ensures Valid() && view.Keys == old(view).Keys && forall k :: k in view ==> view[k] == Ticked(cfg, old(view)[k])
    {
      hide Holds, Record.Repr, Record.Valid, Record.View;
      assert database.Keys == view.Keys && cfg.Valid() && this !in repr;
      assert forall k :: k in database ==> database[k].Repr() <= repr;
      hide Valid, Ticked;
      var pending := database.Keys;
      ghost var before := view;
      while pending != {}
        invariant Valid() && database.Keys == view.Keys == before.Keys && pending <= before.Keys
        invariant forall k :: k in before ==> view[k] == if k in pending then before[k] else Ticked(cfg, before[k])
      {
        var key :| key in pending;
        pending := pending - {key};
        TickOne(key);
      }
    }

    method TickOne(key: string)
      requires Valid() && key in database
      modifies `view, database[key].Repr()
      ensures Valid() && key in old(view)
      ensures view == old(view)[key := Ticked(cfg, old(view)[key])]
    {
      hide Holds, Record.Repr, Record.Valid, Record.View;
      var record := database[key];
      Held(record, cfg, view[key]);
      record.Tick(cfg);
      view := view[key := record.View()];
      Held(record, cfg, view[key]);
    }

    /** One beat of Cleanup: every cleanupWindowSizes windows the empty records are deleted. */
    method CleanupBeat()
      requires Valid()
      modifies this
      ensures Valid() && repr == old(repr)
      ensures if old(cleanupCounter) <= 1
        then cleanupCounter == buckets * cleanupWindowSizes && view == Apply(cfg, old(view), TopTalkerSpec.Cleanup)
        else cleanupCounter == old(cleanupCounter) - 1 && view == old(view)
    {
      hide Holds, Record.Repr, Record.Valid, Record.View, Apply;
      cleanupCounter := cleanupCounter - 1;
      if cleanupCounter <= 0 {
        cleanupCounter := buckets * cleanupWindowSizes;
        DeleteEmpty();
      }
    }

    method DeleteEmpty()
      requires Valid()
      modifies `database, `view
      ensures Valid()
      ensures view == Apply(cfg, old(view), TopTalkerSpec.Cleanup)
    {
      hide Holds, Record.Repr, Record.Valid, Record.View, NoPackets;
      assert cfg.Valid();
      hide Valid;
      DeleteAllEmpty();
    }

    /** A cleanup in progress: the pending keys are untouched, of the others only records with packets stay. */
    ghost predicate Cleaned(before: Db, now: Db, pending: set<string>)
      requires cfg.capacity > 0
    {
      && pending <= now.Keys <= before.Keys
      && (forall k :: k in before ==> (k in now <==> k in pending || !NoPackets(before[k], cfg.capacity)))
      && (forall k :: k in now ==> now[k] == before[k])
    }

    lemma CleanedStep(before: Db, now: Db, pending: set<string>, key: string)
      requires cfg.capacity > 0 && Cleaned(before, now, pending) && key in pending && key in now
      ensures Cleaned(before, if NoPackets(now[key], cfg.capacity) then now - {key} else now, pending - {key})
    {
      hide NoPackets;
    }

    method DeleteAllEmpty()
      requires Valid()
      modifies `database, `view
      ensures Valid() && cfg.Valid()
      ensures forall k :: k in view <==> k in old(view) && !NoPackets(old(view)[k], cfg.capacity)
      ensures forall k :: k in view ==> view[k] == old(view)[k]
    {
      hide Holds, Record.Repr, Record.Valid, Record.View;
      assert database.Keys == view.Keys && cfg.Valid();
      hide Valid, NoPackets;
      var pending := database.Keys;
      ghost var before := view;
      while pending != {}
        invariant Valid() && database.Keys == view.Keys
        invariant Cleaned(before, view, pending)
      {
        var key :| key in pending;
        CleanedStep(before, view, pending, key);
        pending := pending - {key};
        DeleteIfEmpty(key);
      }
    }

    method DeleteIfEmpty(key: string)
      requires Valid() && key in database
      modifies `database, `view
      ensures Valid() && key in old(view) && database.Keys == view.Keys
      ensures view == if NoPackets(old(view)[key], cfg.capacity) then old(view) - {key} else old(view)
    {
      hide Holds, Record.Repr, Record.Valid, Record.View, NoPackets;
      Held(database[key], cfg, view[key]);
      var empty := database[key].IsEmpty();
      if empty {
        database := database - {key};
        view := view - {key};
      }
    }
  }
}
