/** What the flow cache promises about the flows it cuts and the numbers it exports, over whole runs and in terms
    of the events: packets, clock readings and timeouts. */
module FlowCacheLaws {
  import opened Words
  import opened FlowCacheSpec

  // ---------------------------------------------------------------------------------------------
  // No flow is cut early

  /** The events that exported the records, one for each. */
  ghost function Ends(cfg: Config, run: seq<Event>): (ends: seq<Event>)
    requires Feasible(cfg, run)
    ensures |ends| == |After(cfg, run).exported|
  {
    if run == [] then []
    else
      var n := |After(cfg, run).exported| - |After(cfg, Init(run)).exported|;
      Ends(cfg, Init(run)) + seq(n, i => Last(run))
  }

  function Time(e: Event): int {
    if e.Arrive? then e.stamped else e.now
  }

  /** What entitles an event to export a record: it brought the record's last packet, with a FIN; or it read the
      clock more than the inactive timeout after the last packet; or more than the active timeout after the
      record's creation. */
  predicate Entitled(cfg: Config, r: Rec, e: Event) {
    && r.packets != [] && r.arrivals != []
    && match e
       case Arrive(p, _, _, stamped) => p == Last(r.packets) && p.tcpFlags & 1 == 1 && stamped == Last(r.arrivals)
       case SweepInactive(read, _, _) => read - Last(r.arrivals) > cfg.inactiveTimeout
       case SweepActive(read, _, _) => read - r.received > cfg.activeTimeout
  }

  predicate Starts(r: Rec, time: int) {
    r.arrivals != [] && time <= r.arrivals[0]
  }

  /** Every export was entitled, and the flows that follow it start after it. */
  predicate CutsKept(cfg: Config, c: Cache, ends: seq<Event>, now: int) {
    && |ends| == |c.exported|
    && (forall i :: 0 <= i < |ends| ==> Entitled(cfg, c.exported[i], ends[i]) && Time(ends[i]) <= now)
    && (forall i, j :: 0 <= i < j < |ends| && SameKey(c.exported[i], c.exported[j]) ==>
          Starts(c.exported[j], Time(ends[i])))
    && (forall i, key :: 0 <= i < |ends| && key in c.records && HasKey(c.exported[i], key) ==>
          Starts(c.records[key], Time(ends[i])))
  }

  /** The record that an arrival extends starts after all exports of its key. */
  lemma ArrivalStarts(cfg: Config, late: nat, c: Cache, k: Clock, ends: seq<Event>, e: Event)
    requires e.Arrive? && KeysKept(c) && TimesKept(cfg, late, c, k) && Forwards(k, e) && CutsKept(cfg, c, ends, k.now)
    ensures k.now <= Time(e)
    ensures var key := NewFlowKey(e.packet);
      var earlier := if key in c.records then c.records[key] else Rec(e.created, 0, [], [], []);
      var r := Extended(earlier, e.packet, e.sampler, e.stamped);
      && HasKey(r, key) && (IsFin(e.packet) ==> Entitled(cfg, r, e))
      && forall i :: 0 <= i < |ends| && HasKey(c.exported[i], key) ==> Starts(r, Time(ends[i]))
  {
    hide NewFlowKey;
  }

  lemma ArrivalKeepsCuts(cfg: Config, late: nat, c: Cache, k: Clock, ends: seq<Event>, e: Event)
    requires e.Arrive? && KeysKept(c) && TimesKept(cfg, late, c, k) && Forwards(k, e) && CutsKept(cfg, c, ends, k.now)
    ensures var more := if IsFin(e.packet) then [e] else [];
      CutsKept(cfg, Apply(cfg, c, e), ends + more, Time(e))
  {
    hide TimesKept, KeysKept, NewFlowKey, Forwards, IsFin, Entitled, Starts, Extended;
    ArrivalStarts(cfg, late, c, k, ends, e);
  }

  lemma SweepKeepsCuts(cfg: Config, late: nat, c: Cache, k: Clock, ends: seq<Event>, e: Event)
    requires !e.Arrive? && Enabled(cfg, c, e) && KeysKept(c) && TimesKept(cfg, late, c, k) && Forwards(k, e)
    requires CutsKept(cfg, c, ends, k.now)
    ensures CutsKept(cfg, Apply(cfg, c, e), ends + seq(|e.order|, i => e), Time(e))
  {
    var d, all, n := Apply(cfg, c, e), ends + seq(|e.order|, i => e), |ends|;
    forall i | n <= i < |all|
      ensures all[i] == e && e.order[i - n] in c.records && d.exported[i] == c.records[e.order[i - n]]
      ensures d.exported[i] == Taken(c, e.order)[i - n] && e.order[i - n] in e.order
      ensures HasKey(d.exported[i], e.order[i - n]) && Entitled(cfg, d.exported[i], e)
    {
      assert e.order[i - n] in e.order;
    }
    TakenKeys(c, e.order);
    hide KeysKept, TimesKept, Entitled, Forwards, Starts, SameKey;
    forall i, j | 0 <= i < j < |all| && SameKey(d.exported[i], d.exported[j])
      ensures Starts(d.exported[j], Time(all[i]))
    {
      if i < n <= j {
        SameKeys(d.exported[i], d.exported[j], e.order[j - n]);
      }
    }
    forall i, key | 0 <= i < |all| && key in d.records && HasKey(d.exported[i], key)
      ensures Starts(d.records[key], Time(all[i]))
    {
      if n <= i {
        OneKey(d.exported[i], key, e.order[i - n]);
      }
    }
  }

  lemma SameKeys(r: Rec, q: Rec, key: FlowKey)
    requires SameKey(r, q) && HasKey(q, key)
    ensures HasKey(r, key)
  {
  }

  lemma OneKey(r: Rec, k: FlowKey, l: FlowKey)
    requires HasKey(r, k) && HasKey(r, l)
    ensures k == l
  {
  }

  lemma {:induction false} RunKeepsCuts(cfg: Config, run: seq<Event>, start: int)
    requires Feasible(cfg, run) && Orderly(run, start)
    ensures CutsKept(cfg, After(cfg, run), Ends(cfg, run), ClockAfter(run, start).now)
  {
    if run != [] {
      var c, k, e := After(cfg, Init(run)), ClockAfter(Init(run), start), Last(run);
      RunKeepsCuts(cfg, Init(run), start);
      RunKeepsTimes(cfg, Init(run), start);
      RunKeepsKeys(cfg, Init(run));
      var late, ends := Lateness(cfg, Init(run), start), Ends(cfg, Init(run));
      hide TimesKept, KeysKept, CutsKept;
      if e.Arrive? {
        ArrivalKeepsCuts(cfg, late, c, k, ends, e);
        assert Ends(cfg, run) == ends + if IsFin(e.packet) then [e] else [];
      } else {
        SweepKeepsCuts(cfg, late, c, k, ends, e);
        assert Ends(cfg, run) == ends + seq(|e.order|, i => e);
      }
    }
  }

  lemma {:induction false} EndsInRun(cfg: Config, run: seq<Event>)
    requires Feasible(cfg, run)
    ensures forall e :: e in Ends(cfg, run) ==> e in run
  {
    if run != [] {
      EndsInRun(cfg, Init(run));
    }
  }

  /** The record is the cached one of its key, or was exported after the i-th one. */
  ghost predicate Later(c: Cache, i: nat, r: Rec)
    requires i < |c.exported|
  {
    || (exists j :: i < j < |c.exported| && c.exported[j] == r)
    || (r.packets != [] && NewFlowKey(r.packets[0]) in c.records && c.records[NewFlowKey(r.packets[0])] == r)
  }

  /** Over every run whose clock does not run backwards no flow is cut early. If a flow has been exported and
      another one of its key follows, it ended with a FIN; or the next packet came more than the inactive
      timeout after its last one; or a sweep exported it that read the clock more than the active timeout after its
      creation. */
  lemma NoFlowCutEarly(cfg: Config, run: seq<Event>, start: int, i: nat, next: Rec)
    requires Feasible(cfg, run) && Orderly(run, start) && i < |After(cfg, run).exported|
    requires Later(After(cfg, run), i, next) && SameKey(After(cfg, run).exported[i], next)
    ensures var r, e := After(cfg, run).exported[i], Ends(cfg, run)[i];
      && e in run && r.packets != [] && r.arrivals != [] && next.arrivals != []
      && (|| Last(r.packets).tcpFlags & 1 == 1
          || next.arrivals[0] - Last(r.arrivals) > cfg.inactiveTimeout
          || (e.SweepActive? && e.read - r.received > cfg.activeTimeout))
  {
    RunKeepsCuts(cfg, run, start);
    EndsInRun(cfg, run);
    ReadingsPrecede(run, start);
    hide Feasible, After, Orderly, Ends;
  }

  /** Whether another flow follows or not. */
  lemma ExportsEntitled(cfg: Config, run: seq<Event>, start: int, i: nat)
    requires Feasible(cfg, run) && Orderly(run, start) && i < |After(cfg, run).exported|
    ensures Ends(cfg, run)[i] in run && Entitled(cfg, After(cfg, run).exported[i], Ends(cfg, run)[i])
  {
    RunKeepsCuts(cfg, run, start);
    EndsInRun(cfg, run);
    hide Feasible, After, Orderly, Ends, Entitled;
  }

  lemma {:induction false} ReadingsPrecede(run: seq<Event>, start: int)
    requires Orderly(run, start)
    ensures forall e :: e in run && !e.Arrive? ==> e.read <= e.now
  {
    if run != [] {
      ReadingsPrecede(Init(run), start);
      assert run == Init(run) + [Last(run)];
    }
  }

  // ---------------------------------------------------------------------------------------------
  // What a record says about its first and its last packet

  /** Event a brought the record's first packet and event b its last one. */
  predicate SpansFrom(run: seq<Event>, r: Rec, a: nat, b: nat) {
    && a <= b < |run| && run[a].Arrive? && run[b].Arrive? && r.packets != []
    && r.received == run[a].created && r.packets[0] == run[a].packet
    && r.updated == run[b].stamped && r.sampler == run[b].sampler && Last(r.packets) == run[b].packet
  }

  ghost predicate Spans(run: seq<Event>, r: Rec) {
    exists a: nat, b: nat :: SpansFrom(run, r, a, b)
  }

  lemma SpansLater(run: seq<Event>, e: Event, r: Rec)
    requires Spans(run, r)
    ensures Spans(run + [e], r)
  {
    var a: nat, b: nat :| SpansFrom(run, r, a, b);
    assert SpansFrom(run + [e], r, a, b);
  }

  lemma SpansFurther(run: seq<Event>, e: Event, r: Rec)
    requires Spans(run, r) && e.Arrive?
    ensures Spans(run + [e], Extended(r, e.packet, e.sampler, e.stamped))
  {
    var a: nat, b: nat :| SpansFrom(run, r, a, b);
    assert SpansFrom(run + [e], Extended(r, e.packet, e.sampler, e.stamped), a, |run|);
  }

  lemma SpansOne(run: seq<Event>, e: Event)
    requires e.Arrive?
    ensures Spans(run + [e], Extended(Rec(e.created, 0, [], [], []), e.packet, e.sampler, e.stamped))
  {
    assert SpansFrom(run + [e], Extended(Rec(e.created, 0, [], [], []), e.packet, e.sampler, e.stamped), |run|, |run|);
  }

  ghost predicate AllSpan(run: seq<Event>, c: Cache) {
    && (forall k :: k in c.records ==> Spans(run, c.records[k]))
    && (forall i :: 0 <= i < |c.exported| ==> Spans(run, c.exported[i]))
  }

  lemma AllSpanLater(run: seq<Event>, e: Event, c: Cache)
    requires AllSpan(run, c)
    ensures AllSpan(run + [e], c)
  {
    hide Spans;
    forall r | Spans(run, r)
      ensures Spans(run + [e], r)
    {
      SpansLater(run, e, r);
    }
  }

  lemma ArrivalSpans(cfg: Config, run: seq<Event>, c: Cache, e: Event)
    requires AllSpan(run, c) && e.Arrive?
    ensures AllSpan(run + [e], Apply(cfg, c, e))
  {
    hide Spans, Extended, IsFin, NewFlowKey;
    AllSpanLater(run, e, c);
    var key := NewFlowKey(e.packet);
    if key in c.records {
      SpansFurther(run, e, c.records[key]);
    } else {
      SpansOne(run, e);
    }
  }

  lemma SweepSpans(cfg: Config, run: seq<Event>, c: Cache, e: Event)
    requires AllSpan(run, c) && !e.Arrive? && Enabled(cfg, c, e)
    ensures AllSpan(run + [e], Apply(cfg, c, e))
  {
    hide Spans;
    AllSpanLater(run, e, c);
    forall i | 0 <= i < |e.order|
      ensures e.order[i] in c.records && Spans(run + [e], c.records[e.order[i]])
    {
      assert e.order[i] in e.order;
    }
  }

  lemma {:induction false} RecordsSpan(cfg: Config, run: seq<Event>)
    requires Feasible(cfg, run)
    ensures AllSpan(run, After(cfg, run))
  {
    if run != [] {
      hide AllSpan, Apply, Enabled;
      var front, e := Init(run), Last(run);
      assert run == front + [e];
      RecordsSpan(cfg, front);
      if e.Arrive? {
        ArrivalSpans(cfg, front, After(cfg, front), e);
      } else {
        SweepSpans(cfg, front, After(cfg, front), e);
      }
    }
  }

  /** An exported flow starts when the record of its first packet was created and ends with the stamp of its last
      packet, from which it has its sampler; everything else but the sums it has from the first packet. */
  lemma ExportedSpan(cfg: Config, run: seq<Event>, i: nat) returns (a: nat, b: nat)
    requires Feasible(cfg, run) && i < |After(cfg, run).exported|
    ensures a <= b < |run| && run[a].Arrive? && run[b].Arrive?
    ensures After(cfg, run).exported[i].packets != []
    ensures run[a].packet == After(cfg, run).exported[i].packets[0]
    ensures run[b].packet == Last(After(cfg, run).exported[i].packets)
    ensures var m := Summary(After(cfg, run).exported[i]);
      && m.timeFlowStart == m.timeReceived == run[a].created
      && m.timeFlowEnd == run[b].stamped && m.sampler == run[b].sampler
      && Describes(m.first, run[a].packet)
  {
    RecordsSpan(cfg, run);
    var r := After(cfg, run).exported[i];
    hide Feasible, After, OrFlags, SumBytes, Low64;
    a, b :| SpansFrom(run, r, a, b);
  }

  predicate Describes(s: Static, p: Packet) {
    && s.srcAddr == p.srcAddr && s.dstAddr == p.dstAddr && s.srcPort == p.srcPort && s.dstPort == p.dstPort
    && s.proto == p.proto && s.ipTos == p.ipTos && s.inIf == p.inIf && s.outIf == p.outIf
    && s.flowDirection == p.flowDirection && s.remoteAddr == p.remoteAddr && s.etype == p.etype
    && s.ipv6FlowLabel == p.ipv6FlowLabel && s.ipTtl == p.ipTtl
    && s.icmpType == p.icmpType && s.icmpCode == p.icmpCode
  }

  // ---------------------------------------------------------------------------------------------
  // Bytes and packets are conserved

  /** Bytes and packets of one key that arrived. */
  function BytesIn(run: seq<Event>, key: FlowKey): nat {
    if run == [] then 0
    else
      var e := Last(run);
      BytesIn(Init(run), key) + if e.Arrive? && NewFlowKey(e.packet) == key then e.packet.bytes else 0
  }

  function PacketsIn(run: seq<Event>, key: FlowKey): nat {
    if run == [] then 0
    else
      var e := Last(run);
      PacketsIn(Init(run), key) + if e.Arrive? && NewFlowKey(e.packet) == key then 1 else 0
  }

  /** The counters of the exported messages of one key, added up. */
  function BytesOut(exported: seq<Rec>, key: FlowKey): nat {
    if exported == [] then 0
    else BytesOut(Init(exported), key) + if HasKey(Last(exported), key) then Summary(Last(exported)).bytes else 0
  }

  function PacketsOut(exported: seq<Rec>, key: FlowKey): nat {
    if exported == [] then 0
    else PacketsOut(Init(exported), key) + if HasKey(Last(exported), key) then Summary(Last(exported)).packets else 0
  }

  /** The counters that the cached record of a key would be exported with. */
  function BytesHeld(c: Cache, key: FlowKey): nat {
    if key in c.records then Summary(c.records[key]).bytes else 0
  }

  function PacketsHeld(c: Cache, key: FlowKey): nat {
    if key in c.records then Summary(c.records[key]).packets else 0
  }

  function SeenBytes(s: seq<Sighting>): nat {
    if s == [] then 0 else SeenBytes(Init(s)) + Last(s).packet.bytes
  }

  lemma {:induction false} SeenBytesJoin(a: seq<Sighting>, b: seq<Sighting>)
    ensures SeenBytes(a + b) == SeenBytes(a) + SeenBytes(b)
  {
    if b == [] {
      assert a + b == a;
    } else {
      assert Init(a + b) == a + Init(b) && Last(a + b) == Last(b);
      SeenBytesJoin(a, Init(b));
    }
  }

  lemma {:induction false} ArrivedCounts(run: seq<Event>, key: FlowKey)
    ensures SeenBytes(Arrived(run, key)) == BytesIn(run, key) && |Arrived(run, key)| == PacketsIn(run, key)
  {
    if run != [] {
      ArrivedCounts(Init(run), key);
      var e := Last(run);
      var latest := if e.Arrive? && NewFlowKey(e.packet) == key then [Sighting(e.packet, e.stamped)] else [];
      hide NewFlowKey;
      SeenBytesJoin(Arrived(Init(run), key), latest);
      assert latest != [] ==> Init(latest) == [];
    }
  }

  lemma {:induction false} SightingsBytes(packets: seq<Packet>, arrivals: seq<int>)
    requires |packets| == |arrivals|
    ensures SumBytes(packets) == SeenBytes(Sightings(Rec(0, 0, [], packets, arrivals)))
  {
    if packets != [] {
      SightingsBytes(Init(packets), Init(arrivals));
      assert Init(Sightings(Rec(0, 0, [], packets, arrivals)))
        == Sightings(Rec(0, 0, [], Init(packets), Init(arrivals)));
    }
  }

  lemma WordsAdd(x: nat, y: nat, p: nat, q: nat)
    requires Low64(x) == Low64(p) && Low64(y) == Low64(q)
    ensures Low64(x + y) == Low64(p + q)
  {
    WordOfSum(x, y);
    WordOfSum(p, q);
    hide Low64;
  }

  lemma WordOfSum(x: nat, y: nat)
    ensures Low64(x + y) == Low64(Low64(x) + Low64(y))
  {
    SameWord(x + y, Low64(x) + Low64(y), x / TWO_TO_THE_64 + y / TWO_TO_THE_64);
  }

  lemma SameWord(x: nat, y: nat, k: nat)
    requires x == y + TWO_TO_THE_64 * k
    ensures Low64(x) == Low64(y)
  {
  }

  lemma WordOfWord(x: nat)
    ensures Low64(Low64(x)) == Low64(x)
  {
  }

  /** The counters of one message. */
  lemma SummaryCounts(r: Rec)
    requires |r.packets| == |r.arrivals|
    ensures Agree(Summary(r).bytes, Summary(r).packets, Sightings(r))
  {
    hide Low64, OrFlags, StaticOf;
    SightingsBytes(r.packets, r.arrivals);
    assert Sightings(Rec(0, 0, [], r.packets, r.arrivals)) == Sightings(r);
    WordOfWord(SumBytes(r.packets));
    WordOfWord(|r.packets|);
  }

  lemma OutStep(exported: seq<Rec>, key: FlowKey)
    requires exported != []
    ensures var front, r := Init(exported), Last(exported);
      if HasKey(r, key) then
        && Out(exported, key) == Out(front, key) + Sightings(r)
        && BytesOut(exported, key) == BytesOut(front, key) + Summary(r).bytes
        && PacketsOut(exported, key) == PacketsOut(front, key) + Summary(r).packets
      else
        && Out(exported, key) == Out(front, key)
        && BytesOut(exported, key) == BytesOut(front, key)
        && PacketsOut(exported, key) == PacketsOut(front, key)
  {
    hide Summary, Sightings, HasKey;
  }

  /** The counters of some messages agree, as words, with the packets of their records. */
  predicate Agree(bytes: nat, packets: nat, seen: seq<Sighting>) {
    Low64(bytes) == Low64(SeenBytes(seen)) && Low64(packets) == Low64(|seen|)
  }

  lemma AgreeJoin(b: nat, p: nat, s: seq<Sighting>, c: nat, q: nat, t: seq<Sighting>)
    requires Agree(b, p, s) && Agree(c, q, t)
    ensures Agree(b + c, p + q, s + t)
  {
    hide SeenBytes, Low64;
    SeenBytesJoin(s, t);
    WordsAdd(b, c, SeenBytes(s), SeenBytes(t));
    WordsAdd(p, q, |s|, |t|);
  }

  lemma {:induction false} OutCounts(exported: seq<Rec>, key: FlowKey)
    requires forall i :: 0 <= i < |exported| ==> |exported[i].packets| == |exported[i].arrivals|
    ensures Agree(BytesOut(exported, key), PacketsOut(exported, key), Out(exported, key))
  {
    if exported != [] {
      hide Summary, Sightings, HasKey, Agree, Out, BytesOut, PacketsOut;
      var front, r := Init(exported), Last(exported);
      OutCounts(front, key);
      OutStep(exported, key);
      SummaryCounts(r);
      AgreeJoin(BytesOut(front, key), PacketsOut(front, key), Out(front, key),
        Summary(r).bytes, Summary(r).packets, Sightings(r));
    }
  }

  lemma HeldCounts(c: Cache, key: FlowKey)
    requires key in c.records ==> |c.records[key].packets| == |c.records[key].arrivals|
    ensures Agree(BytesHeld(c, key), PacketsHeld(c, key), Held(c, key))
  {
    if key in c.records {
      hide Summary, Sightings, Agree;
      SummaryCounts(c.records[key]);
    }
  }

  /** After every run and for each key, the exported counters and those of the cached record add up to the bytes
      and packets that arrived, as 64-bit words. */
  lemma RunConservesCounts(cfg: Config, run: seq<Event>, key: FlowKey)
    requires Feasible(cfg, run)
    ensures var c := After(cfg, run);
      && Low64(BytesOut(c.exported, key) + BytesHeld(c, key)) == Low64(BytesIn(run, key))
      && Low64(PacketsOut(c.exported, key) + PacketsHeld(c, key)) == Low64(PacketsIn(run, key))
  {
    hide Feasible, After, KeysKept, SeenBytes, Out, Held, BytesOut, PacketsOut, BytesHeld, PacketsHeld, Arrived, Low64,
      BytesIn, PacketsIn;
    RunConservesPackets(cfg, run, key);
    RunKeepsKeys(cfg, run);
    ArrivedCounts(run, key);
    var c := After(cfg, run);
    LengthsKept(c);
    OutCounts(c.exported, key);
    HeldCounts(c, key);
    AgreeJoin(BytesOut(c.exported, key), PacketsOut(c.exported, key), Out(c.exported, key),
      BytesHeld(c, key), PacketsHeld(c, key), Held(c, key));
  }

  lemma LengthsKept(c: Cache)
    requires KeysKept(c)
    ensures forall k :: k in c.records ==> |c.records[k].packets| == |c.records[k].arrivals|
    ensures forall i :: 0 <= i < |c.exported| ==> |c.exported[i].packets| == |c.exported[i].arrivals|
  {
    hide AllOfKey, NoFin;
  }
}
