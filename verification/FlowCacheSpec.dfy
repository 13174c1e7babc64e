/** The flow cache of segments/input/bpf/flow_exporter.go on values: what one step does, and what
    holds after every run of arriving packets and timeout sweeps. */
module FlowCacheSpec {
  import opened Words

  datatype Packet = Packet(
    srcAddr: Bytes, dstAddr: Bytes, inIf: U32, outIf: U32, bytes: U32, etype: U32, proto: U32, ipv6FlowLabel: U32,
    srcPort: U16, dstPort: U16, ipTtl: U8, ipTos: U8, icmpType: U8, icmpCode: U8, tcpFlags: bv8,
    flowDirection: U8, remoteAddr: U8)

  datatype FlowKey = FlowKey(
    srcAddr: Bytes, dstAddr: Bytes, srcPort: U16, dstPort: U16, proto: U32, ipTos: U8, inIface: U32)

  /** A flow record: times are nanoseconds; arrivals are the times at which its packets were stamped. */
  datatype Rec = Rec(received: int, updated: int, sampler: Bytes, packets: seq<Packet>, arrivals: seq<int>)

  /** The fields of an exported message that come from the record's first packet. */
  datatype Static = Static(
    srcAddr: Bytes, dstAddr: Bytes, srcPort: U32, dstPort: U32, proto: U32, ipTos: U32, inIf: U32, outIf: U32,
    flowDirection: U32, remoteAddr: U32, etype: U32, ipv6FlowLabel: U32, ipTtl: U32, icmpType: U32, icmpCode: U32)

  /** The exported message; tcpFlags is the low byte of the source's 32-bit field. */
  datatype Exported = Exported(
    sampler: Bytes, timeReceived: int, timeFlowStart: int, timeFlowEnd: int,
    first: Static, tcpFlags: bv8, bytes: U64, packets: U64)

  datatype Cache = Cache(records: map<FlowKey, Rec>, exported: seq<Rec>)

  datatype Config = Config(activeTimeout: nat, inactiveTimeout: nat)

  /** A packet arrives (a new record is stamped created, the packet stamped), or a sweep exports every record
      past its timeout, in the order in which the map happens to be visited. A sweep reads the clock first
      and passes over the map later, at time now; packets can arrive in between. */
  datatype Event =
    | Arrive(packet: Packet, sampler: Bytes, created: int, stamped: int)
    | SweepInactive(read: int, now: int, order: seq<FlowKey>)
    | SweepActive(read: int, now: int, order: seq<FlowKey>)

  /** net.IP.To16. */
  function To16(ip: Bytes): Bytes {
    if |ip| == 4 then [0, 0, 0, 0, 0, 0, 0, 0, 0, 0, 255, 255] + ip
    else if |ip| == 16 then ip
    else []
  }

  function NewFlowKey(p: Packet): FlowKey {
    FlowKey(To16(p.srcAddr), To16(p.dstAddr), p.srcPort, p.dstPort, p.proto, p.ipTos, p.inIf)
  }

  predicate IsFin(p: Packet) {
    p.tcpFlags & 1 == 1
  }

  function SumBytes(packets: seq<Packet>): nat {
    if packets == [] then 0 else SumBytes(packets[..|packets| - 1]) + packets[|packets| - 1].bytes
  }

  function OrFlags(packets: seq<Packet>): bv8 {
    if packets == [] then 0 else OrFlags(packets[..|packets| - 1]) | packets[|packets| - 1].tcpFlags
  }

  const UNSET: Static := Static([], [], 0, 0, 0, 0, 0, 0, 0, 0, 0, 0, 0, 0, 0)

  function StaticOf(p: Packet): Static {
    Static(p.srcAddr, p.dstAddr, p.srcPort, p.dstPort, p.proto, p.ipTos, p.inIf, p.outIf, p.flowDirection,
           p.remoteAddr, p.etype, p.ipv6FlowLabel, p.ipTtl, p.icmpType, p.icmpCode)
  }

  /** The message for a record: sums and union over its own packets, counters as 64-bit words. */
  function Summary(r: Rec): Exported {
    Exported(r.sampler, r.received, r.received, r.updated, if r.packets == [] then UNSET else StaticOf(r.packets[0]),
             OrFlags(r.packets), Low64(SumBytes(r.packets)), Low64(|r.packets|))
  }

  lemma SumsStep(packets: seq<Packet>, p: Packet)
    ensures SumBytes(packets + [p]) == SumBytes(packets) + p.bytes
    ensures OrFlags(packets + [p]) == OrFlags(packets) | p.tcpFlags
  {
    var all := packets + [p];
    assert all[..|all| - 1] == packets;
  }

  /** The summary grows with its packets one by one. */
  lemma SummaryStep(r: Rec, p: Packet)
    ensures var flow := Summary(r);
      Summary(r.(packets := r.packets + [p])) ==
      flow.(first := if r.packets == [] then StaticOf(p) else flow.first, tcpFlags := flow.tcpFlags | p.tcpFlags,
            bytes := Add64(flow.bytes, p.bytes), packets := Add64(flow.packets, 1))
  {
    hide SumBytes, OrFlags, StaticOf, Low64, Add64;
    SumsStep(r.packets, p);
    Low64Add(SumBytes(r.packets), p.bytes);
    Low64Add(|r.packets|, 1);
  }

  /** The 7-tuple of an exported flow. */
  function KeyOfFlow(f: Exported): FlowKey {
    var s := f.first;
    FlowKey(To16(s.srcAddr), To16(s.dstAddr), s.srcPort % TWO_TO_THE_16, s.dstPort % TWO_TO_THE_16, s.proto,
            s.ipTos % 0x100, s.inIf)
  }

  // ---------------------------------------------------------------------------------------------
  // Steps

  predicate PastInactive(cfg: Config, r: Rec, now: int) {
    now - r.updated > cfg.inactiveTimeout
  }

  predicate PastActive(cfg: Config, r: Rec, now: int) {
    now - r.received > cfg.activeTimeout
  }

  ghost predicate Enumerates(order: seq<FlowKey>, keys: set<FlowKey>) {
    && (forall i, j :: 0 <= i < j < |order| ==> order[i] != order[j])
    && (forall k :: k in order <==> k in keys)
  }

  /** A sweep visits exactly the records past their timeout. */
  ghost predicate Enabled(cfg: Config, c: Cache, e: Event) {
    match e
    case Arrive(_, _, _, _) => true
    case SweepInactive(read, _, order) =>
      Enumerates(order, set k | k in c.records && PastInactive(cfg, c.records[k], read))
    case SweepActive(read, _, order) =>
      Enumerates(order, set k | k in c.records && PastActive(cfg, c.records[k], read))
  }

  function Extended(r: Rec, p: Packet, sampler: Bytes, stamped: int): Rec {
    Rec(r.received, stamped, sampler, r.packets + [p], r.arrivals + [stamped])
  }

  function Inserted(c: Cache, p: Packet, sampler: Bytes, created: int, stamped: int): Cache {
    var key := NewFlowKey(p);
    var earlier := if key in c.records then c.records[key] else Rec(created, 0, [], [], []);
    var r := Extended(earlier, p, sampler, stamped);
    if IsFin(p) then Cache(c.records - {key}, c.exported + [r])
    else c.(records := c.records[key := r])
  }

  /** Insertion as the exporter does it: find or create, update, export on FIN. */
  lemma InsertedSteps(c: Cache, p: Packet, sampler: Bytes, created: int, stamped: int)
    ensures
      var key := NewFlowKey(p);
      var found := if key in c.records then c else c.(records := c.records[key := Rec(created, 0, [], [], [])]);
      var updated := found.(records := found.records[key := Extended(found.records[key], p, sampler, stamped)]);
      Inserted(c, p, sampler, created, stamped) ==
      if IsFin(p) then Cache(updated.records - {key}, updated.exported + [updated.records[key]]) else updated
  {
  }

  /** Exporting some cached records one after the other. */
  function Swept(c: Cache, order: seq<FlowKey>): Cache
    requires forall k :: k in order ==> k in c.records
  {
    Cache(c.records - (set k | k in order), c.exported + Taken(c, order))
  }

  function Taken(c: Cache, order: seq<FlowKey>): (taken: seq<Rec>)
    requires forall k :: k in order ==> k in c.records
    ensures |taken| == |order| && forall i :: 0 <= i < |order| ==> taken[i] == c.records[order[i]]
  {
    if order == [] then [] else Taken(c, Init(order)) + [c.records[Last(order)]]
  }

  lemma SweptStep(c: Cache, order: seq<FlowKey>, key: FlowKey)
    requires key in c.records && key !in order && forall k :: k in order ==> k in c.records
    ensures var s := Swept(c, order);
      Swept(c, order + [key]) == Cache(s.records - {key}, s.exported + [c.records[key]])
  {
    assert Init(order + [key]) == order;
    assert (set k | k in order + [key]) == (set k | k in order) + {key};
  }

  predicate Due(cfg: Config, r: Rec, read: int, active: bool) {
    if active then PastActive(cfg, r, read) else PastInactive(cfg, r, read)
  }

  /** A sweep in progress: the order lists, once each, the keys of the visited records that are due, and exactly
      these records have been exported. */
  ghost predicate Sweeping(
    cfg: Config, before: Cache, now: Cache, order: seq<FlowKey>, visited: set<FlowKey>, read: int, active: bool)
  {
    && visited <= before.records.Keys
    && (forall i, j :: 0 <= i < j < |order| ==> order[i] != order[j])
    && (forall k :: k in order <==> k in visited && Due(cfg, before.records[k], read, active))
    && now == Swept(before, order)
  }

  function Exporting(c: Cache, key: FlowKey): Cache
    requires key in c.records
  {
    Cache(c.records - {key}, c.exported + [c.records[key]])
  }

  lemma NotYetSwept(c: Cache, order: seq<FlowKey>, key: FlowKey)
    requires key in c.records && key !in order && forall k :: k in order ==> k in c.records
    ensures key in Swept(c, order).records && Swept(c, order).records[key] == c.records[key]
  {
  }

  /** Visiting one more record, which is exported if it is due. */
  lemma SweepingStep(cfg: Config, before: Cache, now: Cache, order: seq<FlowKey>, visited: set<FlowKey>, read: int,
                     active: bool, key: FlowKey)
    requires Sweeping(cfg, before, now, order, visited, read, active) && key in before.records && key !in visited
    ensures key in now.records && now.records[key] == before.records[key]
    ensures if Due(cfg, before.records[key], read, active)
      then Sweeping(cfg, before, Exporting(now, key), order + [key], visited + {key}, read, active)
      else Sweeping(cfg, before, now, order, visited + {key}, read, active)
  {
    hide Swept, Due;
    NotYetSwept(before, order, key);
    SweptStep(before, order, key);
    if Due(cfg, before.records[key], read, active) {
      forall k
        ensures k in order + [key] <==> k in visited + {key} && Due(cfg, before.records[k], read, active)
      {
        assert k in order + [key] <==> k in order || k == key;
      }
    }
  }

  /** A finished pass over all records is a sweep. */
  lemma SweepingAll(cfg: Config, before: Cache, now: Cache, order: seq<FlowKey>, read: int, at: int, active: bool)
    requires Sweeping(cfg, before, now, order, before.records.Keys, read, active)
    ensures var e := if active then SweepActive(read, at, order) else SweepInactive(read, at, order);
      Enabled(cfg, before, e) && now == Apply(cfg, before, e)
  {
  }

  function Apply(cfg: Config, c: Cache, e: Event): Cache
    requires Enabled(cfg, c, e)
  {
    match e
    case Arrive(p, sampler, created, stamped) => Inserted(c, p, sampler, created, stamped)
    case SweepInactive(_, _, order) => Swept(c, order)
    case SweepActive(_, _, order) => Swept(c, order)
  }

  /** The runs of the cache, from empty. */
  ghost predicate Feasible(cfg: Config, run: seq<Event>)
    decreases run, 0
  {
    run == [] || (Feasible(cfg, Init(run)) && Enabled(cfg, After(cfg, Init(run)), Last(run)))
  }

  function After(cfg: Config, run: seq<Event>): Cache
    requires Feasible(cfg, run)
    decreases run, 1
  {
    if run == [] then Cache(map[], []) else Apply(cfg, After(cfg, Init(run)), Last(run))
  }

  function Init<T>(s: seq<T>): (r: seq<T>)
    requires s != []
    ensures |r| == |s| - 1
  {
    s[..|s| - 1]
  }

  function Last<T>(s: seq<T>): T
    requires s != []
  {
    s[|s| - 1]
  }

  // ---------------------------------------------------------------------------------------------
  // Keys and FIN packets

  predicate AllOfKey(packets: seq<Packet>, key: FlowKey) {
    packets != [] && forall i :: 0 <= i < |packets| ==> NewFlowKey(packets[i]) == key
  }

  predicate NoFin(packets: seq<Packet>) {
    forall i :: 0 <= i < |packets| ==> !IsFin(packets[i])
  }

  /** Cached records hold only packets of their key and no FIN; an exported record has one key,
      and a FIN packet can only be its last packet. */
  predicate KeysKept(c: Cache) {
    && (forall k :: k in c.records ==>
          && AllOfKey(c.records[k].packets, k) && NoFin(c.records[k].packets)
          && |c.records[k].arrivals| == |c.records[k].packets|)
    && (forall i :: 0 <= i < |c.exported| ==> ExportKept(c.exported[i]))
  }

  predicate ExportKept(r: Rec) {
    && r.packets != [] && AllOfKey(r.packets, NewFlowKey(r.packets[0])) && NoFin(Init(r.packets))
    && |r.arrivals| == |r.packets|
  }

  lemma StepKeepsKeys(cfg: Config, c: Cache, e: Event)
    requires KeysKept(c) && Enabled(cfg, c, e)
    ensures KeysKept(Apply(cfg, c, e))
  {
    if e.Arrive? {
      var key := NewFlowKey(e.packet);
      var earlier := if key in c.records then c.records[key].packets else [];
      assert Init(earlier + [e.packet]) == earlier;
      assert AllOfKey(earlier + [e.packet], key);
    } else {
      forall k | k in e.order
        ensures ExportKept(c.records[k])
      {
      }
    }
  }

  lemma {:induction false} RunKeepsKeys(cfg: Config, run: seq<Event>)
    requires Feasible(cfg, run)
    ensures KeysKept(After(cfg, run))
  {
    if run != [] {
      RunKeepsKeys(cfg, Init(run));
      StepKeepsKeys(cfg, After(cfg, Init(run)), Last(run));
    }
  }

  // ---------------------------------------------------------------------------------------------
  // Conservation

  /** A packet and when it was stamped. */
  datatype Sighting = Sighting(packet: Packet, stamped: int)

  function Sightings(r: Rec): seq<Sighting> {
    if |r.arrivals| != |r.packets| then []
    else seq(|r.packets|, i requires 0 <= i < |r.packets| => Sighting(r.packets[i], r.arrivals[i]))
  }

  lemma SightingsStep(r: Rec, p: Packet, sampler: Bytes, stamped: int)
    requires |r.arrivals| == |r.packets|
    ensures Sightings(Extended(r, p, sampler, stamped)) == Sightings(r) + [Sighting(p, stamped)]
  {
  }

  /** The packets of one key that arrived, in order, with their stamps. */
  function Arrived(run: seq<Event>, key: FlowKey): seq<Sighting> {
    if run == [] then []
    else
      var e := Last(run);
      var latest := if e.Arrive? && NewFlowKey(e.packet) == key then [Sighting(e.packet, e.stamped)] else [];
      Arrived(Init(run), key) + latest
  }

  predicate HasKey(r: Rec, key: FlowKey) {
    r.packets != [] && NewFlowKey(r.packets[0]) == key
  }

  /** The packets of one key in exported records, in export order. */
  function Out(exported: seq<Rec>, key: FlowKey): seq<Sighting> {
    if exported == [] then []
    else Out(Init(exported), key) + if HasKey(Last(exported), key) then Sightings(Last(exported)) else []
  }

  function Held(c: Cache, key: FlowKey): seq<Sighting> {
    if key in c.records then Sightings(c.records[key]) else []
  }

  lemma OutSnoc(a: seq<Rec>, r: Rec, key: FlowKey)
    ensures Out(a + [r], key) == Out(a, key) + if HasKey(r, key) then Sightings(r) else []
  {
    assert Init(a + [r]) == a;
  }

  lemma EndOfJoin<T>(a: seq<T>, b: seq<T>)
    requires b != []
    ensures b == Init(b) + [Last(b)] && a + b == (a + Init(b)) + [Last(b)]
  {
  }

  lemma Associative<T>(a: seq<T>, b: seq<T>, c: seq<T>)
    ensures (a + b) + c == a + (b + c)
  {
  }

  lemma {:induction false} OutAppend(a: seq<Rec>, b: seq<Rec>, key: FlowKey)
    ensures Out(a + b, key) == Out(a, key) + Out(b, key)
  {
    if b == [] {
      assert a + b == a;
    } else {
      hide Out, HasKey, Init, Last;
      OutAppend(a, Init(b), key);
      EndOfJoin(a, b);
      OutSnoc(a + Init(b), Last(b), key);
      OutSnoc(Init(b), Last(b), key);
      Associative(Out(a, key), Out(Init(b), key), if HasKey(Last(b), key) then Sightings(Last(b)) else []);
    }
  }

  /** What a sweep adds to the exports of one key is that key's record, if the sweep takes it. */
  lemma {:induction false} OutOfOrder(c: Cache, order: seq<FlowKey>, key: FlowKey)
    requires forall k :: k in order ==> k in c.records && HasKey(c.records[k], k)
    requires forall i, j :: 0 <= i < j < |order| ==> order[i] != order[j]
    ensures Out(Taken(c, order), key) == if key in order then Sightings(c.records[key]) else []
  {
    if order != [] {
      var earlier, last := Init(order), Last(order);
      OutOfOrder(c, earlier, key);
      assert key in order <==> key in earlier || key == last;
      assert Init(Taken(c, order)) == Taken(c, earlier);
      assert HasKey(c.records[last], key) <==> key == last;
    }
  }

  lemma SweepConserves(c: Cache, order: seq<FlowKey>, key: FlowKey)
    requires KeysKept(c) && forall k :: k in order ==> k in c.records
    requires forall i, j :: 0 <= i < j < |order| ==> order[i] != order[j]
    ensures Out(Swept(c, order).exported, key) + Held(Swept(c, order), key) == Out(c.exported, key) + Held(c, key)
  {
    OwnKeys(c);
    hide KeysKept, Out, HasKey, Sightings;
    OutAppend(c.exported, Taken(c, order), key);
    OutOfOrder(c, order, key);
  }

  lemma OwnKeys(c: Cache)
    requires KeysKept(c)
    ensures forall k :: k in c.records ==> HasKey(c.records[k], k)
  {
    hide NewFlowKey, NoFin;
  }

  lemma NoSightings(created: int)
    ensures Sightings(Rec(created, 0, [], [], [])) == []
  {
  }

  lemma InsertConserves(c: Cache, p: Packet, sampler: Bytes, created: int, stamped: int, key: FlowKey)
    requires KeysKept(c)
    ensures var d := Inserted(c, p, sampler, created, stamped);
      Out(d.exported, key) + Held(d, key) ==
      Out(c.exported, key) + Held(c, key) + if NewFlowKey(p) == key then [Sighting(p, stamped)] else []
  {
    hide NewFlowKey, Sightings;
    var d, own := Inserted(c, p, sampler, created, stamped), NewFlowKey(p);
    SightingsStep(
      if own in c.records then c.records[own] else Rec(created, 0, [], [], []), p, sampler, stamped);
    assert Sightings(Rec(created, 0, [], [], [])) == [] by { NoSightings(created); }
    if IsFin(p) {
      assert Init(d.exported) == c.exported;
    }
  }

  /** Every run loses, invents and reorders no packet: for each key, the packets in exported records
      followed by those in the cached record are exactly the packets that arrived, in order and with the stamps
      of their arrival. */
  lemma {:induction false} RunConservesPackets(cfg: Config, run: seq<Event>, key: FlowKey)
    requires Feasible(cfg, run)
    ensures Arrived(run, key) == Out(After(cfg, run).exported, key) + Held(After(cfg, run), key)
  {
    if run != [] {
      var c, e := After(cfg, Init(run)), Last(run);
      RunConservesPackets(cfg, Init(run), key);
      RunKeepsKeys(cfg, Init(run));
      if e.Arrive? {
        InsertConserves(c, e.packet, e.sampler, e.created, e.stamped, key);
      } else {
        SweepConserves(c, e.order, key);
      }
    }
  }

  // ---------------------------------------------------------------------------------------------
  // What an exported flow says about its packets

  predicate Meets(flags: bv8, mask: bv8) {
    flags & mask != 0
  }

  /** A flag is set in the exported flow exactly when some packet of the record has it. */
  lemma {:induction false} FlagsAreUnion(packets: seq<Packet>, mask: bv8)
    ensures Meets(OrFlags(packets), mask) <==> exists i :: 0 <= i < |packets| && Meets(packets[i].tcpFlags, mask)
  {
    if packets != [] {
      var earlier, last := packets[..|packets| - 1], packets[|packets| - 1];
      FlagsAreUnion(earlier, mask);
      OrMeets(OrFlags(earlier), last.tcpFlags, mask);
      assert packets == earlier + [last];
    }
  }

  lemma OrMeets(x: bv8, y: bv8, mask: bv8)
    ensures Meets(x | y, mask) <==> Meets(x, mask) || Meets(y, mask)
  {
  }

  lemma KeyOfSummary(r: Rec)
    requires ExportKept(r)
    ensures AllOfKey(r.packets, KeyOfFlow(Summary(r)))
  {
    hide SumBytes, OrFlags, Low64;
  }

  /** The 7-tuple of every exported flow maps back to the key of all its packets. */
  lemma ExportedKey(cfg: Config, run: seq<Event>, i: nat)
    requires Feasible(cfg, run) && i < |After(cfg, run).exported|
    ensures AllOfKey(After(cfg, run).exported[i].packets, KeyOfFlow(Summary(After(cfg, run).exported[i])))
  {
    hide Feasible, After, Summary, AllOfKey, KeyOfFlow, ExportKept;
    RunKeepsKeys(cfg, run);
    KeyOfSummary(After(cfg, run).exported[i]);
  }

  // ---------------------------------------------------------------------------------------------
  // Time

  /** The time of the last event, and what the last sweep of each kind read from the clock. */
  datatype Clock = Clock(now: int, inactiveSwept: int, activeSwept: int)

  function Tick(k: Clock, e: Event): Clock {
    match e
    case Arrive(_, _, _, stamped) => k.(now := stamped)
    case SweepInactive(read, now, _) => k.(now := now, inactiveSwept := read)
    case SweepActive(read, now, _) => k.(now := now, activeSwept := read)
  }

  /** Time does not run backwards. A sweep's reading can be older than the latest packets. */
  predicate Forwards(k: Clock, e: Event) {
    match e
    case Arrive(_, _, created, stamped) => k.now <= created <= stamped
    case SweepInactive(read, now, _) => k.inactiveSwept <= read <= now && k.now <= now
    case SweepActive(read, now, _) => k.activeSwept <= read <= now && k.now <= now
  }

  /** How much later an event is than one timeout after the reading of the last sweep of either kind. */
  function Late(cfg: Config, k: Clock, e: Event): nat {
    var now := Tick(k, e).now;
    Max(0, Max(now - k.inactiveSwept - cfg.inactiveTimeout, now - k.activeSwept - cfg.activeTimeout))
  }

  function Max(x: int, y: int): int {
    if x < y then y else x
  }

  function ClockAfter(run: seq<Event>, start: int): Clock {
    if run == [] then Clock(start, start, start) else Tick(ClockAfter(Init(run), start), Last(run))
  }

  predicate Orderly(run: seq<Event>, start: int) {
    run == [] || (Orderly(Init(run), start) && Forwards(ClockAfter(Init(run), start), Last(run)))
  }

  /** The lateness of a run: zero if no sweep was ever overdue. */
  function Lateness(cfg: Config, run: seq<Event>, start: int): nat {
    if run == [] then 0
    else Max(Lateness(cfg, Init(run), start), Late(cfg, ClockAfter(Init(run), start), Last(run)))
  }

  /** Stamps are ordered and lie between creation and last update; neighbours are close; the flow is short. */
  predicate Timely(cfg: Config, late: nat, r: Rec) {
    && r.arrivals != [] && |r.arrivals| == |r.packets|
    && r.received <= r.arrivals[0] && Last(r.arrivals) == r.updated
    && (forall i :: 0 < i < |r.arrivals| ==>
          r.arrivals[i - 1] <= r.arrivals[i] <= r.arrivals[i - 1] + 2 * cfg.inactiveTimeout + late)
    && r.received <= r.updated <= r.received + 2 * cfg.activeTimeout + late
  }

  /** The time bounds that every step keeps. */
  predicate TimesKept(cfg: Config, late: nat, c: Cache, k: Clock) {
    && k.inactiveSwept <= k.now && k.activeSwept <= k.now
    && (forall key :: key in c.records ==>
          && Timely(cfg, late, c.records[key]) && c.records[key].updated <= k.now
          && k.inactiveSwept <= c.records[key].updated + cfg.inactiveTimeout
          && k.activeSwept <= c.records[key].received + cfg.activeTimeout)
    && (forall i :: 0 <= i < |c.exported| ==> Timely(cfg, late, c.exported[i]) && c.exported[i].updated <= k.now)
  }

  lemma LaterKept(cfg: Config, late: nat, later: nat, c: Cache, k: Clock)
    requires late <= later && TimesKept(cfg, late, c, k)
    ensures TimesKept(cfg, later, c, k)
  {
    forall r | Timely(cfg, late, r)
      ensures Timely(cfg, later, r)
    {
    }
    hide Timely;
  }

  predicate SameKey(r: Rec, q: Rec) {
    r.packets != [] && q.packets != [] && NewFlowKey(r.packets[0]) == NewFlowKey(q.packets[0])
  }

  /** Flows of one key cover successive intervals, and the cached record comes after all of them. */
  predicate InOrder(c: Cache) {
    && (forall i, j :: 0 <= i < j < |c.exported| && SameKey(c.exported[i], c.exported[j]) ==>
          c.exported[i].updated <= c.exported[j].received)
    && (forall i, key :: 0 <= i < |c.exported| && key in c.records && HasKey(c.exported[i], key) ==>
          c.exported[i].updated <= c.records[key].received)
  }

  lemma ArrivalKeepsTimes(cfg: Config, late: nat, c: Cache, k: Clock, e: Event)
    requires e.Arrive? && TimesKept(cfg, late, c, k) && Forwards(k, e) && Late(cfg, k, e) <= late
    ensures TimesKept(cfg, late, Apply(cfg, c, e), Tick(k, e))
  {
    var key := NewFlowKey(e.packet);
    var earlier := if key in c.records then c.records[key] else Rec(e.created, 0, [], [], []);
    var r := Extended(earlier, e.packet, e.sampler, e.stamped);
    assert Timely(cfg, late, r) by {
      forall i | 0 < i < |r.arrivals|
        ensures r.arrivals[i - 1] <= r.arrivals[i] <= r.arrivals[i - 1] + 2 * cfg.inactiveTimeout + late
      {
        if i == |r.arrivals| - 1 { assert r.arrivals[i - 1] == Last(earlier.arrivals); }
      }
    }
    assert IsFin(e.packet) ==> Apply(cfg, c, e).exported == c.exported + [r];
  }

  lemma SweepKeepsTimes(cfg: Config, late: nat, c: Cache, k: Clock, e: Event)
    requires !e.Arrive? && Enabled(cfg, c, e) && TimesKept(cfg, late, c, k) && Forwards(k, e)
    ensures TimesKept(cfg, late, Apply(cfg, c, e), Tick(k, e))
  {
    hide Timely;
    var d := Apply(cfg, c, e);
    forall key | key in d.records
      ensures key in c.records && d.records[key] == c.records[key]
      ensures e.SweepInactive? ==> !PastInactive(cfg, c.records[key], e.read)
      ensures e.SweepActive? ==> !PastActive(cfg, c.records[key], e.read)
    {
      assert key !in e.order;
    }
    forall i | 0 <= i < |d.exported|
      ensures Timely(cfg, late, d.exported[i]) && d.exported[i].updated <= k.now
    {
      if i >= |c.exported| { assert e.order[i - |c.exported|] in e.order; }
    }
  }

  /** The record that an arrival extends starts after every exported flow of its key. */
  lemma ArrivalComesAfter(cfg: Config, late: nat, c: Cache, k: Clock, e: Event)
    requires e.Arrive? && KeysKept(c) && TimesKept(cfg, late, c, k) && Forwards(k, e) && InOrder(c)
    ensures var key := NewFlowKey(e.packet);
      var earlier := if key in c.records then c.records[key] else Rec(e.created, 0, [], [], []);
      var r := Extended(earlier, e.packet, e.sampler, e.stamped);
      && HasKey(r, key)
      && forall i :: 0 <= i < |c.exported| && HasKey(c.exported[i], key) ==> c.exported[i].updated <= r.received
  {
    hide Timely, NewFlowKey;
  }

  lemma ArrivalKeepsOrder(cfg: Config, late: nat, c: Cache, k: Clock, e: Event)
    requires e.Arrive? && KeysKept(c) && TimesKept(cfg, late, c, k) && Forwards(k, e) && InOrder(c)
    ensures InOrder(Apply(cfg, c, e))
  {
    hide KeysKept, TimesKept, Forwards, NewFlowKey, IsFin;
    ArrivalComesAfter(cfg, late, c, k, e);
    var key, d := NewFlowKey(e.packet), Apply(cfg, c, e);
    forall i, j | 0 <= i < j < |d.exported| && SameKey(d.exported[i], d.exported[j])
      ensures d.exported[i].updated <= d.exported[j].received
    {
      if j == |c.exported| { assert HasKey(c.exported[i], key); }
    }
  }

  lemma StepKeepsOrder(cfg: Config, late: nat, c: Cache, k: Clock, e: Event)
    requires KeysKept(c) && Enabled(cfg, c, e) && TimesKept(cfg, late, c, k) && Forwards(k, e) && InOrder(c)
    ensures InOrder(Apply(cfg, c, e))
  {
    if e.Arrive? {
      ArrivalKeepsOrder(cfg, late, c, k, e);
    } else {
      hide InOrder, KeysKept, TimesKept;
      SweepKeepsOrder(c, e.order);
    }
  }

  /** The records that a sweep takes have different keys. */
  lemma TakenKeys(c: Cache, order: seq<FlowKey>)
    requires KeysKept(c) && forall k :: k in order ==> k in c.records
    requires forall i, j :: 0 <= i < j < |order| ==> order[i] != order[j]
    ensures forall i :: 0 <= i < |order| ==> HasKey(Taken(c, order)[i], order[i]) && order[i] in order
    ensures forall i, j :: 0 <= i < j < |order| ==> !SameKey(Taken(c, order)[i], Taken(c, order)[j])
  {
    forall i | 0 <= i < |order|
      ensures HasKey(Taken(c, order)[i], order[i])
    {
      assert order[i] in order;
    }
  }

  lemma SweepKeepsOrder(c: Cache, order: seq<FlowKey>)
    requires KeysKept(c) && InOrder(c) && forall k :: k in order ==> k in c.records
    requires forall i, j :: 0 <= i < j < |order| ==> order[i] != order[j]
    ensures InOrder(Swept(c, order))
  {
    var d, n := Swept(c, order), |c.exported|;
    TakenKeys(c, order);
    forall i, j | 0 <= i < j < |d.exported| && SameKey(d.exported[i], d.exported[j])
      ensures d.exported[i].updated <= d.exported[j].received
    {
      if i < n <= j { assert HasKey(c.exported[i], order[j - n]) && order[j - n] in order; }
    }
    forall i, key | 0 <= i < |d.exported| && key in d.records && HasKey(d.exported[i], key)
      ensures d.exported[i].updated <= d.records[key].received
    {
    }
  }

  /** Over any run whose clock does not run backwards, with late as the run's lateness: every exported flow lasts
      at most twice the active timeout and late, consecutive packets in a flow are at most twice the inactive
      timeout and late apart, and the flows of one key cover ordered intervals that do not overlap. */
  lemma {:induction false} RunKeepsTimes(cfg: Config, run: seq<Event>, start: int)
    requires Feasible(cfg, run) && Orderly(run, start)
    ensures TimesKept(cfg, Lateness(cfg, run, start), After(cfg, run), ClockAfter(run, start))
    ensures InOrder(After(cfg, run))
  {
    if run != [] {
      var c, k, e := After(cfg, Init(run)), ClockAfter(Init(run), start), Last(run);
      var late := Lateness(cfg, run, start);
      RunKeepsTimes(cfg, Init(run), start);
      RunKeepsKeys(cfg, Init(run));
      hide TimesKept, InOrder, KeysKept, Apply, Enabled;
      LaterKept(cfg, Lateness(cfg, Init(run), start), late, c, k);
      if e.Arrive? { ArrivalKeepsTimes(cfg, late, c, k, e); } else { SweepKeepsTimes(cfg, late, c, k, e); }
      StepKeepsOrder(cfg, late, c, k, e);
    }
  }

  /** On schedule: no event is later than one timeout after the reading of the last sweep of either kind. */
  predicate OnSchedule(cfg: Config, run: seq<Event>, start: int) {
    Orderly(run, start) && Lateness(cfg, run, start) == 0
  }

  /** Over a run on schedule the bounds are twice the timeouts. */
  lemma OnScheduleTimes(cfg: Config, run: seq<Event>, start: int, i: nat)
    requires Feasible(cfg, run) && OnSchedule(cfg, run, start) && i < |After(cfg, run).exported|
    ensures var r := After(cfg, run).exported[i];
      && r.updated - r.received <= 2 * cfg.activeTimeout
      && forall j :: 0 < j < |r.arrivals| ==> r.arrivals[j] - r.arrivals[j - 1] <= 2 * cfg.inactiveTimeout
  {
    hide Feasible, After, Orderly, Lateness;
    RunKeepsTimes(cfg, run, start);
  }
}
