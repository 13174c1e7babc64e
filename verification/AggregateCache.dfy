/** The packet path of segments/filter/aggregate/flowcache.go: the same cache as in FlowCacheSpec, for captured
    packets whose fields are found by walking over their layers. */
module AggregateCache {
  import opened Words
  import opened FlowCacheSpec

  datatype Layer =
    | Ethernet(etype: U32)
    | IPv4(src: Bytes, dst: Bytes, protocol: U8, tos: U8, ttl: U8)
    | IPv6(src: Bytes, dst: Bytes, nextHeader: U8, trafficClass: U8, hopLimit: U8, flowLabel: U32)
    | TCP(srcPort: U16, dstPort: U16, flags: bv8)
    | UDP(srcPort: U16, dstPort: U16)
    | ICMP(icmpType: U8, icmpCode: U8)
    | Other
  {
    /** Decoded addresses have the length of their protocol. */
    predicate Valid() {
      (IPv4? ==> |src| == 4 && |dst| == 4) && (IPv6? ==> |src| == 16 && |dst| == 16)
    }
  }

  datatype Captured = Captured(interface: U32, length: U32, timestamp: int, layers: seq<Layer>)
  {
    predicate Valid() { forall i :: 0 <= i < |layers| ==> layers[i].Valid() }
  }

  const BARE: Packet := Packet([], [], 0, 0, 0, 0, 0, 0, 0, 0, 0, 0, 0, 0, 0, 0, 0)

  /** What a layer contributes; later layers override earlier ones, TCP flags accumulate. */
  function Layered(p: Packet, layer: Layer): Packet {
    match layer
    case Ethernet(etype) => p.(etype := etype)
    case IPv4(src, dst, protocol, tos, ttl) =>
      p.(srcAddr := src, dstAddr := dst, proto := protocol, ipTos := tos, ipTtl := ttl)
    case IPv6(src, dst, next, class_, hops, label_) =>
      p.(srcAddr := src, dstAddr := dst, proto := next, ipTos := class_, ipTtl := hops, ipv6FlowLabel := label_)
    case TCP(src, dst, flags) => p.(srcPort := src, dstPort := dst, tcpFlags := p.tcpFlags | flags)
    case UDP(src, dst) => p.(srcPort := src, dstPort := dst)
    case ICMP(t, c) => p.(icmpType := t, icmpCode := c)
    case Other => p
  }

  function Walked(layers: seq<Layer>): Packet {
    if layers == [] then BARE else Layered(Walked(Init(layers)), Last(layers))
  }

  /** The flags of the first TCP layer, by which a packet ends its flow. */
  function FirstFlags(layers: seq<Layer>): bv8 {
    if layers == [] then 0 else if layers[0].TCP? then layers[0].flags else FirstFlags(layers[1..])
  }

  predicate IsIp(layer: Layer) {
    layer.IPv4? || layer.IPv6?
  }

  predicate HasPorts(layer: Layer) {
    layer.TCP? || layer.UDP?
  }

  lemma WalkedStep(layers: seq<Layer>, layer: Layer)
    ensures Walked(layers + [layer]) == Layered(Walked(layers), layer)
  {
    assert Init(layers + [layer]) == layers;
  }

  /** The last IP layer gives addresses, protocol, type of service and time to live. */
  lemma {:induction false} LastIpDecides(a: seq<Layer>, ip: Layer, b: seq<Layer>)
    requires IsIp(ip) && forall i :: 0 <= i < |b| ==> !IsIp(b[i])
    ensures var p := Walked(a + [ip] + b);
      && p.srcAddr == ip.src && p.dstAddr == ip.dst
      && p.proto == (if ip.IPv4? then ip.protocol else ip.nextHeader)
      && p.ipTos == (if ip.IPv4? then ip.tos else ip.trafficClass)
      && p.ipTtl == (if ip.IPv4? then ip.ttl else ip.hopLimit)
      && (ip.IPv6? ==> p.ipv6FlowLabel == ip.flowLabel)
  {
    if b == [] {
      WalkedStep(a, ip);
      assert a + [ip] + b == a + [ip];
    } else {
      LastIpDecides(a, ip, Init(b));
      assert a + [ip] + b == (a + [ip] + Init(b)) + [Last(b)];
      WalkedStep(a + [ip] + Init(b), Last(b));
    }
  }

  /** The last TCP or UDP layer gives the ports. */
  lemma {:induction false} LastPortsDecide(a: seq<Layer>, ports: Layer, b: seq<Layer>)
    requires HasPorts(ports) && forall i :: 0 <= i < |b| ==> !HasPorts(b[i])
    ensures var p := Walked(a + [ports] + b); p.srcPort == ports.srcPort && p.dstPort == ports.dstPort
  {
    if b == [] {
      WalkedStep(a, ports);
      assert a + [ports] + b == a + [ports];
    } else {
      LastPortsDecide(a, ports, Init(b));
      assert a + [ports] + b == (a + [ports] + Init(b)) + [Last(b)];
      WalkedStep(a + [ports] + Init(b), Last(b));
    }
  }

  /** The last Ethernet layer gives the type of the frame, and the last ICMP layer the type and code. */
  lemma {:induction false} LastOthersDecide(a: seq<Layer>, layer: Layer, b: seq<Layer>)
    requires forall i :: 0 <= i < |b| ==> (layer.Ethernet? ==> !b[i].Ethernet?) && (layer.ICMP? ==> !b[i].ICMP?)
    ensures var p := Walked(a + [layer] + b);
      && (layer.Ethernet? ==> p.etype == layer.etype)
      && (layer.ICMP? ==> p.icmpType == layer.icmpType && p.icmpCode == layer.icmpCode)
  {
    if b == [] {
      WalkedStep(a, layer);
      assert a + [layer] + b == a + [layer];
    } else {
      LastOthersDecide(a, layer, Init(b));
      assert a + [layer] + b == (a + [layer] + Init(b)) + [Last(b)];
      WalkedStep(a + [layer] + Init(b), Last(b));
    }
  }

  lemma FlagsStep(layers: seq<Layer>, layer: Layer, mask: bv8)
    ensures Meets(Walked(layers + [layer]).tcpFlags, mask)
      <==> Meets(Walked(layers).tcpFlags, mask) || (layer.TCP? && Meets(layer.flags, mask))
  {
    WalkedStep(layers, layer);
    if layer.TCP? {
      OrMeets(Walked(layers).tcpFlags, layer.flags, mask);
    }
    hide Meets, Walked;
  }

  /** A flag is set if and only if some TCP layer has it. */
  lemma {:induction false} WalkedFlags(layers: seq<Layer>, mask: bv8)
    ensures Meets(Walked(layers).tcpFlags, mask)
      <==> exists i :: 0 <= i < |layers| && layers[i].TCP? && Meets(layers[i].flags, mask)
  {
    if layers == [] {
      assert Walked(layers).tcpFlags == 0;
    } else {
      var front, last := Init(layers), Last(layers);
      hide Meets, Walked;
      WalkedFlags(front, mask);
      assert layers == front + [last];
      FlagsStep(front, last, mask);
    }
  }

  /** A captured packet as a packet of the cache. */
  function Decoded(c: Captured): Packet {
    Walked(c.layers).(inIf := c.interface, bytes := c.length, tcpFlags := FirstFlags(c.layers))
  }

  function AllDecoded(cs: seq<Captured>): (ps: seq<Packet>)
    ensures |ps| == |cs| && forall i :: 0 <= i < |cs| ==> ps[i] == Decoded(cs[i])
  {
    seq(|cs|, i requires 0 <= i < |cs| => Decoded(cs[i]))
  }

  /** The key loop converts IPv4 addresses as it meets them and takes IPv6 addresses as they are; it
      arrives at the key of the decoded packet. */
  method NewKey(c: Captured) returns (fkey: FlowKey)
    requires c.Valid()
    ensures fkey == NewFlowKey(Decoded(c))
  {
    fkey := FlowKey([], [], 0, 0, 0, 0, c.interface);
    for i := 0 to |c.layers|
      invariant fkey == NewFlowKey(Walked(c.layers[..i])).(inIface := c.interface)
    {
      assert Init(c.layers[..i + 1]) == c.layers[..i];
      assert c.layers[i].Valid();
      match c.layers[i] {
        case IPv4(src, dst, protocol, tos, _) =>
          fkey := fkey.(srcAddr := To16(src), dstAddr := To16(dst), proto := protocol, ipTos := tos);
        case IPv6(src, dst, next, class_, _, _) =>
          fkey := fkey.(srcAddr := src, dstAddr := dst, proto := next, ipTos := class_);
        case TCP(src, dst, _) => fkey := fkey.(srcPort := src, dstPort := dst);
        case UDP(src, dst) => fkey := fkey.(srcPort := src, dstPort := dst);
        case _ =>
      }
    }
    assert c.layers[..|c.layers|] == c.layers;
  }

  /** Only a FIN in the first TCP layer ends the flow. */
  method EndsFlow(c: Captured) returns (fin: bool)
    ensures fin == IsFin(Decoded(c))
    ensures fin <==> exists i ::
      && 0 <= i < |c.layers| && c.layers[i].TCP? && c.layers[i].flags & 1 == 1
      && forall j :: 0 <= j < i ==> !c.layers[j].TCP?
  {
    for i := 0 to |c.layers|
      invariant FirstFlags(c.layers) == FirstFlags(c.layers[i..])
      invariant forall j :: 0 <= j < i ==> !c.layers[j].TCP?
    {
      if c.layers[i].TCP? {
        return c.layers[i].flags & 1 == 1;
      }
    }
    return false;
  }

  class FlowRecord {
    var timeReceived: int
    var lastUpdated: int
    var samplerAddress: Bytes
    var packets: seq<Captured>
    ghost var arrivals: seq<int>

    constructor ()
      ensures View() == Rec(0, 0, [], [], [])
    {
      timeReceived, lastUpdated, samplerAddress, packets, arrivals := 0, 0, [], [], [];
    }

    ghost function View(): Rec
      reads this
    {
      Rec(timeReceived, lastUpdated, samplerAddress, AllDecoded(packets), arrivals)
    }

    method Extend(pkt: Captured, sampler: Bytes)
      modifies this
      ensures View() == Extended(old(View()), Decoded(pkt), sampler, pkt.timestamp)
    {
      lastUpdated := pkt.timestamp;
      samplerAddress := sampler;
      packets := packets + [pkt];
      arrivals := arrivals + [pkt.timestamp];
    }
  }

  /** The message of the packet exporter, but with the flags of the first packet only. */
  function Message(r: Rec, packets: seq<Captured>): Exported {
    Summary(r).(tcpFlags := if packets == [] then 0 else Walked(packets[0].layers).tcpFlags)
  }

  predicate SameButFlags(a: Exported, b: Exported) {
    a == b.(tcpFlags := a.tcpFlags)
  }

  lemma MessageIsSummary(r: Rec, packets: seq<Captured>)
    ensures SameButFlags(Message(r, packets), Summary(r))
  {
    hide Summary, Walked;
  }

  /** The union of the flags of all packets, as the packet exporter sends it. */
  function UnionOfFlags(packets: seq<Captured>): bv8 {
    if packets == [] then 0 else UnionOfFlags(Init(packets)) | Walked(Last(packets).layers).tcpFlags
  }

  predicate Contained(x: bv8, y: bv8) {
    x | y == y
  }

  lemma ContainedOr(x: bv8, y: bv8, z: bv8)
    ensures Contained(x | y, z) <==> Contained(x, z) && Contained(y, z)
    ensures Contained(x, x | y) && Contained(y, x | y) && Contained(0, z) && Contained(z, z)
    ensures Contained(x, y) && Contained(y, x) ==> x == y
  {
  }

  /** The union is contained in some flags exactly if those of every packet are. */
  lemma {:induction false} UnionContained(packets: seq<Captured>, flags: bv8)
    ensures Contained(UnionOfFlags(packets), flags)
      <==> forall i :: 0 <= i < |packets| ==> Contained(Walked(packets[i].layers).tcpFlags, flags)
  {
    hide Contained, Walked;
    if packets != [] {
      var front, last := Init(packets), Last(packets);
      UnionContained(front, flags);
      assert forall i :: 0 <= i < |front| ==> front[i] == packets[i];
      ContainedOr(UnionOfFlags(front), Walked(last.layers).tcpFlags, flags);
    } else {
      ContainedOr(0, 0, flags);
    }
  }

  /** The exported flags are the union over the record's packets exactly if no later packet has a flag that
      the first one lacks. */
  lemma {:induction false} FlagsAreUnionIff(r: Rec, packets: seq<Captured>)
    ensures Message(r, packets).tcpFlags == UnionOfFlags(packets)
      <==> forall i :: 0 < i < |packets| ==>
        Contained(Walked(packets[i].layers).tcpFlags, Walked(packets[0].layers).tcpFlags)
  {
    hide Summary, Walked, Contained;
    if packets != [] {
      hide UnionOfFlags;
      var first, union := Walked(packets[0].layers).tcpFlags, UnionOfFlags(packets);
      UnionContained(packets, first);
      UnionContained(packets, union);
      ContainedOr(union, first, union);
      ContainedOr(first, first, first);
    }
  }

  /** A record of a SYN packet and a FIN packet is exported with SYN only. */
  lemma SynThenFin(r: Rec, syn: Captured, fin: Captured)
    requires syn.layers == [TCP(1, 2, 2)] && fin.layers == [TCP(1, 2, 1)]
    ensures Message(r, [syn, fin]).tcpFlags == 2 && UnionOfFlags([syn, fin]) == 3
  {
    OneTcpLayer(syn.layers);
    OneTcpLayer(fin.layers);
    hide Walked, Summary;
    assert Init([syn, fin]) == [syn] && Init([syn]) == [];
    assert UnionOfFlags([]) == 0;
    assert UnionOfFlags([syn]) == 0 | 2 == 2;
    assert UnionOfFlags([syn, fin]) == 2 | 1 == 3;
  }

  lemma OneTcpLayer(layers: seq<Layer>)
    requires |layers| == 1 && layers[0].TCP?
    ensures Walked(layers).tcpFlags == layers[0].flags
  {
    assert Init(layers) == [];
  }

  method BuildFlow(f: FlowRecord) returns (msg: Exported)
    ensures msg == Message(f.View(), f.packets)
  {
    msg := Exported(f.samplerAddress, f.timeReceived, f.timeReceived, f.lastUpdated, UNSET, 0, 0, 0);
    ghost var rec := f.View();
    for i := 0 to |f.packets|
      invariant msg == Message(rec.(packets := AllDecoded(f.packets[..i])), f.packets[..i])
    {
      var pkt := f.packets[i];
      assert f.packets[..i + 1] == f.packets[..i] + [pkt];
      assert AllDecoded(f.packets[..i + 1]) == AllDecoded(f.packets[..i]) + [Decoded(pkt)];
      SummaryStep(rec.(packets := AllDecoded(f.packets[..i])), Decoded(pkt));
      if i == 0 {
        var first := WalkFirst(pkt);
        msg := msg.(first := StaticOf(first), tcpFlags := first.tcpFlags);
      }
      msg := msg.(bytes := Add64(msg.bytes, pkt.length), packets := Add64(msg.packets, 1));
    }
    assert f.packets[..|f.packets|] == f.packets;
  }

  lemma LayeredKeepsInterface(p: Packet, layer: Layer, inIf: U32)
    ensures Layered(p.(inIf := inIf), layer) == Layered(p, layer).(inIf := inIf)
  {
  }

  /** The loop over the layers of the first packet. */
  method WalkFirst(c: Captured) returns (p: Packet)
    ensures p == Walked(c.layers).(inIf := c.interface)
  {
    hide Layered;
    p := BARE.(inIf := c.interface);
    for i := 0 to |c.layers|
      invariant p == Walked(c.layers[..i]).(inIf := c.interface)
    {
      assert Init(c.layers[..i + 1]) == c.layers[..i];
      LayeredKeepsInterface(Walked(c.layers[..i]), c.layers[i], c.interface);
      p := Layered(p, c.layers[i]);
    }
    assert c.layers[..|c.layers|] == c.layers;
  }

  /** The 7-tuple of a message is the key of the record's first packet, hence of all its packets. */
  lemma MessageKey(r: Rec, packets: seq<Captured>, key: FlowKey)
    requires r.packets == AllDecoded(packets) && AllOfKey(r.packets, key)
    ensures KeyOfFlow(Message(r, packets)) == key
  {
  }

  class FlowExporter {
    const cfg: Config
    const samplerAddress: Bytes
    var cache: map<FlowKey, FlowRecord>
    var flows: seq<Exported>        // messages sent on the Flows channel
    ghost var view: Cache           // the cached records and the exported ones, as values
    ghost var repr: set<FlowRecord> // all records created so far

    constructor (cfg: Config, samplerAddress: Bytes)
      ensures Valid() && fresh(repr) && view == Cache(map[], [])
      ensures this.cfg == cfg && this.samplerAddress == samplerAddress
    {
      this.cfg := cfg;
      this.samplerAddress := samplerAddress;
      cache, flows, view, repr := map[], [], Cache(map[], []), {};
    }

    /** Every message sent sums up the packets of an exported record. */
    ghost predicate Valid()
      reads this, repr
    {
      && cache.Keys == view.records.Keys
      && (forall k :: k in cache ==> cache[k] in repr && cache[k].View() == view.records[k])
      && (forall k, l :: k in cache && l in cache && k != l ==> cache[k] != cache[l])
      && |flows| == |view.exported|
      && (forall i :: 0 <= i < |flows| ==> SameButFlags(flows[i], Summary(view.exported[i])))
    }

    method Export(key: FlowKey)
      requires Valid() && key in cache
      modifies this
      ensures Valid() && repr == old(repr)
      ensures key in old(view).records && view == Exporting(old(view), key)
      ensures flows == old(flows) + [Message(old(view).records[key], old(cache)[key].packets)]
    {
      hide Summary, Message, SameButFlags;
      var flowRecord := cache[key];
      MessageIsSummary(view.records[key], flowRecord.packets);
      cache := cache - {key};
      var msg := BuildFlow(flowRecord);
      flows := flows + [msg];
      view := Cache(view.records - {key}, view.exported + [view.records[key]]);
    }

    /** The record of a key, created if there is none. */
    method Find(key: FlowKey, created: int) returns (record: FlowRecord)
      requires Valid()
      modifies this
      ensures Valid() && fresh(repr - old(repr)) && old(repr) <= repr
      ensures key in cache && cache[key] == record
      ensures view == if key in old(view).records then old(view)
                      else old(view).(records := old(view).records[key := Rec(created, 0, [], [], [])])
    {
      if key in cache { return cache[key]; }
      record := new FlowRecord();
      record.timeReceived := created;
      cache := cache[key := record];
      view := view.(records := view.records[key := record.View()]);
      repr := repr + {record};
    }

    method Update(key: FlowKey, record: FlowRecord, pkt: Captured)
      requires Valid() && key in cache && cache[key] == record
      modifies this, record
      ensures Valid() && repr == old(repr)
      ensures view == old(view).(records := old(view).records[key :=
        Extended(old(view).records[key], Decoded(pkt), samplerAddress, pkt.timestamp)])
    {
      record.Extend(pkt, samplerAddress);
      view := view.(records := view.records[key := record.View()]);
    }

    /** The insertion of the specified cache, for the decoded packet and with its own time stamp as the
        time of creation and of the update. */
    method Insert(pkt: Captured)
      requires Valid() && pkt.Valid()
      modifies this, repr
      ensures Valid() && fresh(repr - old(repr))
      ensures view == Inserted(old(view), Decoded(pkt), samplerAddress, pkt.timestamp, pkt.timestamp)
    {
      InsertedSteps(view, Decoded(pkt), samplerAddress, pkt.timestamp, pkt.timestamp);
      hide Decoded, NewFlowKey, IsFin;
      var key := NewKey(pkt);
      var record := Find(key, pkt.timestamp);
      Update(key, record, pkt);
      var fin := EndsFlow(pkt);
      if fin {
        Export(key);
      }
    }

    /** exportInactive and exportActive, as in the packet exporter. */
    method Sweep(read: int, ghost now: int, active: bool) returns (ghost order: seq<FlowKey>)
      requires Valid()
      modifies this
      ensures Valid() && repr == old(repr)
      ensures var e := if active then SweepActive(read, now, order) else SweepInactive(read, now, order);
        && Enabled(cfg, old(view), e)
        && view == Apply(cfg, old(view), e)
    {
      order := [];
      var pending := cache.Keys;
      ghost var before := view;
      while pending != {}
        invariant Valid() && repr == old(repr)
        invariant pending <= before.records.Keys
        invariant Sweeping(cfg, before, view, order, before.records.Keys - pending, read, active)
      {
        var key :| key in pending;
        order := Visit(key, read, active, before, order, before.records.Keys - pending);
        assert before.records.Keys - pending + {key} == before.records.Keys - (pending - {key});
        pending := pending - {key};
      }
      assert before.records.Keys - pending == before.records.Keys;
      SweepingAll(cfg, before, view, order, read, now, active);
    }

    method Visit(key: FlowKey, read: int, active: bool, ghost before: Cache, ghost order: seq<FlowKey>,
                 ghost visited: set<FlowKey>) returns (ghost order': seq<FlowKey>)
      requires Valid() && Sweeping(cfg, before, view, order, visited, read, active)
      requires key in before.records && key !in visited
      modifies this
      ensures Valid() && repr == old(repr) && Sweeping(cfg, before, view, order', visited + {key}, read, active)
    {
      SweepingStep(cfg, before, view, order, visited, read, active, key);
      hide Sweeping, SameButFlags, Summary;
      var record := cache[key];
      order' := order;
      if (if active then read - record.timeReceived > cfg.activeTimeout
          else read - record.lastUpdated > cfg.inactiveTimeout) {
        Export(key);
        order' := order + [key];
      }
    }
  }
}
