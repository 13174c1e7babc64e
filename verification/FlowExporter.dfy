/** The flow exporter of segments/input/bpf/flow_exporter.go: a map from keys to records that change in
    place. Each method runs under the exporter's mutex; the clock readings of time.Now are parameters. */
module FlowExporter {
  import opened Words
  import opened FlowCacheSpec

  class FlowRecord {
    var timeReceived: int
    var lastUpdated: int
    var samplerAddress: Bytes
    var packets: seq<Packet>
    ghost var arrivals: seq<int> // when each packet was stamped

    constructor ()
      ensures View() == Rec(0, 0, [], [], [])
    {
      timeReceived, lastUpdated, samplerAddress, packets, arrivals := 0, 0, [], [], [];
    }

    ghost function View(): Rec
      reads this
    {
      Rec(timeReceived, lastUpdated, samplerAddress, packets, arrivals)
    }

    method Extend(pkt: Packet, sampler: Bytes, stamped: int)
      modifies this
      ensures View() == Extended(old(View()), pkt, sampler, stamped)
    {
      lastUpdated := stamped;
      samplerAddress := sampler;
      packets := packets + [pkt];
      arrivals := arrivals + [stamped];
    }
  }

  /** BuildFlow accumulates the message packet by packet. */
  method BuildFlow(f: FlowRecord) returns (msg: Exported)
    ensures msg == Summary(f.View())
  {
    msg := Exported(f.samplerAddress, f.timeReceived, f.timeReceived, f.lastUpdated, UNSET, 0, 0, 0);
    ghost var rec := f.View();
    for i := 0 to |f.packets|
      invariant msg == Summary(rec.(packets := f.packets[..i]))
    {
      var pkt := f.packets[i];
      assert f.packets[..i + 1] == f.packets[..i] + [pkt];
      SummaryStep(rec.(packets := f.packets[..i]), pkt);
      if i == 0 {
        msg := msg.(first := StaticOf(pkt));
      }
      msg := msg.(tcpFlags := msg.tcpFlags | pkt.tcpFlags, bytes := Add64(msg.bytes, pkt.bytes),
                  packets := Add64(msg.packets, 1));
    }
    assert f.packets[..|f.packets|] == f.packets;
  }

  class FlowExporter {
    const cfg: Config
    const samplerAddress: Bytes
    var cache: map<FlowKey, FlowRecord>
    var flows: seq<Exported>        // messages sent on the Flows channel
    ghost var view: Cache           // the cached records and the exported ones, as values
    ghost var repr: set<FlowRecord> // all records created so far

    constructor (cfg: Config, samplerAddress: Bytes)
      ensures Valid() && fresh(repr) && view == Cache(map[], [])
      ensures this.cfg == cfg && this.samplerAddress == samplerAddress
    {
      this.cfg := cfg;
      this.samplerAddress := samplerAddress;
      cache, flows, view, repr := map[], [], Cache(map[], []), {};
    }

    /** Different keys have different records, the view shows their fields, and every message sent
        summarises an exported record. */
    ghost predicate Valid()
      reads this, repr
    {
      && cache.Keys == view.records.Keys
      && (forall k :: k in cache ==> cache[k] in repr && cache[k].View() == view.records[k])
      && (forall k, l :: k in cache && l in cache && k != l ==> cache[k] != cache[l])
      && |flows| == |view.exported|
      && (forall i :: 0 <= i < |flows| ==> flows[i] == Summary(view.exported[i]))
    }

    method Export(key: FlowKey)
      requires Valid() && key in cache
      modifies this
      ensures Valid() && repr == old(repr)
      ensures key in old(view).records && view == Exporting(old(view), key)
    {
      var flowRecord := cache[key];
      cache := cache - {key};
      var msg := BuildFlow(flowRecord);
      flows := flows + [msg];
      view := Cache(view.records - {key}, view.exported + [view.records[key]]);
    }

    /** The record of a key, created if there is none. */
    method Find(key: FlowKey, created: int) returns (record: FlowRecord)
      requires Valid()
      modifies this
      ensures Valid() && fresh(repr - old(repr)) && old(repr) <= repr
      ensures key in cache && cache[key] == record
      ensures view == if key in old(view).records then old(view)
                      else old(view).(records := old(view).records[key := Rec(created, 0, [], [], [])])
    {
      if key in cache { return cache[key]; }
      record := new FlowRecord();
      record.timeReceived := created;
      cache := cache[key := record];
      view := view.(records := view.records[key := record.View()]);
      repr := repr + {record};
    }

    /** Updates a cached record in place. */
    method Update(key: FlowKey, record: FlowRecord, pkt: Packet, stamped: int)
      requires Valid() && key in cache && cache[key] == record
      modifies this, record
      ensures Valid() && repr == old(repr)
      ensures view == old(view).(records := old(view).records[key :=
        Extended(old(view).records[key], pkt, samplerAddress, stamped)])
    {
      record.Extend(pkt, samplerAddress, stamped);
      view := view.(records := view.records[key := record.View()]);
    }

    method Insert(pkt: Packet, created: int, stamped: int)
      requires Valid()
      modifies this, repr
      ensures Valid() && fresh(repr - old(repr))
      ensures view == Inserted(old(view), pkt, samplerAddress, created, stamped)
    {
      InsertedSteps(view, pkt, samplerAddress, created, stamped);
      var key := NewFlowKey(pkt);
      var record := Find(key, created);
      Update(key, record, pkt, stamped);
      if IsFin(pkt) {
        Export(key);
      }
    }

    /** exportInactive and exportActive: one pass over the map, at time now, that exports what was past its
        timeout when the clock was read. */
    method Sweep(read: int, ghost now: int, active: bool) returns (ghost order: seq<FlowKey>)
      requires Valid()
      modifies this
      ensures Valid() && repr == old(repr)
      ensures var e := if active then SweepActive(read, now, order) else SweepInactive(read, now, order);
        && Enabled(cfg, old(view), e)
        && view == Apply(cfg, old(view), e)
    {
      order := [];
      var pending := cache.Keys;
      ghost var before := view;
      while pending != {}
        invariant Valid() && repr == old(repr)
        invariant pending <= before.records.Keys
        invariant Sweeping(cfg, before, view, order, before.records.Keys - pending, read, active)
      {
        var key :| key in pending;
        order := Visit(key, read, active, before, order, before.records.Keys - pending);
        assert before.records.Keys - pending + {key} == before.records.Keys - (pending - {key});
        pending := pending - {key};
      }
      assert before.records.Keys - pending == before.records.Keys;
      SweepingAll(cfg, before, view, order, read, now, active);
    }

    /** One iteration of a sweep. */
    method Visit(key: FlowKey, read: int, active: bool, ghost before: Cache, ghost order: seq<FlowKey>,
                 ghost visited: set<FlowKey>) returns (ghost order': seq<FlowKey>)
      requires Valid() && Sweeping(cfg, before, view, order, visited, read, active)
      requires key in before.records && key !in visited
      modifies this
      ensures Valid() && repr == old(repr) && Sweeping(cfg, before, view, order', visited + {key}, read, active)
    {
      SweepingStep(cfg, before, view, order, visited, read, active, key);
      hide Sweeping, Summary;
      var record := cache[key];
      order' := order;
      if (if active then read - record.timeReceived > cfg.activeTimeout
          else read - record.lastUpdated > cfg.inactiveTimeout) {
        Export(key);
        order' := order + [key];
      }
    }
  }
}
