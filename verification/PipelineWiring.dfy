/** Building a pipeline (pipeline.go, New and GetDrop): segments are joined by fresh channels in order,
    and all filter segments share one drop channel. */
module PipelineWiring {

  class Channel {
    constructor () {}
  }

  class Segment {
    var input: Channel?
    var output: Channel?
    var drops: Channel?      // only used by filter segments
    const isFilter: bool     // implements SubscribeDrops

    constructor (isFilter: bool)
      ensures this.isFilter == isFilter
    {
      this.isFilter := isFilter;
      input, output, drops := null, null, null;
    }

    method Rewire(input: Channel, output: Channel)
      modifies this`input, this`output
      ensures this.input == input && this.output == output
    {
      this.input, this.output := input, output;
    }
  }

  /** Segment i reads channel i and writes channel i + 1, and no channel is used twice. */
  ghost predicate Chain(segments: seq<Segment>, channels: seq<Channel>)
    reads segments
  {
    && |channels| == |segments| + 1
    && (forall i, j :: 0 <= i < j < |channels| ==> channels[i] != channels[j])
    && (forall i :: 0 <= i < |segments| ==> segments[i].input == channels[i] && segments[i].output == channels[i + 1])
  }

  class Pipeline {
    const segments: seq<Segment>
    const input: Channel
    const output: Channel
    ghost const channels: seq<Channel>
    var drop: Channel?

    constructor (segments: seq<Segment>, channels: seq<Channel>)
      requires |channels| == |segments| + 1
      ensures this.segments == segments && this.channels == channels && drop == null && fresh(this)
      ensures input == channels[0] && output == channels[|segments|]
    {
      this.segments, this.input, this.output := segments, channels[0], channels[|segments|];
      this.channels := channels;
      drop := null;
    }

    /** The segments form a chain from In to Out over pairwise different channels. */
    ghost predicate Wired()
      reads segments
    {
      && segments != [] && Chain(segments, channels)
      && input == channels[0] && output == channels[|segments|]
    }

    /** The drop channel; the first call creates it and subscribes every filter segment. */
    method GetDrop() returns (d: Channel)
      modifies this, segments
      ensures drop == d && (old(drop) != null ==> d == old(drop))
      ensures old(drop) == null ==> fresh(d) && forall s :: s in segments && s.isFilter ==> s.drops == d
      ensures forall s :: s in segments ==> s.input == old(s.input) && s.output == old(s.output)
      ensures forall s :: s in segments && (old(drop) != null || !s.isFilter) ==> s.drops == old(s.drops)
    {
      if drop != null { return drop; }
      d := new Channel();
      drop := d;
      for i := 0 to |segments|
        invariant drop == d
        invariant forall s :: s in segments ==> s.input == old(s.input) && s.output == old(s.output)
        invariant forall s :: s in segments && !s.isFilter ==> s.drops == old(s.drops)
        invariant forall j :: 0 <= j < i && segments[j].isFilter ==> segments[j].drops == d
      {
        if segments[i].isFilter { segments[i].drops := d; }
      }
    }
  }

  /** The last position of a segment among the first n of a list. */
  function LastUse(list: seq<Segment?>, n: nat, s: Segment): (i: nat)
    requires n <= |list| && s in list[..n]
    ensures i < n && list[i] == s && forall j :: i < j < n ==> list[j] != s
  {
    if list[n - 1] == s then n - 1
    else
      assert list[..n] == list[..n - 1] + [list[n - 1]];
      LastUse(list, n - 1, s)
  }

  predicate AllDifferent(list: seq<Segment?>) {
    forall i, j :: 0 <= i < j < |list| ==> list[i] != list[j]
  }

  /** Every segment reads and writes the channels of its last position in the list. */
  ghost predicate LastWired(list: seq<Segment?>, n: nat, channels: seq<Channel>)
    requires n <= |list| && |channels| == n + 1
    reads set s: Segment | s in list
  {
    forall i :: 0 <= i < n && list[i] != null ==>
      var s: Segment := list[i];
      var last := LastUse(list, n, s);
      s.input == channels[last] && s.output == channels[last + 1]
  }

  /** New: null exactly if a segment is nil; an empty list is a single pass segment. The segments form a chain
      exactly if none is listed twice; one that is listed twice is wired at its last position only. */
  method New(segmentList: seq<Segment?>) returns (p: Pipeline?)
    modifies set s: Segment | s in segmentList
    ensures p == null <==> null in segmentList
    ensures p != null ==> fresh(p) && p.drop == null && fresh(p.channels) && (p.Wired() <==> AllDifferent(segmentList))
    ensures p != null && segmentList != [] ==>
      && p.segments == segmentList && |p.channels| == |segmentList| + 1
      && LastWired(segmentList, |segmentList|, p.channels)
    ensures p != null && segmentList == [] ==> |p.segments| == 1 && fresh(p.segments[0]) && !p.segments[0].isFilter
  {
    if |segmentList| == 0 {
      var pass := new Segment(false);
      p := Connect([pass]);
    } else {
      p := Connect(segmentList);
    }
  }

  lemma LastUseGrows(list: seq<Segment?>, n: nat)
    requires n < |list|
    ensures forall s: Segment :: s in list[..n + 1] ==>
      if s == list[n] then LastUse(list, n + 1, s) == n
      else s in list[..n] && LastUse(list, n + 1, s) == LastUse(list, n, s)
  {
    assert list[..n + 1] == list[..n] + [list[n]];
  }

  lemma NothingWired(list: seq<Segment?>, channels: seq<Channel>)
    requires |channels| == 1
    ensures LastWired(list, 0, channels)
  {
  }

  /** Rewires the segment at position i between the last two channels. */
  method Wire(list: seq<Segment?>, i: nat, segment: Segment, channels: seq<Channel>)
    requires i < |list| && list[i] == segment && |channels| == i + 2 && LastWired(list, i, channels[..i + 1])
    modifies segment`input, segment`output
    ensures LastWired(list, i + 1, channels)
  {
    hide LastUse;
    LastUseGrows(list, i);
    assert forall j :: 0 <= j <= i ==> list[..i + 1][j] == list[j] && list[j] in list[..i + 1];
    segment.Rewire(channels[i], channels[i + 1]);
  }

  method Connect(list: seq<Segment?>) returns (p: Pipeline?)
    requires list != []
    modifies set s: Segment | s in list
    ensures p == null <==> null in list
    ensures p != null ==> fresh(p) && p.drop == null && fresh(p.channels) && p.segments == list
    ensures p != null ==> |p.channels| == |list| + 1 && LastWired(list, |list|, p.channels)
    ensures p != null ==> (p.Wired() <==> AllDifferent(list))
  {
    hide LastWired, LastUse, Chain, AllDifferent;
    var first := new Channel();
    var channels: seq<Channel> := [first];
    NothingWired(list, channels);
    var wired: seq<Segment> := [];
    for i := 0 to |list|
      invariant |wired| == i && wired == list[..i] && |channels| == i + 1
      invariant fresh(channels) && (forall j, k :: 0 <= j < k <= i ==> channels[j] != channels[k])
      invariant LastWired(list, i, channels)
    {
      var segment := list[i];
      if segment == null { return null; }
      var next := new Channel();
      ghost var earlier := channels;
      channels := channels + [next];
      assert channels[..i + 1] == earlier;
      Wire(list, i, segment, channels);
      wired := wired + [segment];
    }
    p := new Pipeline(wired, channels);
    ChainIff(list, wired, channels);
  }

  predicate NotListedLater(list: seq<Segment?>, i: nat)
    requires i < |list|
  {
    forall j :: i < j < |list| ==> list[j] != list[i]
  }

  /** A segment is wired at a position exactly if it is not listed again later. */
  lemma WiredHere(list: seq<Segment?>, segments: seq<Segment>, channels: seq<Channel>, i: nat)
    requires segments == list && |channels| == |list| + 1 && LastWired(list, |list|, channels) && i < |list|
    requires forall j, k :: 0 <= j < k < |channels| ==> channels[j] != channels[k]
    ensures segments[i].input == channels[i] && segments[i].output == channels[i + 1]
      <==> NotListedLater(list, i)
  {
    var n, s := |list|, segments[i];
    assert list[..n] == list && list[i] == s;
    var last := LastUse(list, n, s);
    assert s.input == channels[last] && s.output == channels[last + 1];
    hide LastWired, LastUse;
    assert last >= i;
  }

  /** Segments wired at their last positions form a chain exactly if every position is a last one. */
  lemma ChainIff(list: seq<Segment?>, segments: seq<Segment>, channels: seq<Channel>)
    requires segments == list && |channels| == |list| + 1 && LastWired(list, |list|, channels)
    requires forall j, k :: 0 <= j < k < |channels| ==> channels[j] != channels[k]
    ensures Chain(segments, channels) <==> AllDifferent(list)
  {
    hide LastWired, LastUse;
    if Chain(segments, channels) {
      forall i, j | 0 <= i < j < |list|
        ensures list[i] != list[j]
      {
        WiredHere(list, segments, channels, i);
        assert NotListedLater(list, i);
      }
    }
    if AllDifferent(list) {
      forall i | 0 <= i < |list|
        ensures segments[i].input == channels[i] && segments[i].output == channels[i + 1]
      {
        WiredHere(list, segments, channels, i);
        assert NotListedLater(list, i);
      }
    }
  }
}
