/** The pair export of segments/output/prometheus/prometheus.go: consecutive repetitions of an AS are
    dropped and a path is counted edge by edge. */
module PathPairs {
  import opened Words
  import BgpPaths

  /** A path without consecutive repetitions: an AS stays if it differs from the one before it. */
  function Dedup(path: seq<U32>): (proper: seq<U32>)
    ensures proper == [] <==> path == []
  {
    if |path| <= 1 then path
    else if path[|path| - 1] == path[|path| - 2] then Dedup(path[..|path| - 1])
    else Dedup(path[..|path| - 1]) + [path[|path| - 1]]
  }

  predicate NoEqualNeighbours(path: seq<U32>) {
    forall i :: 0 < i < |path| ==> path[i - 1] != path[i]
  }

  /** The result has no equal neighbours, keeps both ends, and has the elements of the path. */
  lemma {:induction false} DedupIsProper(path: seq<U32>)
    ensures NoEqualNeighbours(Dedup(path))
    ensures path != [] ==> Dedup(path)[0] == path[0] && Dedup(path)[|Dedup(path)| - 1] == path[|path| - 1]
    ensures forall x :: x in Dedup(path) <==> x in path
  {
    if |path| > 1 {
      var front := path[..|path| - 1];
      DedupIsProper(front);
      assert path == front + [path[|path| - 1]];
    }
  }

  /** Only paths without equal neighbours stay as they are, so doing it twice changes nothing more. */
  lemma DedupFixpoints(path: seq<U32>)
    ensures NoEqualNeighbours(path) <==> Dedup(path) == path
    ensures Dedup(Dedup(path)) == Dedup(path)
    decreases |path|
  {
    DedupIsProper(path);
    if NoEqualNeighbours(path) {
      Unchanged(path);
    }
    Unchanged(Dedup(path));
  }

  lemma {:induction false} Unchanged(path: seq<U32>)
    requires NoEqualNeighbours(path)
    ensures Dedup(path) == path
  {
    if |path| > 1 {
      Unchanged(path[..|path| - 1]);
    }
  }

  lemma DedupLast(path: seq<U32>)
    requires |path| > 1
    ensures Dedup(path) ==
      if path[|path| - 1] == path[|path| - 2] then Dedup(path[..|path| - 1])
      else Dedup(path[..|path| - 1]) + [path[|path| - 1]]
  {
  }

  /** Two lists in a row; an element at the end of one and the start of the other is kept once. */
  function Merge(x: seq<U32>, y: seq<U32>): seq<U32> {
    if x != [] && y != [] && x[|x| - 1] == y[0] then x + y[1..] else x + y
  }

  lemma MergeSnoc(x: seq<U32>, y: seq<U32>, last: U32)
    requires y != []
    ensures Merge(x, y + [last]) == Merge(x, y) + [last]
  {
    if x != [] && x[|x| - 1] == y[0] {
      assert (y + [last])[1..] == y[1..] + [last];
      Associates(x, y[1..], [last]);
    } else {
      Associates(x, y, [last]);
    }
  }

  lemma Associates(x: seq<U32>, y: seq<U32>, z: seq<U32>)
    ensures x + (y + z) == (x + y) + z
  {
  }

  /** Joining two paths merges only at the joint. */
  lemma {:induction false} DedupJoins(a: seq<U32>, b: seq<U32>)
    ensures Dedup(a + b) == Merge(Dedup(a), Dedup(b))
  {
    if a == [] {
      assert a + b == b;
    } else if b == [] {
      assert a + b == a;
    } else {
      hide Dedup;
      var front, last, all := b[..|b| - 1], b[|b| - 1], a + b;
      assert all[..|all| - 1] == a + front;
      DedupLast(all);
      if front == [] {
        assert a + front == a && b == [last];
        DedupIsProper(a);
        DedupIsProper(b);
        DedupOfOne(b);
      } else {
        hide Merge;
        DedupJoins(a, front);
        DedupLast(b);
        MergeSnoc(Dedup(a), Dedup(front), last);
      }
    }
  }

  lemma DedupOfOne(path: seq<U32>)
    requires |path| == 1
    ensures Dedup(path) == path
  {
  }

  /** The exporter's loop compares with the end of its result; the effect is the same. */
  method DedupConsecutiveASNs(asPath: seq<U32>) returns (deduped: seq<U32>)
    ensures deduped == Dedup(asPath)
  {
    if |asPath| == 0 {
      return [];
    }
    deduped := [asPath[0]];
    for i := 1 to |asPath|
      invariant deduped == Dedup(asPath[..i])
    {
      DedupIsProper(asPath[..i]);
      assert asPath[..i + 1][..i] == asPath[..i];
      if asPath[i] != deduped[|deduped| - 1] {
        deduped := deduped + [asPath[i]];
      }
    }
    assert asPath[..|asPath|] == asPath;
  }

  // ---------------------------------------------------------------------------------------------
  // The exported pairs

  datatype Pair = Pair(from: U32, to: U32)
  {
    predicate Self() { from == to }
  }

  datatype Sample = Sample(pair: Pair, direction: string, bytes: U64)

  /** The adjacent pairs of a path, in order. */
  function Edges(path: seq<U32>): seq<Pair> {
    if |path| < 2 then [] else Edges(path[..|path| - 1]) + [Pair(path[|path| - 2], path[|path| - 1])]
  }

  /** What one call of the exporter counts: nothing for a single hop, otherwise the edges with the path's
      own end of the flow as a pair with itself. */
  function Exported(path: seq<U32>, direction: string): seq<Pair> {
    var p := Dedup(path);
    if |p| < 2 then []
    else if direction == "Source" then [Pair(p[0], p[0])] + Edges(p)
    else if direction == "Destination" then Edges(p) + [Pair(p[|p| - 1], p[|p| - 1])]
    else []
  }

  function Samples(pairs: seq<Pair>, direction: string, bytes: U64): (samples: seq<Sample>)
    ensures |samples| == |pairs| && forall i :: 0 <= i < |pairs| ==> samples[i] == Sample(pairs[i], direction, bytes)
  {
    seq(|pairs|, i requires 0 <= i < |pairs| => Sample(pairs[i], direction, bytes))
  }

  class Exporter {
    var counted: seq<Sample> // every addition to the pair counter, oldest first

    constructor ()
      ensures counted == []
    {
      counted := [];
    }

    method Count(from: U32, to: U32, direction: string, bytes: U64)
      modifies this
      ensures counted == old(counted) + [Sample(Pair(from, to), direction, bytes)]
    {
      counted := counted + [Sample(Pair(from, to), direction, bytes)];
    }

    method CountEdges(asPath: seq<U32>, direction: string, bytes: U64)
      requires |asPath| >= 1
      modifies this
      ensures counted == old(counted) + Samples(Edges(asPath), direction, bytes)
    {
      for i := 0 to |asPath| - 1
        invariant counted == old(counted) + Samples(Edges(asPath[..i + 1]), direction, bytes)
      {
        assert asPath[..i + 2][..i + 1] == asPath[..i + 1];
        Count(asPath[i], asPath[i + 1], direction, bytes);
      }
      assert asPath[..|asPath|] == asPath;
    }

    method ExportASPathPairsWithDirection(path: seq<U32>, direction: string, bytes: U64)
      modifies this
      ensures counted == old(counted) + Samples(Exported(path, direction), direction, bytes)
    {
      var asPath := DedupConsecutiveASNs(path);
      if |asPath| < 2 {
        return;
      }
      if direction == "Source" {
        Count(asPath[0], asPath[0], direction, bytes);
        CountEdges(asPath, direction, bytes);
      }
      if direction == "Destination" {
        CountEdges(asPath, direction, bytes);
        Count(asPath[|asPath| - 1], asPath[|asPath| - 1], direction, bytes);
      }
    }

    /** The exports of one flow. */
    method ExportFlow(srcAsPath: seq<U32>, dstAsPath: seq<U32>, bytes: U64)
      modifies this
      ensures counted == old(counted) + Samples(Exported(srcAsPath, "Source"), "Source", bytes)
                         + Samples(Exported(dstAsPath, "Destination"), "Destination", bytes)
      ensures forall i :: |old(counted)| <= i < |counted| ==>
        counted[i].bytes == bytes && counted[i].direction in {"Source", "Destination"}
    {
      ExportASPathPairsWithDirection(srcAsPath, "Source", bytes);
      ExportASPathPairsWithDirection(dstAsPath, "Destination", bytes);
    }
  }

  // ---------------------------------------------------------------------------------------------
  // End to end: the exported pairs are the edges of the whole path

  function NonSelf(pairs: seq<Pair>): seq<Pair> {
    if pairs == [] then []
    else
      var last := pairs[|pairs| - 1];
      NonSelf(pairs[..|pairs| - 1]) + if last.Self() then [] else [last]
  }

  lemma {:induction false} NonSelfJoins(a: seq<Pair>, b: seq<Pair>)
    ensures NonSelf(a + b) == NonSelf(a) + NonSelf(b)
  {
    if b == [] {
      assert a + b == a;
    } else {
      assert (a + b)[..|a + b| - 1] == a + b[..|b| - 1];
      NonSelfJoins(a, b[..|b| - 1]);
    }
  }

  lemma {:induction false} ProperEdges(path: seq<U32>)
    requires NoEqualNeighbours(path)
    ensures NonSelf(Edges(path)) == Edges(path)
  {
    if |path| >= 2 {
      ProperEdges(path[..|path| - 1]);
    }
  }

  lemma {:induction false} EdgesJoin(a: seq<U32>, b: seq<U32>)
    requires a != [] && b != []
    ensures Edges(a + b) == Edges(a) + [Pair(a[|a| - 1], b[0])] + Edges(b)
  {
    assert (a + b)[..|a + b| - 1] == a + b[..|b| - 1];
    if |b| > 1 {
      EdgesJoin(a, b[..|b| - 1]);
    } else {
      assert a + b[..0] == a;
    }
  }

  lemma SelfPairDrops(x: U32, pairs: seq<Pair>)
    ensures NonSelf([Pair(x, x)] + pairs) == NonSelf(pairs) == NonSelf(pairs + [Pair(x, x)])
  {
    assert NonSelf([Pair(x, x)]) == [];
    hide NonSelf;
    NonSelfJoins([Pair(x, x)], pairs);
    NonSelfJoins(pairs, [Pair(x, x)]);
    assert [] + NonSelf(pairs) == NonSelf(pairs) == NonSelf(pairs) + [];
  }

  lemma NoPairs(path: seq<U32>)
    requires |path| < 2
    ensures Edges(path) == [] && NonSelf([]) == []
  {
  }

  /** Apart from pairs of an AS with itself, a direction exports the edges of its own path; with two
      distinct hops it also exports exactly one pair of an AS with itself, at the flow's end. */
  lemma DirectionPairs(path: seq<U32>)
    ensures NonSelf(Exported(path, "Source")) == Edges(Dedup(path)) == NonSelf(Exported(path, "Destination"))
    ensures |Exported(path, "Source")| == |Exported(path, "Destination")|
    ensures |Exported(path, "Source")| == |Edges(Dedup(path))| + if |Dedup(path)| < 2 then 0 else 1
  {
    hide Dedup, NonSelf, Edges, NoEqualNeighbours;
    var p := Dedup(path);
    DedupIsProper(path);
    if |p| >= 2 {
      ProperEdges(p);
      SelfPairDrops(p[0], Edges(p));
      SelfPairDrops(p[|p| - 1], Edges(p));
    } else {
      NoPairs(p);
    }
  }

  lemma {:induction false} EdgesAt(path: seq<U32>, k: nat)
    requires k + 1 < |path|
    ensures |Edges(path)| == |path| - 1 && Edges(path)[k] == Pair(path[k], path[k + 1])
  {
    if k + 2 < |path| {
      EdgesAt(path[..|path| - 1], k);
    } else if k > 0 {
      EdgesAt(path[..|path| - 1], k - 1);
    }
  }

  /** Pairs that can be walked one after the other; only the first or the last may be a pair of an AS with itself. */
  predicate Walk(pairs: seq<Pair>) {
    forall k | 0 <= k < |pairs| - 1 :: Linked(pairs, k)
  }

  predicate Linked(pairs: seq<Pair>, k: nat)
    requires k + 1 < |pairs|
  {
    pairs[k].to == pairs[k + 1].from
  }

  lemma DistinctHops(path: seq<U32>)
    ensures |Dedup(path)| >= 2 <==> exists i :: 0 < i < |path| && path[i] != path[0]
  {
    var p := Dedup(path);
    DedupIsProper(path);
    hide Dedup;
    if |p| >= 2 {
      assert p[1] in path && p[0] != p[1];
      var i :| 0 <= i < |path| && path[i] == p[1];
      assert i > 0 && path[i] != path[0];
    } else if path != [] {
      forall i | 0 <= i < |path|
        ensures path[i] == path[0]
      {
        assert path[i] in p;
      }
    }
  }

  lemma SourceWalk(p: seq<U32>)
    requires |p| >= 2 && NoEqualNeighbours(p)
    ensures var s := [Pair(p[0], p[0])] + Edges(p);
      && Walk(s) && s[0] == Pair(p[0], p[0]) && s[|s| - 1].to == p[|p| - 1]
      && forall k :: 0 < k < |s| ==> s[k].from != s[k].to
  {
    hide Edges;
    EdgesAt(p, 0);
    var s := [Pair(p[0], p[0])] + Edges(p);
    forall k | 0 <= k < |p| - 1
      ensures Edges(p)[k] == s[k + 1] == Pair(p[k], p[k + 1]) && s[k].to == p[k]
    {
      EdgesAt(p, k);
      if k > 0 {
        EdgesAt(p, k - 1);
      }
    }
    forall k | 0 <= k < |s| - 1
      ensures Linked(s, k)
    {
      assert Edges(p)[k] == s[k + 1];
    }
    forall k | 0 < k < |s|
      ensures s[k].from != s[k].to
    {
      EdgesAt(p, k - 1);
      assert p[k - 1] != p[k];
    }
    EdgesAt(p, |p| - 2);
  }

  lemma DestinationWalk(p: seq<U32>)
    requires |p| >= 2 && NoEqualNeighbours(p)
    ensures var d := Edges(p) + [Pair(p[|p| - 1], p[|p| - 1])];
      && Walk(d) && d[0].from == p[0] && d[|d| - 1] == Pair(p[|p| - 1], p[|p| - 1])
      && forall k :: 0 <= k < |d| - 1 ==> d[k].from != d[k].to
  {
    hide Edges;
    EdgesAt(p, 0);
    var d := Edges(p) + [Pair(p[|p| - 1], p[|p| - 1])];
    forall k | 0 <= k < |d| - 1
      ensures d[k] == Pair(p[k], p[k + 1]) && d[k].from != d[k].to && Linked(d, k)
    {
      EdgesAt(p, k);
      if k + 2 < |p| {
        EdgesAt(p, k + 1);
      }
    }
  }

  /** Without two different hops nothing is exported. Otherwise the pairs walk the path: towards the source they begin
      with its first AS paired with itself, towards the destination they end with its last AS paired with
      itself, and no other pair is one of an AS with itself. */
  lemma PairsWalkThePath(path: seq<U32>)
    ensures Exported(path, "Source") != [] <==> exists i :: 0 < i < |path| && path[i] != path[0]
    ensures Exported(path, "Destination") != [] <==> exists i :: 0 < i < |path| && path[i] != path[0]
    ensures var s := Exported(path, "Source");
      s != [] ==>
        && path != [] && Walk(s) && s[0] == Pair(path[0], path[0]) && s[|s| - 1].to == path[|path| - 1]
        && forall k :: 0 < k < |s| ==> s[k].from != s[k].to
    ensures var d := Exported(path, "Destination");
      d != [] ==>
        && path != [] && Walk(d) && d[0].from == path[0] && d[|d| - 1] == Pair(path[|path| - 1], path[|path| - 1])
        && forall k :: 0 <= k < |d| - 1 ==> d[k].from != d[k].to
  {
    hide Dedup, Edges, Walk;
    var p := Dedup(path);
    DedupIsProper(path);
    DistinctHops(path);
    assert |p| >= 2 ==> Exported(path, "Source") == [Pair(p[0], p[0])] + Edges(p);
    assert |p| >= 2 ==> Exported(path, "Destination") == Edges(p) + [Pair(p[|p| - 1], p[|p| - 1])];
    assert |p| < 2 ==> Exported(path, "Source") == [] == Exported(path, "Destination");
    hide Exported, NoEqualNeighbours;
    if |p| >= 2 {
      SourceWalk(p);
      DestinationWalk(p);
    }
  }

  /** The pairs exported for the two halves of a path, in order and without pairs of an AS with itself,
      are the edges of the whole path exactly when the halves share the AS at which they meet. */
  lemma {:induction false} PairsAreEdgesIffHalvesMeet(src: seq<U32>, dst: seq<U32>)
    requires src != [] && dst != []
    ensures NonSelf(Exported(src, "Source") + Exported(dst, "Destination")) == Edges(Dedup(src + dst))
      <==> src[|src| - 1] == dst[0]
  {
    hide Dedup, NonSelf, Exported, NoEqualNeighbours, Edges;
    var a, b := Dedup(src), Dedup(dst);
    NonSelfJoins(Exported(src, "Source"), Exported(dst, "Destination"));
    DirectionPairs(src);
    DirectionPairs(dst);
    DedupJoins(src, dst);
    DedupIsProper(src);
    DedupIsProper(dst);
    EdgesJoin(a, b);
    if src[|src| - 1] == dst[0] {
      MeetingEdges(a, b);
    }
  }

  lemma MeetingEdges(a: seq<U32>, b: seq<U32>)
    requires a != [] && b != [] && a[|a| - 1] == b[0]
    ensures Edges(a + b[1..]) == Edges(a) + Edges(b)
  {
    hide Edges;
    var rest := b[1..];
    NoPairs([b[0]]);
    if rest == [] {
      assert a + rest == a && b == [b[0]];
    } else {
      EdgesJoin(a, rest);
      EdgesJoin([b[0]], rest);
      assert b == [b[0]] + rest;
      Regroup(Edges(a), Pair(b[0], rest[0]), Edges(rest));
    }
  }

  lemma Regroup(x: seq<Pair>, p: Pair, y: seq<Pair>)
    ensures x + [p] + y == x + ([] + [p] + y)
  {
  }

  /** For a flow with routes on both sides, the pairs exported for its two paths are the edges of its whole
      path exactly when the router has an AS number; without one the destination half starts with AS 0,
      and the two halves meet only if the source route starts there too. */
  lemma FlowPairsAreEdges(srcPath: seq<U32>, dstPath: seq<U32>, routerASN: U32)
    requires srcPath != [] && dstPath != []
    ensures var src, dst := BgpPaths.SourceHalf(srcPath, routerASN), BgpPaths.DestinationHalf(dstPath, routerASN);
      NonSelf(Exported(src, "Source") + Exported(dst, "Destination")) == Edges(Dedup(src + dst))
      <==> routerASN != 0 || srcPath[0] == 0
  {
    var src, dst := BgpPaths.SourceHalf(srcPath, routerASN), BgpPaths.DestinationHalf(dstPath, routerASN);
    BgpPaths.ReversedAt(srcPath, |srcPath| - 1);
    PairsAreEdgesIffHalvesMeet(src, dst);
  }
}
