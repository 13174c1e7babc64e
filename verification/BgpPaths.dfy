/** AS-path assembly of segments/modify/bgp/bgp.go on Go slices: a slice is a window into shared memory,
    reversing works in place, and append writes into the window's spare capacity if there is enough. */
module BgpPaths {
  import opened Words

  datatype Slice = Nil | Slice(mem: array<U32>, start: nat, len: nat, cap: nat)
  {
    predicate Valid() {
      Nil? || (len <= cap && start + cap <= mem.Length)
    }

    predicate IsEmpty() {
      Nil? || len == 0
    }

    function Memory(): set<object> {
      if Nil? then {} else {mem}
    }

    function Content(): (content: seq<U32>)
      requires Valid()
      reads Memory()
      ensures |content| == if Nil? then 0 else len
    {
      if Nil? then [] else mem[start..start + len]
    }

    /** Whether so many more elements fit without new memory. */
    predicate Fits(n: nat) {
      Slice? && len + n <= cap
    }
  }

  function Reversed(s: seq<U32>): seq<U32> {
    if s == [] then [] else Reversed(s[1..]) + [s[0]]
  }

  lemma {:induction false} ReversedAt(s: seq<U32>, k: nat)
    requires k < |s|
    ensures |Reversed(s)| == |s| && Reversed(s)[k] == s[|s| - 1 - k]
  {
    if |s| > 1 {
      ReversedAt(s[1..], if k < |s| - 1 then k else 0);
    }
  }

  lemma ReversedByIndex(s: seq<U32>, r: seq<U32>)
    requires |r| == |s| && forall k :: 0 <= k < |s| ==> r[k] == s[|s| - 1 - k]
    ensures r == Reversed(s)
  {
    forall k | 0 <= k < |s|
      ensures |Reversed(s)| == |s| && r[k] == Reversed(s)[k]
    {
      ReversedAt(s, k);
    }
  }

  /** Memory cells after the window from lo to hi has been reversed. */
  function Flipped(cells: seq<U32>, lo: nat, hi: nat): (flipped: seq<U32>)
    requires lo <= hi <= |cells|
    ensures |flipped| == |cells|
  {
    seq(|cells|, k requires 0 <= k < |cells| => if lo <= k < hi then cells[lo + hi - 1 - k] else cells[k])
  }

  lemma FlippedWindow(cells: seq<U32>, lo: nat, hi: nat)
    requires lo <= hi <= |cells|
    ensures Flipped(cells, lo, hi)[lo..hi] == Reversed(cells[lo..hi])
  {
    ReversedByIndex(cells[lo..hi], Flipped(cells, lo, hi)[lo..hi]);
  }

  /** slices.Reverse: the window is reversed where it is; memory outside it stays. */
  method Reverse(s: Slice)
    requires s.Valid()
    modifies s.Memory()
    ensures s.Content() == Reversed(old(s.Content()))
    ensures s.Slice? ==> s.mem[..] == Flipped(old(s.mem[..]), s.start, s.start + s.len)
  {
    if s.Slice? {
      hide Reversed, Flipped, Slice.Content;
      ghost var cells := s.mem[..];
      WindowOf(s);
      ReverseWindow(s.mem, s.start, s.start + s.len);
      FlippedWindow(cells, s.start, s.start + s.len);
      WindowOf(s);
    }
  }

  method ReverseWindow(m: array<U32>, lo: nat, hi: nat)
    requires lo <= hi <= m.Length
    modifies m
    ensures m[..] == Flipped(old(m[..]), lo, hi)
  {
    ghost var was := m[..];
    var i, j := lo, hi - 1;
    while i < j
      invariant lo <= i <= hi && i + j == lo + hi - 1 && i <= j + 1
      invariant forall k :: lo <= k < i || j < k < hi ==> m[k] == was[lo + hi - 1 - k]
      invariant forall k :: 0 <= k < lo || i <= k <= j || hi <= k < m.Length ==> m[k] == was[k]
    {
      m[i], m[j] := m[j], m[i];
      i, j := i + 1, j - 1;
    }
  }

  /** Memory cells after values have been stored at a position. */
  function Stored(cells: seq<U32>, at: nat, values: seq<U32>): (stored: seq<U32>)
    requires at + |values| <= |cells|
    ensures |stored| == |cells|
  {
    cells[..at] + values + cells[at + |values|..]
  }

  /** Memory cells after an append to a slice, which stores into them only if the values fit. */
  function AppendedCells(cells: seq<U32>, s: Slice, values: seq<U32>): (after: seq<U32>)
    requires s.Slice? && s.start + s.cap <= |cells|
    ensures |after| == |cells|
  {
    if s.Fits(|values|) then Stored(cells, s.start + s.len, values) else cells
  }

  /** Go's append: in place if the elements fit, otherwise in new memory of some larger capacity. */
  method Append(s: Slice, values: seq<U32>) returns (t: Slice)
    requires s.Valid()
    modifies s.Memory()
    ensures t.Valid() && t.Content() == old(s.Content()) + values
    ensures s.Fits(|values|) ==> t == s.(len := s.len + |values|)
    ensures s.Slice? ==> s.mem[..] == AppendedCells(old(s.mem[..]), s, values)
    ensures !s.Fits(|values|) ==> unchanged(s.Memory()) && if values == [] then t == s else t.Slice? && fresh(t.mem)
  {
    if values == [] {
      t := s;
    } else if s.Fits(|values|) {
      hide Stored, Slice.Content;
      ghost var was := s.mem[..];
      WindowOf(s);
      Store(s.mem, s.start + s.len, values);
      t := s.(len := s.len + |values|);
      StoredWindow(was, s.start, s.start + s.len, values);
      WindowOf(t);
    } else {
      t := Grow(s.Content() + values);
    }
  }

  lemma StoredWindow(cells: seq<U32>, lo: nat, at: nat, values: seq<U32>)
    requires lo <= at && at + |values| <= |cells|
    ensures Stored(cells, at, values)[lo..at + |values|] == cells[lo..at] + values
    ensures Stored(cells, at, values)[lo..at] == cells[lo..at]
  {
  }

  method Store(m: array<U32>, at: nat, values: seq<U32>)
    requires at + |values| <= m.Length
    modifies m
    ensures m[..] == Stored(old(m[..]), at, values)
  {
    for i := 0 to |values|
      invariant forall k :: 0 <= k < m.Length ==> m[k] == if at <= k < at + i then values[k - at] else old(m[k])
    {
      m[at + i] := values[i];
    }
  }

  method Grow(content: seq<U32>) returns (t: Slice)
    ensures t.Slice? && fresh(t.mem) && t.Valid() && t.Content() == content
  {
    var cap :| cap >= |content|;
    var m := new U32[cap](i => if 0 <= i < |content| then content[i] else 0);
    t := Slice.Slice(m, 0, |content|, cap);
  }

  // ---------------------------------------------------------------------------------------------
  // Annotating a flow

  type IpParser = string -> Option<Bytes>

  datatype Validation = Unknown | Valid | NotFound | Invalid

  datatype Route = Route(
    best: bool, asPath: Slice, med: U32, localPref: U32, validation: Validation, nextHop: string)
  {
    predicate Usable() { best && !asPath.IsEmpty() }
  }

  class EnrichedFlow {
    var asPath: Slice
    var srcAsPath: Slice
    var dstAsPath: Slice
    var med: U32
    var localPref: U32
    var dstAs: U32
    var nextHopAs: U32
    var nextHop: Bytes
    var validationStatus: Validation
  }

  /** The first best route with a non-empty path. */
  function First(routes: seq<Route>): (first: Option<Route>)
    ensures first.None? <==> forall r :: r in routes ==> !r.Usable()
    ensures first.Some? ==> first.value in routes && first.value.Usable()
  {
    if routes == [] then None else if routes[0].Usable() then Some(routes[0]) else First(routes[1..])
  }

  /** A route can be chosen: it is a best one, and its path has an element. */
  predicate Choosable(best: bool, path: Slice) {
    best && path.Slice? && path.len > 0
  }

  /** The chosen route is the first one that is best and has a path; there is none only if no route is and has. */
  lemma {:induction false} FirstIsBest(routes: seq<Route>) returns (k: nat)
    ensures k <= |routes| && forall j :: 0 <= j < k ==> !Choosable(routes[j].best, routes[j].asPath)
    ensures if k < |routes| then Choosable(routes[k].best, routes[k].asPath) && First(routes) == Some(routes[k])
            else First(routes) == None
  {
    k := 0;
    if routes != [] && !routes[0].Usable() {
      k := FirstIsBest(routes[1..]);
      assert forall j :: 0 < j < |routes| ==> routes[j] == routes[1..][j - 1];
      k := k + 1;
    }
  }

  /** The routes that are best. */
  function BestOnes(routes: seq<Route>): seq<Route> {
    if routes == [] then []
    else if routes[0].best then [routes[0]] + BestOnes(routes[1..])
    else BestOnes(routes[1..])
  }

  /** Routes that are not best are unobservable: without them the choice is the same, and Assemble sees nothing
      else of the lists. */
  lemma {:induction false} OthersUnobservable(routes: seq<Route>)
    ensures First(BestOnes(routes)) == First(routes)
  {
    if routes != [] {
      OthersUnobservable(routes[1..]);
    }
  }

  method FindFirst(routes: seq<Route>) returns (first: Option<Route>)
    ensures first == First(routes)
  {
    for i := 0 to |routes|
      invariant First(routes) == First(routes[i..])
    {
      if !routes[i].Usable() { continue; }
      return Some(routes[i]);
    }
    return None;
  }

  function PathOf(route: Option<Route>): seq<U32>
    requires route.Some? ==> route.value.asPath.Valid()
    reads if route.Some? then route.value.asPath.Memory() else {}
  {
    if route.Some? then route.value.asPath.Content() else []
  }

  /** The two halves of a path: towards the source the route is walked backwards. */
  function SourceHalf(path: seq<U32>, routerASN: U32): seq<U32> {
    Reversed(path) + if routerASN != 0 then [routerASN] else []
  }

  function DestinationHalf(path: seq<U32>, routerASN: U32): seq<U32> {
    if path == [] then [] else [routerASN] + path
  }

  /** Towards the source the last AS of the route comes first and the router last; towards the destination the
      router comes first. */
  lemma HalvesAt(path: seq<U32>, routerASN: U32, k: nat)
    requires k < |path|
    ensures |SourceHalf(path, routerASN)| == |path| + if routerASN == 0 then 0 else 1
    ensures SourceHalf(path, routerASN)[k] == path[|path| - 1 - k]
    ensures routerASN != 0 ==> SourceHalf(path, routerASN)[|path|] == routerASN
    ensures |DestinationHalf(path, routerASN)| == |path| + 1
    ensures DestinationHalf(path, routerASN)[0] == routerASN && DestinationHalf(path, routerASN)[k + 1] == path[k]
    ensures DestinationHalf([], routerASN) == []
  {
    ReversedAt(path, k);
    hide Reversed;
  }

  /** Slices that are the same or have no memory in common. */
  predicate SameOrApart(a: Slice, b: Slice) {
    a == b || a.Memory() !! b.Memory()
  }

  /** b is a, or has no memory in common with a, or is what appending the values to a in place gives. */
  ghost predicate Beside(a: Slice, b: Slice, values: seq<U32>)
    requires a.Valid() && b.Valid()
    reads a.Memory(), b.Memory()
  {
    SameOrApart(a, b)
    || (a.Fits(|values|) && b == a.(len := a.len + |values|) && b.Content() == a.Content() + values)
  }

  /** Appending to one of two slices leaves the contents of both alone, even in shared memory. */
  method AppendBeside(a: Slice, b: Slice, values: seq<U32>) returns (a': Slice)
    requires a.Valid() && b.Valid() && values != [] && Beside(a, b, values)
    modifies a.Memory()
    ensures a'.Valid() && a'.Content() == old(a.Content()) + values
    ensures a.Content() == old(a.Content()) && b.Content() == old(b.Content())
    ensures a.Slice? ==> a.mem[..] == AppendedCells(old(a.mem[..]), a, values)
    ensures if a.Fits(|values|) then a' == a.(len := a.len + |values|) else fresh(a'.Memory())
  {
    ghost var cells := if a.Slice? then a.mem[..] else [];
    a' := Append(a, values);
    if a.Fits(|values|) {
      StoredWindow(cells, a.start, a.start + a.len, values);
    }
    hide Stored;
  }

  /** msg.AsPath and the source path may be one slice of the route's memory; both grow by the router. */
  method AppendToBoth(a: Slice, b: Slice, asn: U32) returns (a': Slice, b': Slice)
    requires a.Valid() && b.Valid() && SameOrApart(a, b)
    modifies a.Memory(), b.Memory()
    ensures a'.Valid() && b'.Valid() && SameOrApart(a', b')
    ensures a'.Content() == old(a.Content()) + [asn] && b'.Content() == old(b.Content()) + [asn]
    ensures a.Content() == old(a.Content()) && b.Content() == old(b.Content())
    ensures a.Slice? ==> a.mem[..] == AppendedCells(old(a.mem[..]), a, [asn])
    ensures if a.Fits(1) then a' == a.(len := a.len + 1) else fresh(a'.Memory())
    ensures if b.Fits(1) then b'.Memory() == b.Memory() else fresh(b'.Memory())
  {
    hide Slice.Content, AppendedCells;
    ghost var cells := if a.Slice? then a.mem[..] else [];
    a' := AppendBeside(a, b, [asn]);
    b' := AppendBeside(b, a', [asn]);
    if a.Slice? {
      StoredTwice(cells, a, [asn]);
    }
  }

  lemma StoredTwice(cells: seq<U32>, s: Slice, values: seq<U32>)
    requires s.Slice? && s.start + s.cap <= |cells|
    ensures AppendedCells(AppendedCells(cells, s, values), s, values) == AppendedCells(cells, s, values)
  {
  }

  /** Reverses the route's own memory and makes it the path of the flow. */
  method ReverseSource(msg: EnrichedFlow, src: Option<Route>) returns (srcAsPath: Slice)
    requires src.Some? ==> src.value.asPath.Valid()
    modifies msg`asPath, msg`validationStatus, if src.Some? then src.value.asPath.Memory() else {}
    ensures srcAsPath == (if src.Some? then src.value.asPath else Slice.Nil) && srcAsPath.Valid()
    ensures msg.asPath == if src.Some? then src.value.asPath else old(msg.asPath)
    ensures srcAsPath.Content() == Reversed(old(PathOf(src)))
    ensures srcAsPath.Slice? ==>
      srcAsPath.mem[..] == Flipped(old(srcAsPath.mem[..]), srcAsPath.start, srcAsPath.start + srcAsPath.len)
    ensures msg.validationStatus == if src.Some? then src.value.validation else old(msg.validationStatus)
  {
    hide Flipped;
    srcAsPath := Slice.Nil;
    if src.Some? {
      var path := src.value.asPath;
      Reverse(path);
      assert msg !in path.Memory();
      msg.asPath, srcAsPath := path, path;
      msg.validationStatus := src.value.validation;
    }
  }

  /** The slice to whose memory the source side may write: the chosen route's, or the flow's own path. */
  function Target(msg: EnrichedFlow, src: Option<Route>): Slice
    reads msg
  {
    if src.Some? then src.value.asPath else msg.asPath
  }

  /** What the source side makes of the memory cells of its target. */
  function SourceCells(cells: seq<U32>, target: Slice, reversed: bool, routerASN: U32): (after: seq<U32>)
    requires target.Slice? && target.len <= target.cap && target.start + target.cap <= |cells|
    ensures |after| == |cells|
  {
    var flipped := if reversed then Flipped(cells, target.start, target.start + target.len) else cells;
    if routerASN != 0 then AppendedCells(flipped, target, [routerASN]) else flipped
  }

  /** Where the flow's path stands after the source side: in the target's memory, or Nil if it moved from there. */
  function Extended(target: Slice, routerASN: U32): Slice {
    if routerASN == 0 then target
    else if target.Fits(1) then target.(len := target.len + 1)
    else Slice.Nil
  }

  /** The source side of the path, and the flow's path up to the router. */
  method TakeSource(msg: EnrichedFlow, src: Option<Route>, routerASN: U32) returns (srcAsPath: Slice)
    requires msg.asPath.Valid() && (src.Some? ==> src.value.asPath.Valid())
    modifies msg`asPath, msg`validationStatus, Target(msg, src).Memory()
    ensures srcAsPath.Valid() && msg.asPath.Valid() && SameOrApart(msg.asPath, srcAsPath)
    ensures srcAsPath.Content() == SourceHalf(old(PathOf(src)), routerASN)
    ensures msg.asPath.Content()
      == (if src.Some? then [] else old(msg.asPath.Content())) + SourceHalf(old(PathOf(src)), routerASN)
    ensures var t := old(Target(msg, src));
      t.Slice? ==> t.mem[..] == SourceCells(old(Target(msg, src).mem[..]), t, src.Some?, routerASN)
    ensures msg.validationStatus == if src.Some? then src.value.validation else old(msg.validationStatus)
    ensures var e := Extended(old(Target(msg, src)), routerASN);
      if e.Slice? then msg.asPath == e else fresh(msg.asPath.Memory())
  {
    hide Slice.Content, Flipped, AppendedCells, Reversed;
    srcAsPath := ReverseSource(msg, src);
    if routerASN != 0 {
      var both, source := AppendToBoth(msg.asPath, srcAsPath, routerASN);
      msg.asPath, srcAsPath := both, source;
    }
  }

  /** The annotations besides the paths. */
  datatype Notes = Notes(
    dstAs: U32, nextHopAs: U32, med: U32, localPref: U32, validation: Validation, nextHop: Bytes)

  function NotesIn(msg: EnrichedFlow): Notes
    reads msg
  {
    Notes(msg.dstAs, msg.nextHopAs, msg.med, msg.localPref, msg.validationStatus, msg.nextHop)
  }

  /** Without a destination route only the validation of the source route is taken over. */
  function SourceNotes(before: Notes, src: Option<Route>): Notes {
    if src.Some? then before.(validation := src.value.validation) else before
  }

  /** What the chosen route makes of the annotations; path is what its memory holds when its ends are read. */
  function DestinationNotes(before: Notes, dst: Option<Route>, path: seq<U32>, parseIP: IpParser): Notes {
    if dst.None? || path == [] then before
    else
      var nextHop := parseIP(dst.value.nextHop);
      Notes(path[|path| - 1], path[0], dst.value.med, dst.value.localPref, dst.value.validation,
            if nextHop.Some? then nextHop.value else before.nextHop)
  }

  /** Appends the destination half to the flow's path. */
  method Join(msg: EnrichedFlow, srcAsPath: Slice, dstAsPath: Slice)
    requires msg.asPath.Valid() && srcAsPath.Valid() && SameOrApart(msg.asPath, srcAsPath)
    requires dstAsPath.Valid() && !dstAsPath.IsEmpty() && dstAsPath.Memory() !! msg.asPath.Memory()
    modifies msg`asPath, msg.asPath.Memory()
    ensures msg.asPath.Valid() && msg.asPath.Content() == old(msg.asPath.Content()) + dstAsPath.Content()
    ensures srcAsPath.Content() == old(srcAsPath.Content()) && dstAsPath.Content() == old(dstAsPath.Content())
    ensures msg !in msg.asPath.Memory() && msg !in srcAsPath.Memory() && msg !in dstAsPath.Memory()
    ensures var path := old(msg.asPath);
      path.Slice? ==> path.mem[..] == AppendedCells(old(msg.asPath.mem[..]), path, dstAsPath.Content())
  {
    hide AppendedCells, Stored, Slice.Content;
    var whole := AppendBeside(msg.asPath, srcAsPath, dstAsPath.Content());
    assert msg !in whole.Memory() && msg !in srcAsPath.Memory() && msg !in dstAsPath.Memory();
    msg.asPath := whole;
  }

  /** What a slice holds after an append to another one, perhaps in the same memory. */
  function AfterAppend(window: Slice, path: Slice, values: seq<U32>): seq<U32>
    requires window.Valid() && path.Valid()
    reads window.Memory(), path.Memory()
  {
    if window.Slice? && path.Slice? && window.mem == path.mem then
      AppendedCells(path.mem[..], path, values)[window.start..window.start + window.len]
    else window.Content()
  }

  /** The destination side; the path of the source keeps its content. The ends of the destination route are read
      from its memory after the append to the flow's path, which can have written there. */
  method TakeDestination(msg: EnrichedFlow, srcAsPath: Slice, dst: Route, routerASN: U32, parseIP: IpParser)
    returns (dstAsPath: Slice)
    requires msg.asPath.Valid() && srcAsPath.Valid() && SameOrApart(msg.asPath, srcAsPath)
    requires dst.asPath.Valid() && !dst.asPath.IsEmpty()
    modifies msg, msg.asPath.Memory()
    ensures dstAsPath.Valid() && fresh(dstAsPath.Memory())
    ensures dstAsPath.Content() == DestinationHalf(old(dst.asPath.Content()), routerASN)
    ensures msg.asPath.Valid() && msg.asPath.Content() == old(msg.asPath.Content()) + dstAsPath.Content()
    ensures msg !in msg.asPath.Memory() && msg !in srcAsPath.Memory()
    ensures srcAsPath.Content() == old(srcAsPath.Content())
    ensures var path := old(AfterAppend(dst.asPath, msg.asPath, [routerASN] + dst.asPath.Content()));
      path != [] && NotesIn(msg) == DestinationNotes(old(NotesIn(msg)), Some(dst), path, parseIP)
  {
    hide AppendedCells, Stored, Slice.Content;
    WindowOf(dst.asPath);
    dstAsPath := Grow([routerASN] + dst.asPath.Content());
    ghost var cells := dst.asPath.mem[..];
    Join(msg, srcAsPath, dstAsPath);
    WindowOf(dst.asPath);
    assert old(msg.asPath).Memory() !! dst.asPath.Memory() ==> dst.asPath.mem[..] == cells;
    Describe(msg, dst, parseIP);
  }

  method Describe(msg: EnrichedFlow, dst: Route, parseIP: IpParser)
    requires dst.asPath.Valid() && !dst.asPath.IsEmpty()
    modifies msg`dstAs, msg`nextHopAs, msg`med, msg`localPref, msg`validationStatus, msg`nextHop
    ensures dst.asPath.Content() != []
    ensures NotesIn(msg) == DestinationNotes(old(NotesIn(msg)), Some(dst), dst.asPath.Content(), parseIP)
  {
    msg.med := dst.med;
    msg.localPref := dst.localPref;
    msg.validationStatus := dst.validation;
    var path := dst.asPath;
    msg.dstAs := path.mem[path.start + path.len - 1];
    msg.nextHopAs := path.mem[path.start];
    var nh := parseIP(dst.nextHop);
    if nh != None {
      msg.nextHop := nh.value;
    }
  }

  ghost predicate ValidRoutes(msg: EnrichedFlow, src: Option<Route>, dst: Option<Route>)
    reads msg
  {
    && msg.asPath.Valid() && (src.Some? ==> src.value.asPath.Valid()) && (dst.Some? ==> dst.value.asPath.Valid())
  }

  /** Whether the destination route lies in the memory to which the source side may write: both lookups can
      return slices of one array. */
  predicate Shared(msg: EnrichedFlow, src: Option<Route>, dst: Option<Route>)
    reads msg
  {
    var t := Target(msg, src);
    dst.Some? && dst.value.asPath.Slice? && t.Slice? && dst.value.asPath.mem == t.mem
  }

  /** The path that the destination route holds when it is copied, after the source side. */
  function SeenPath(msg: EnrichedFlow, src: Option<Route>, dst: Option<Route>, routerASN: U32): seq<U32>
    requires ValidRoutes(msg, src, dst)
    reads msg, Target(msg, src).Memory(), if dst.Some? then dst.value.asPath.Memory() else {}
  {
    var t := Target(msg, src);
    if Shared(msg, src, dst) then
      var window := dst.value.asPath;
      SourceCells(t.mem[..], t, src.Some?, routerASN)[window.start..window.start + window.len]
    else PathOf(dst)
  }

  /** What both sides make of the memory cells of the target; values is what the destination side appends. */
  function FinalCells(cells: seq<U32>, target: Slice, reversed: bool, routerASN: U32, values: seq<U32>)
    : (after: seq<U32>)
    requires target.Slice? && target.len <= target.cap && target.start + target.cap <= |cells|
    ensures |after| == |cells|
  {
    var source, path := SourceCells(cells, target, reversed, routerASN), Extended(target, routerASN);
    if path.Slice? then AppendedCells(source, path, values) else source
  }

  /** The path that the destination route holds when its ends are read, after both sides. */
  function PathAfter(msg: EnrichedFlow, src: Option<Route>, dst: Option<Route>, routerASN: U32): seq<U32>
    requires ValidRoutes(msg, src, dst)
    reads msg, Target(msg, src).Memory(), if dst.Some? then dst.value.asPath.Memory() else {}
  {
    var t, values := Target(msg, src), [routerASN] + SeenPath(msg, src, dst, routerASN);
    if Shared(msg, src, dst) then
      var window := dst.value.asPath;
      FinalCells(t.mem[..], t, src.Some?, routerASN, values)[window.start..window.start + window.len]
    else PathOf(dst)
  }

  /** Whether the source side leaves a cell as it is: in the reversed window it equals its mirror image, and
      behind the window it holds the router already if the router is stored there. */
  predicate CellKept(cells: seq<U32>, target: Slice, reversed: bool, routerASN: U32, k: nat)
    requires target.Slice? && target.len <= target.cap && target.start + target.cap <= |cells| && k < |cells|
  {
    var lo, hi := target.start, target.start + target.len;
    && (reversed && lo <= k < hi ==> cells[k] == cells[lo + hi - 1 - k])
    && (k == hi && routerASN != 0 && target.Fits(1) ==> cells[k] == routerASN)
  }

  lemma CellKeptIff(cells: seq<U32>, target: Slice, reversed: bool, routerASN: U32, k: nat)
    requires target.Slice? && target.len <= target.cap && target.start + target.cap <= |cells| && k < |cells|
    ensures SourceCells(cells, target, reversed, routerASN)[k] == cells[k]
      <==> CellKept(cells, target, reversed, routerASN, k)
  {
  }

  lemma WindowKeptIff(cells: seq<U32>, target: Slice, reversed: bool, routerASN: U32, lo: nat, hi: nat)
    requires target.Slice? && target.len <= target.cap && target.start + target.cap <= |cells| && lo <= hi <= |cells|
    ensures SourceCells(cells, target, reversed, routerASN)[lo..hi] == cells[lo..hi]
      <==> forall k | lo <= k < hi :: CellKept(cells, target, reversed, routerASN, k)
  {
    hide SourceCells, CellKept;
    var after := SourceCells(cells, target, reversed, routerASN);
    forall k | lo <= k < hi
      ensures after[k] == cells[k] <==> CellKept(cells, target, reversed, routerASN, k)
      ensures after[lo..hi][k - lo] == after[k] && cells[lo..hi][k - lo] == cells[k]
    {
      CellKeptIff(cells, target, reversed, routerASN, k);
    }
  }

  /** The destination copies its route as it was looked up if and only if the route lies in other memory than
      the source side's target or each of its cells is one that the source side leaves as it is. */
  lemma SeenIntactIff(msg: EnrichedFlow, src: Option<Route>, dst: Option<Route>, routerASN: U32)
    requires ValidRoutes(msg, src, dst)
    ensures SeenPath(msg, src, dst, routerASN) == PathOf(dst)
      <==> (Shared(msg, src, dst) ==>
        var t, window := Target(msg, src), dst.value.asPath;
        forall k | window.start <= k < window.start + window.len ::
          CellKept(t.mem[..], t, src.Some?, routerASN, k))
  {
    hide SourceCells, CellKept;
    if Shared(msg, src, dst) {
      var t, window := Target(msg, src), dst.value.asPath;
      WindowOf(window);
      WindowKeptIff(t.mem[..], t, src.Some?, routerASN, window.start, window.start + window.len);
    }
  }

  /** Whether a path reads the same in both directions. */
  predicate Symmetric(path: seq<U32>) {
    forall k :: 0 <= k < |path| ==> path[k] == path[|path| - 1 - k]
  }

  lemma SymmetricIff(path: seq<U32>)
    ensures Reversed(path) == path <==> Symmetric(path)
  {
    hide Reversed;
    forall k | 0 <= k < |path|
      ensures |Reversed(path)| == |path| && Reversed(path)[k] == path[|path| - 1 - k]
    {
      ReversedAt(path, k);
    }
    if Symmetric(path) {
      ReversedByIndex(path, path);
    }
  }

  /** If both addresses are looked up to the same route, the destination sees it reversed: as it was looked up if
      and only if it reads the same in both directions. */
  lemma SeenReversed(msg: EnrichedFlow, src: Option<Route>, dst: Option<Route>, routerASN: U32)
    requires ValidRoutes(msg, src, dst) && src.Some? && dst.Some? && src.value.asPath == dst.value.asPath
    ensures SeenPath(msg, src, dst, routerASN) == Reversed(PathOf(dst))
    ensures SeenPath(msg, src, dst, routerASN) == PathOf(dst) <==> Symmetric(PathOf(dst))
  {
    hide Symmetric;
    var t := src.value.asPath;
    if t.Slice? {
      hide Reversed;
      var cells, lo, hi := t.mem[..], t.start, t.start + t.len;
      FlippedWindow(cells, lo, hi);
      assert cells[lo..hi] == t.Content();
      if routerASN != 0 && t.Fits(1) {
        StoredWindow(Flipped(cells, lo, hi), lo, hi, [routerASN]);
      }
    }
    SymmetricIff(PathOf(dst));
  }

  /** Whether the append of so many values to the flow's path stores a value in a cell of the target's memory. */
  predicate Overwritten(target: Slice, routerASN: U32, count: nat, cell: nat) {
    var path := Extended(target, routerASN);
    path.Fits(count) && path.start + path.len <= cell < path.start + path.len + count
  }

  lemma AppendedAt(cells: seq<U32>, s: Slice, values: seq<U32>, k: nat)
    requires s.Slice? && s.len <= s.cap && s.start + s.cap <= |cells| && k < |cells|
    ensures var at := s.start + s.len;
      AppendedCells(cells, s, values)[k]
      == if s.Fits(|values|) && at <= k < at + |values| then values[k - at] else cells[k]
  {
  }

  /** An AS of the copied route stands in the route's memory when the ends are read if and only if the append to
      the flow's path did not store a value there, or stored the same. In particular, that decides whether
      NextHopAs and DstAs are the ends of the path that the flow was given. */
  lemma ReadAsSeenIff(msg: EnrichedFlow, src: Option<Route>, dst: Option<Route>, routerASN: U32, k: nat)
    requires ValidRoutes(msg, src, dst) && k < |PathOf(dst)|
    ensures |PathAfter(msg, src, dst, routerASN)| == |SeenPath(msg, src, dst, routerASN)| == |PathOf(dst)|
    ensures var t, seen := Target(msg, src), SeenPath(msg, src, dst, routerASN);
      PathAfter(msg, src, dst, routerASN)[k] == seen[k]
      <==> (Shared(msg, src, dst) && Overwritten(t, routerASN, 1 + |seen|, dst.value.asPath.start + k) ==>
        ([routerASN] + seen)[dst.value.asPath.start + k - Extended(t, routerASN).start - Extended(t, routerASN).len]
        == seen[k])
  {
    hide SourceCells, AppendedCells;
    if Shared(msg, src, dst) {
      var t, seen, window := Target(msg, src), SeenPath(msg, src, dst, routerASN), dst.value.asPath;
      var source, path := SourceCells(t.mem[..], t, src.Some?, routerASN), Extended(t, routerASN);
      if path.Slice? {
        AppendedAt(source, path, [routerASN] + seen, window.start + k);
      }
    }
  }

  /** A flow without a router AS whose source route has spare capacity in front of the destination route: the
      path ends with AS 30, but NextHopAs and DstAs become 0 and 20. */
  lemma EndsOverwritten(msg: EnrichedFlow, src: Option<Route>, dst: Option<Route>, mem: array<U32>)
    requires src.Some? && src.value.asPath == Slice.Slice(mem, 0, 1, 4) && dst.Some?
    requires dst.value.asPath == Slice.Slice(mem, 1, 2, 3) && msg.asPath.Valid()
    requires mem.Length == 4 && mem[0] == 10 && mem[1] == 20 && mem[2] == 30
    ensures SeenPath(msg, src, dst, 0) == PathOf(dst) == [20, 30] && PathAfter(msg, src, dst, 0) == [0, 20]
  {
    SeenIntactIff(msg, src, dst, 0);
    assert SeenPath(msg, src, dst, 0) == [20, 30];
  }

  lemma WindowOf(s: Slice)
    requires s.Slice? && s.Valid()
    ensures s.Content() == s.mem[..][s.start..s.start + s.len]
  {
  }

  /** What the flow held before, if there is no source route to replace it. */
  function Kept(msg: EnrichedFlow, src: Option<Route>): seq<U32>
    requires msg.asPath.Valid()
    reads msg, msg.asPath.Memory()
  {
    if src.Some? then [] else msg.asPath.Content()
  }

  method TakeSourceBeside(msg: EnrichedFlow, src: Option<Route>, dst: Option<Route>, routerASN: U32)
    returns (srcAsPath: Slice)
    requires ValidRoutes(msg, src, dst)
    modifies msg`asPath, msg`validationStatus, Target(msg, src).Memory()
    ensures srcAsPath.Valid() && msg.asPath.Valid() && SameOrApart(msg.asPath, srcAsPath)
    ensures srcAsPath.Content() == SourceHalf(old(PathOf(src)), routerASN)
    ensures msg.asPath.Content() == old(Kept(msg, src)) + SourceHalf(old(PathOf(src)), routerASN)
    ensures dst.Some? ==> PathOf(dst) == old(SeenPath(msg, src, dst, routerASN))
    ensures dst.Some? ==>
      AfterAppend(dst.value.asPath, msg.asPath, [routerASN] + PathOf(dst)) == old(PathAfter(msg, src, dst, routerASN))
    ensures msg.asPath.Memory() <= old(Target(msg, src).Memory()) || fresh(msg.asPath.Memory())
    ensures NotesIn(msg) == SourceNotes(old(NotesIn(msg)), src)
  {
    hide SourceCells, Reversed, SourceHalf, Slice.Content, AppendedCells;
    ghost var window := dst.Some? && dst.value.asPath.Slice?;
    ghost var cells := if window then dst.value.asPath.mem[..] else [];
    if window {
      WindowOf(dst.value.asPath);
    }
    srcAsPath := TakeSource(msg, src, routerASN);
    if window {
      WindowOf(dst.value.asPath);
      assert dst.value.asPath.Memory() !! old(Target(msg, src).Memory()) ==> dst.value.asPath.mem[..] == cells;
    }
  }

  /** The flow's path is what it held before, the source half and the destination half. */
  ghost predicate Assembled(msg: EnrichedFlow, before: seq<U32>, srcPath: seq<U32>, dstPath: seq<U32>, routerASN: U32)
    reads msg, msg.asPath.Memory(), msg.srcAsPath.Memory(), msg.dstAsPath.Memory()
  {
    && msg.asPath.Valid() && msg.srcAsPath.Valid() && msg.dstAsPath.Valid()
    && msg.srcAsPath.Content() == SourceHalf(srcPath, routerASN)
    && msg.dstAsPath.Content() == DestinationHalf(dstPath, routerASN)
    && msg.asPath.Content() == before + msg.srcAsPath.Content() + msg.dstAsPath.Content()
  }

  /** The destination side, if there is a route for it. */
  method TakeChosen(msg: EnrichedFlow, srcAsPath: Slice, dst: Option<Route>, routerASN: U32, parseIP: IpParser)
    returns (dstAsPath: Slice)
    requires msg.asPath.Valid() && srcAsPath.Valid() && SameOrApart(msg.asPath, srcAsPath)
    requires dst.Some? ==> dst.value.asPath.Valid() && !dst.value.asPath.IsEmpty()
    modifies msg, msg.asPath.Memory()
    ensures dstAsPath.Valid() && dstAsPath.Content() == DestinationHalf(old(PathOf(dst)), routerASN)
    ensures msg.asPath.Valid() && msg.asPath.Content() == old(msg.asPath.Content()) + dstAsPath.Content()
    ensures srcAsPath.Content() == old(srcAsPath.Content())
    ensures var path := if dst.Some? then
        old(AfterAppend(dst.value.asPath, msg.asPath, [routerASN] + PathOf(dst))) else [];
      && (dst.Some? ==> path != [])
      && NotesIn(msg) == DestinationNotes(old(NotesIn(msg)), dst, path, parseIP)
  {
    dstAsPath := Slice.Nil;
    if dst.Some? {
      hide Slice.Content, AfterAppend, DestinationHalf, DestinationNotes;
      dstAsPath := TakeDestination(msg, srcAsPath, dst.value, routerASN, parseIP);
    }
  }

  /** Both sides of the path, before the halves are stored in the flow. */
  method TakeBoth(msg: EnrichedFlow, src: Option<Route>, dst: Option<Route>, routerASN: U32, parseIP: IpParser)
    returns (srcAsPath: Slice, dstAsPath: Slice)
    requires ValidRoutes(msg, src, dst) && (dst.Some? ==> dst.value.Usable())
    modifies msg, Target(msg, src).Memory()
    ensures srcAsPath.Valid() && srcAsPath.Content() == SourceHalf(old(PathOf(src)), routerASN)
    ensures dstAsPath.Valid()
      && dstAsPath.Content() == DestinationHalf(old(SeenPath(msg, src, dst, routerASN)), routerASN)
    ensures msg.asPath.Valid()
      && msg.asPath.Content() == old(Kept(msg, src)) + srcAsPath.Content() + dstAsPath.Content()
    ensures var path := old(PathAfter(msg, src, dst, routerASN));
      && (dst.Some? ==> path != [])
      && NotesIn(msg) == DestinationNotes(SourceNotes(old(NotesIn(msg)), src), dst, path, parseIP)
  {
    assert dst.None? ==> SeenPath(msg, src, dst, routerASN) == [] == PathOf(dst);
    hide SourceHalf, DestinationHalf, Slice.Content, SeenPath, PathAfter, PathOf, AfterAppend, Kept, DestinationNotes;
    srcAsPath := TakeSourceBeside(msg, src, dst, routerASN);
    dstAsPath := TakeChosen(msg, srcAsPath, dst, routerASN, parseIP);
  }

  /** Annotates a flow with the routes chosen for its addresses, whatever the slices' capacities and however
      they share memory. */
  method Annotate(msg: EnrichedFlow, src: Option<Route>, dst: Option<Route>, routerASN: U32, parseIP: IpParser)
    requires ValidRoutes(msg, src, dst) && (dst.Some? ==> dst.value.Usable())
    modifies msg, Target(msg, src).Memory()
    ensures Assembled(msg, old(Kept(msg, src)), old(PathOf(src)), old(SeenPath(msg, src, dst, routerASN)), routerASN)
    ensures var path := old(PathAfter(msg, src, dst, routerASN));
      && (dst.Some? ==> path != [])
      && NotesIn(msg) == DestinationNotes(SourceNotes(old(NotesIn(msg)), src), dst, path, parseIP)
  {
    hide SourceHalf, DestinationHalf, SeenPath, PathAfter, PathOf, Kept, Slice.Content, DestinationNotes, SourceNotes;
    var srcAsPath, dstAsPath := TakeBoth(msg, src, dst, routerASN, parseIP);
    SetHalves(msg, srcAsPath, dstAsPath);
  }

  method SetHalves(msg: EnrichedFlow, srcAsPath: Slice, dstAsPath: Slice)
    requires msg.asPath.Valid() && srcAsPath.Valid() && dstAsPath.Valid()
    modifies msg`srcAsPath, msg`dstAsPath
    ensures msg.srcAsPath == srcAsPath && msg.dstAsPath == dstAsPath
    ensures msg.asPath.Content() == old(msg.asPath.Content())
    ensures srcAsPath.Content() == old(srcAsPath.Content()) && dstAsPath.Content() == old(dstAsPath.Content())
  {
    msg.srcAsPath := srcAsPath;
    msg.dstAsPath := dstAsPath;
  }

  /** What a flow's path lacks of being its two halves is what it held before. */
  lemma OnlyWhatItHeld(before: seq<U32>, a: seq<U32>, b: seq<U32>)
    ensures before + a + b == a + b <==> before == []
  {
    assert before == [] ==> before + a == a;
    assert |before + a + b| == |before| + |a + b|;
  }

  /** The body of the segment's loop, after the lookups. For all capacities of the slices, all ways in which they
      share memory and every router AS, the path is the source path followed by the destination path if and
      only if a best non-empty source route was found or the flow came without a path. */
  method Assemble(msg: EnrichedFlow, srcRoutes: seq<Route>, dstRoutes: seq<Route>, routerASN: U32, parseIP: IpParser)
    requires ValidRoutes(msg, First(srcRoutes), First(dstRoutes))
    modifies msg, Target(msg, First(srcRoutes)).Memory()
    ensures Assembled(msg, old(Kept(msg, First(srcRoutes))), old(PathOf(First(srcRoutes))),
      old(SeenPath(msg, First(srcRoutes), First(dstRoutes), routerASN)), routerASN)
    ensures msg.asPath.Content() == msg.srcAsPath.Content() + msg.dstAsPath.Content()
      <==> First(srcRoutes).Some? || old(msg.asPath.Content()) == []
    ensures First(dstRoutes).Some? ==>
      var dst, path, nextHop :=
        First(dstRoutes).value, old(PathAfter(msg, First(srcRoutes), First(dstRoutes), routerASN)), old(msg.nextHop);
      && path != []
      && NotesIn(msg) == Notes(path[|path| - 1], path[0], dst.med, dst.localPref, dst.validation,
           if parseIP(dst.nextHop).Some? then parseIP(dst.nextHop).value else nextHop)
    ensures First(dstRoutes).None? && First(srcRoutes).Some? ==>
      NotesIn(msg) == old(NotesIn(msg)).(validation := First(srcRoutes).value.validation)
    ensures First(dstRoutes).None? && First(srcRoutes).None? ==> NotesIn(msg) == old(NotesIn(msg))
  {
    hide Assembled, PathAfter, SeenPath, PathOf, First, Slice.Content;
    AssembleFirst(msg, srcRoutes, dstRoutes, routerASN, parseIP);
  }

  /** The loops over the routes and what follows them. */
  method AssembleFirst(
    msg: EnrichedFlow, srcRoutes: seq<Route>, dstRoutes: seq<Route>, routerASN: U32, parseIP: IpParser)
    requires ValidRoutes(msg, First(srcRoutes), First(dstRoutes))
    modifies msg, Target(msg, First(srcRoutes)).Memory()
    ensures Assembled(msg, old(Kept(msg, First(srcRoutes))), old(PathOf(First(srcRoutes))),
      old(SeenPath(msg, First(srcRoutes), First(dstRoutes), routerASN)), routerASN)
    ensures msg.asPath.Content() == msg.srcAsPath.Content() + msg.dstAsPath.Content()
      <==> old(Kept(msg, First(srcRoutes))) == []
    ensures var path := old(PathAfter(msg, First(srcRoutes), First(dstRoutes), routerASN));
      && (First(dstRoutes).Some? ==> path != [])
      && NotesIn(msg)
        == DestinationNotes(SourceNotes(old(NotesIn(msg)), First(srcRoutes)), First(dstRoutes), path, parseIP)
  {
    hide First, SourceCells, Reversed, SourceHalf, DestinationHalf, AppendedCells, DestinationNotes, SourceNotes;
    ghost var s, d, t := First(srcRoutes), First(dstRoutes), Target(msg, First(srcRoutes));
    assert s.Some? ==> s.value in srcRoutes;
    assert d.Some? ==> d.value in dstRoutes;
    assert d.Some? && d.value.asPath.Slice? ==> allocated(d.value.asPath.mem);
    assert t.Slice? ==> allocated(t.mem);
    var src := FindFirst(srcRoutes);
    var dst := FindFirst(dstRoutes);
    assert t.Slice? ==> t.mem[..] == old(t.mem[..]);
    assert d.Some? && d.value.asPath.Slice? ==> d.value.asPath.mem[..] == old(d.value.asPath.mem[..]);
    assert PathOf(src) == old(PathOf(s)) && PathOf(dst) == old(PathOf(d));
    assert SeenPath(msg, src, dst, routerASN) == old(SeenPath(msg, s, d, routerASN));
    assert PathAfter(msg, src, dst, routerASN) == old(PathAfter(msg, s, d, routerASN));
    assert Kept(msg, src) == old(Kept(msg, s));
    AssembleChosen(msg, src, dst, routerASN, parseIP);
  }

  /** The same for the routes that the loops have chosen. */
  method AssembleChosen(msg: EnrichedFlow, src: Option<Route>, dst: Option<Route>, routerASN: U32, parseIP: IpParser)
    requires ValidRoutes(msg, src, dst) && (dst.Some? ==> dst.value.Usable())
    modifies msg, Target(msg, src).Memory()
    ensures Assembled(msg, old(Kept(msg, src)), old(PathOf(src)), old(SeenPath(msg, src, dst, routerASN)), routerASN)
    ensures msg.asPath.Content() == msg.srcAsPath.Content() + msg.dstAsPath.Content() <==> old(Kept(msg, src)) == []
    ensures var path := old(PathAfter(msg, src, dst, routerASN));
      && (dst.Some? ==> path != [])
      && NotesIn(msg) == DestinationNotes(SourceNotes(old(NotesIn(msg)), src), dst, path, parseIP)
  {
    hide Slice.Content, SourceHalf, DestinationHalf, SeenPath, PathAfter, PathOf, Kept, DestinationNotes, SourceNotes;
    ghost var before := Kept(msg, src);
    Annotate(msg, src, dst, routerASN, parseIP);
    OnlyWhatItHeld(before, msg.srcAsPath.Content(), msg.dstAsPath.Content());
  }
}
