/** Which annotations earlier flows can leave in a filter's tree, and when they spoil an answer. */
module FilterRuns {
  import opened Words
  import opened FilterSyntax
  import opened FilterMeaning
  import opened FlowFilterSegment

  /** The lists of the passes-through matches, in visiting order. */
  function Lists(e: Expr): (lists: seq<seq<U64>>)
    ensures |lists| == Slots(e)
  {
    match e
    case Empty => []
    case Single(l) => StmtLists(l)
    case Join(l, _, r) => StmtLists(l) + Lists(r)
  }

  function StmtLists(s: Stmt): (lists: seq<seq<U64>>)
    ensures |lists| == StmtSlots(s)
  {
    match s.body
    case Directional(_, _) => []
    case Regular(m) => if m.PassesThrough? then [m.numbers] else []
    case SubExpr(e) => Lists(e)
  }

  /** A list as the path that it matches. */
  function PathOf(numbers: seq<U64>): (path: seq<U32>)
    ensures |path| == |numbers| && forall k :: 0 <= k < |path| ==> path[k] == Low32(numbers[k])
  {
    seq(|numbers|, k requires 0 <= k < |numbers| => Low32(numbers[k]))
  }

  /** What a walk over a flow leaves for one list. */
  ghost predicate Left(numbers: seq<U64>, path: seq<U32>, before: bool) {
    if Writes(numbers, path) then Occurs(numbers, path) else before
  }

  /** A walk treats every list on its own. */
  lemma {:induction false} NextAt(lib: Library, e: Expr, flow: Flow, left: seq<bool>, i: nat)
    requires |left| == Slots(e) && i < Slots(e)
    ensures Next(lib, e, flow, left)[i] == Left(Lists(e)[i], flow.asPath, left[i])
    decreases e
  {
    match e
    case Single(l) => StmtNextAt(lib, l, flow, left, i);
    case Join(l, _, r) =>
      hide Left, StmtNext, Next, StmtLists, Lists;
      var n := StmtSlots(l);
      NextOfJoin(lib, e, flow, left);
      if i < n {
        StmtNextAt(lib, l, flow, left[..n], i);
      } else {
        NextAt(lib, r, flow, left[n..], i - n);
      }
  }

  lemma NextOfJoin(lib: Library, e: Expr, flow: Flow, left: seq<bool>)
    requires e.Join? && |left| == Slots(e)
    ensures Lists(e) == StmtLists(e.left) + Lists(e.right)
    ensures var n := StmtSlots(e.left);
      Next(lib, e, flow, left) == StmtNext(lib, e.left, flow, left[..n]) + Next(lib, e.right, flow, left[n..])
  {
  }

  lemma {:induction false} StmtNextAt(lib: Library, s: Stmt, flow: Flow, left: seq<bool>, i: nat)
    requires |left| == StmtSlots(s) && i < StmtSlots(s)
    ensures StmtNext(lib, s, flow, left)[i] == Left(StmtLists(s)[i], flow.asPath, left[i])
    decreases s
  {
    if s.body.SubExpr? {
      NextAt(lib, s.body.expr, flow, left, i);
    }
  }

  // ---------------------------------------------------------------------------------------------
  // Annotations that runs can leave

  /** Equal lists carry equal annotations. */
  predicate Consistent(e: Expr, left: seq<bool>)
    requires |left| == Slots(e)
  {
    forall i, j :: 0 <= i < |left| && 0 <= j < |left| && Alike(Lists(e)[i], Lists(e)[j]) ==> left[i] == left[j]
  }

  predicate Alike(a: seq<U64>, b: seq<U64>) {
    PathOf(a) == PathOf(b)
  }

  lemma AlikeLeft(a: seq<U64>, b: seq<U64>, path: seq<U32>, before: bool)
    requires Alike(a, b)
    ensures Left(a, path, before) == Left(b, path, before)
  {
    assert |PathOf(a)| == |PathOf(b)|;
    forall i: nat
      ensures OccursAt(a, path, i) == OccursAt(b, path, i)
    {
      forall k | 0 <= k < |a|
        ensures Low32(a[k]) == Low32(b[k])
      {
        assert PathOf(a)[k] == PathOf(b)[k];
      }
    }
  }

  /** Whatever flows came before, equal lists carry equal annotations. */
  lemma {:induction false} RunsLeaveConsistent(lib: Library, e: Expr, flows: seq<Flow>)
    ensures Consistent(e, LeftoversAfter(lib, e, flows, Blank(Slots(e))))
  {
    if flows != [] {
      var earlier, last := flows[..|flows| - 1], flows[|flows| - 1];
      RunsLeaveConsistent(lib, e, earlier);
      var left := LeftoversAfter(lib, e, earlier, Blank(Slots(e)));
      hide Alike, Left, Next, LeftoversAfter;
      forall i, j | 0 <= i < |left| && 0 <= j < |left| && Alike(Lists(e)[i], Lists(e)[j])
        ensures Next(lib, e, last, left)[i] == Next(lib, e, last, left)[j]
      {
        NextAt(lib, e, last, left, i);
        NextAt(lib, e, last, left, j);
        AlikeLeft(Lists(e)[i], Lists(e)[j], last.asPath, left[i]);
      }
      AfterLast(lib, e, flows);
    }
  }

  lemma AfterLast(lib: Library, e: Expr, flows: seq<Flow>)
    requires flows != []
    ensures LeftoversAfter(lib, e, flows, Blank(Slots(e)))
      == Next(lib, e, flows[|flows| - 1], LeftoversAfter(lib, e, flows[..|flows| - 1], Blank(Slots(e))))
  {
  }

  /** No list is empty or part of a different one, and some AS number is in none of them. */
  ghost predicate Independent(e: Expr) {
    && (forall i :: 0 <= i < Slots(e) ==> Lists(e)[i] != [])
    && (forall i, j :: 0 <= i < Slots(e) && 0 <= j < Slots(e) && Occurs(Lists(e)[i], PathOf(Lists(e)[j])) ==>
          Alike(Lists(e)[i], Lists(e)[j]))
    && exists z: U32 :: Spare(Lists(e), z)
  }

  predicate Spare(lists: seq<seq<U64>>, z: U32) {
    forall i :: 0 <= i < |lists| ==> z !in PathOf(lists[i])
  }

  /** A path in which the wanted lists occur, kept apart by a number that is in none. */
  function Mosaic(lists: seq<seq<U64>>, wanted: seq<bool>, z: U32): seq<U32>
    requires |lists| == |wanted|
  {
    if lists == [] then []
    else
      var n := |lists| - 1;
      Mosaic(lists[..n], wanted[..n], z) + [z] + if wanted[n] then PathOf(lists[n]) else Filler(|lists[n]|, z)
  }

  function Filler(n: nat, z: U32): (path: seq<U32>)
    ensures |path| == n && forall k :: 0 <= k < n ==> path[k] == z
  {
    seq(n, k => z)
  }

  /** An occurrence covers only numbers of the list. */
  lemma OccurrenceIsOfList(numbers: seq<U64>, path: seq<U32>, i: nat, at: nat)
    requires OccursAt(numbers, path, i) && i <= at < i + |numbers|
    ensures path[at] in PathOf(numbers)
  {
    assert PathOf(numbers)[at - i] == path[i + (at - i)];
  }

  /** An occurrence does not reach across a number that is not in the list. */
  lemma OccursApart(numbers: seq<U64>, a: seq<U32>, z: U32, b: seq<U32>)
    requires numbers != [] && z !in PathOf(numbers)
    ensures Occurs(numbers, a + [z] + b) <==> Occurs(numbers, a) || Occurs(numbers, b)
  {
    var all := a + [z] + b;
    forall i: nat | OccursAt(numbers, all, i)
      ensures Occurs(numbers, a) || Occurs(numbers, b)
    {
      if i + |numbers| <= |a| {
        assert OccursAt(numbers, a, i);
      } else if i > |a| {
        assert OccursAt(numbers, b, i - |a| - 1);
      } else {
        OccurrenceIsOfList(numbers, all, i, |a|);
      }
    }
    forall i: nat | OccursAt(numbers, a, i)
      ensures OccursAt(numbers, all, i)
    {
    }
    forall i: nat | OccursAt(numbers, b, i)
      ensures OccursAt(numbers, all, |a| + 1 + i)
    {
    }
  }

  lemma NotInFiller(numbers: seq<U64>, n: nat, z: U32)
    requires numbers != [] && z !in PathOf(numbers)
    ensures !Occurs(numbers, Filler(n, z))
  {
    if i: nat :| OccursAt(numbers, Filler(n, z), i) {
      OccurrenceIsOfList(numbers, Filler(n, z), i, i);
    }
  }

  /** In a mosaic a list occurs exactly if it occurs in a wanted one. */
  lemma {:induction false} OccursInMosaic(numbers: seq<U64>, lists: seq<seq<U64>>, wanted: seq<bool>, z: U32)
    requires |lists| == |wanted| && numbers != [] && z !in PathOf(numbers)
    ensures Occurs(numbers, Mosaic(lists, wanted, z))
      <==> exists j :: 0 <= j < |lists| && wanted[j] && Occurs(numbers, PathOf(lists[j]))
  {
    if lists != [] {
      var n := |lists| - 1;
      var front := lists[..n];
      OccursInMosaic(numbers, front, wanted[..n], z);
      hide Occurs;
      var last := if wanted[n] then PathOf(lists[n]) else Filler(|lists[n]|, z);
      OccursApart(numbers, Mosaic(front, wanted[..n], z), z, last);
      NotInFiller(numbers, |lists[n]|, z);
      assert forall j :: 0 <= j < n ==> front[j] == lists[j];
    } else {
      assert !Occurs(numbers, []);
    }
  }

  lemma {:induction false} MosaicIsLong(lists: seq<seq<U64>>, wanted: seq<bool>, z: U32, i: nat)
    requires |lists| == |wanted| && i < |lists|
    ensures |lists[i]| < |Mosaic(lists, wanted, z)|
  {
    var n := |lists| - 1;
    if i < n {
      MosaicIsLong(lists[..n], wanted[..n], z, i);
    }
  }

  lemma ListOccursInItself(numbers: seq<U64>)
    ensures Occurs(numbers, PathOf(numbers))
  {
    assert OccursAt(numbers, PathOf(numbers), 0);
  }

  /** A single flow can leave any consistent annotations in an independent filter. */
  lemma OneFlowLeaves(lib: Library, e: Expr, left: seq<bool>) returns (flow: Flow)
    requires Independent(e) && |left| == Slots(e) && Consistent(e, left)
    ensures LeftoversAfter(lib, e, [flow], Blank(Slots(e))) == left
  {
    var z: U32 :| Spare(Lists(e), z);
    flow := EMPTY_FLOW.(asPath := Mosaic(Lists(e), left, z));
    forall i | 0 <= i < Slots(e)
      ensures Next(lib, e, flow, Blank(Slots(e)))[i] == left[i]
    {
      MosaicLeaves(e, left, z, i);
      hide Left, Mosaic;
      NextAt(lib, e, flow, Blank(Slots(e)), i);
    }
    hide Next, Mosaic;
    AfterOne(lib, e, flow);
  }

  lemma MosaicLeaves(e: Expr, left: seq<bool>, z: U32, i: nat)
    requires Independent(e) && |left| == Slots(e) && Consistent(e, left) && Spare(Lists(e), z) && i < Slots(e)
    ensures Left(Lists(e)[i], Mosaic(Lists(e), left, z), false) == left[i]
  {
    hide Occurs, Mosaic, Alike;
    var numbers := Lists(e)[i];
    MosaicIsLong(Lists(e), left, z, i);
    OccursInMosaic(numbers, Lists(e), left, z);
    ListOccursInItself(numbers);
  }

  lemma AfterOne(lib: Library, e: Expr, flow: Flow)
    ensures LeftoversAfter(lib, e, [flow], Blank(Slots(e))) == Next(lib, e, flow, Blank(Slots(e)))
  {
    assert [flow][..0] == [];
    assert LeftoversAfter(lib, e, [], Blank(Slots(e))) == Blank(Slots(e));
  }

  // ---------------------------------------------------------------------------------------------
  // When every run of earlier flows leaves the answer right

  /** The answer after these flows is the meaning. */
  ghost predicate RightAfter(lib: Library, e: Expr, flow: Flow, flows: seq<Flow>) {
    Answer(lib, e, flow, LeftoversAfter(lib, e, flows, Blank(Slots(e)))) == Meaning(lib, e, flow)
  }

  ghost predicate RightWith(lib: Library, e: Expr, flow: Flow, left: seq<bool>)
    requires |left| == Slots(e)
  {
    Answer(lib, e, flow, left) == Meaning(lib, e, flow)
  }

  /** For an independent filter, the answer is the meaning after every run of earlier flows exactly if it is
      the meaning for all annotations that are equal for equal lists. */
  lemma RightAfterRunsIff(lib: Library, e: Expr, flow: Flow)
    requires Independent(e)
    ensures (forall flows :: RightAfter(lib, e, flow, flows))
      <==> (forall left: seq<bool> | |left| == Slots(e) && Consistent(e, left) :: RightWith(lib, e, flow, left))
  {
    hide Independent, Consistent, Answer, Meaning, LeftoversAfter;
    if forall flows :: RightAfter(lib, e, flow, flows) {
      forall left: seq<bool> | |left| == Slots(e) && Consistent(e, left)
        ensures RightWith(lib, e, flow, left)
      {
        var earlier := OneFlowLeaves(lib, e, left);
        assert RightAfter(lib, e, flow, [earlier]);
      }
    }
    if forall left: seq<bool> | |left| == Slots(e) && Consistent(e, left) :: RightWith(lib, e, flow, left) {
      forall flows
        ensures RightAfter(lib, e, flow, flows)
      {
        RunsLeaveConsistent(lib, e, flows);
        assert RightWith(lib, e, flow, LeftoversAfter(lib, e, flows, Blank(Slots(e))));
      }
    }
  }

  /** No list occurs twice. */
  predicate Distinct(e: Expr) {
    forall i, j :: 0 <= i < Slots(e) && 0 <= j < Slots(e) && i != j ==> !Alike(Lists(e)[i], Lists(e)[j])
  }

  /** For an independent filter without repeated lists, the answer is the meaning after every run of earlier
      flows exactly if the flow settles the filter. */
  lemma RightAfterRunsIffSettled(lib: Library, e: Expr, flow: Flow)
    requires Independent(e) && Distinct(e)
    ensures (forall flows :: RightAfter(lib, e, flow, flows)) <==> Settled(lib, e, flow).Some?
  {
    hide Independent, Answer, Meaning, LeftoversAfter, Settled, Alike;
    RightAfterRunsIff(lib, e, flow);
    AnswerIsMeaningIffSettled(lib, e, flow);
    forall left: seq<bool> | |left| == Slots(e)
      ensures Consistent(e, left)
      ensures RightWith(lib, e, flow, left) == (Answer(lib, e, flow, left) == Meaning(lib, e, flow))
    {
    }
  }

  /** A filter with one passes-through match, in any context and with any list: the tree as parsed holds one
      annotation, and a flow whose path is the list leaves the other. */
  lemma OneListLeavesBoth(lib: Library, e: Expr, wanted: bool) returns (flows: seq<Flow>)
    requires Slots(e) == 1
    ensures LeftoversAfter(lib, e, flows, Blank(Slots(e))) == [wanted]
  {
    if wanted {
      var numbers := Lists(e)[0];
      var flow := EMPTY_FLOW.(asPath := if numbers == [] then [0] else PathOf(numbers));
      flows := [flow];
      assert OccursAt(numbers, flow.asPath, 0);
      NextAt(lib, e, flow, Blank(Slots(e)), 0);
      hide Next;
      AfterOne(lib, e, flow);
    } else {
      flows := [];
    }
  }

  /** For such a filter, the answer is the meaning after every run exactly if the flow settles the filter. */
  lemma OneListRightIffSettled(lib: Library, e: Expr, flow: Flow)
    requires Slots(e) == 1
    ensures (forall flows :: RightAfter(lib, e, flow, flows)) <==> Settled(lib, e, flow).Some?
  {
    hide Answer, Meaning, LeftoversAfter, Settled;
    if Settled(lib, e, flow).Some? {
      forall flows
        ensures RightAfter(lib, e, flow, flows)
      {
        SettledAnswer(lib, e, flow, LeftoversAfter(lib, e, flows, Blank(Slots(e))));
      }
    } else {
      var left := UnsettledAnswer(lib, e, flow, !Meaning(lib, e, flow));
      var flows := OneListLeavesBoth(lib, e, left[0]);
      assert left == [left[0]];
      assert !RightAfter(lib, e, flow, flows);
    }
  }

  /** Being settled is not needed in general: "passes-through n and not passes-through n" is not settled by
      a flow without a path, but all annotations that runs can leave give the right answer. */
  lemma RepeatedListIsRight(lib: Library, n: U64, flow: Flow, flows: seq<Flow>)
    requires flow.asPath == []
    ensures var same := Regular(PassesThrough([n]));
      var e := Join(Stmt(false, same), And, Single(Stmt(true, same)));
      Settled(lib, e, flow).None? && RightAfter(lib, e, flow, flows)
  {
    var l, r := Stmt(false, Regular(PassesThrough([n]))), Stmt(true, Regular(PassesThrough([n])));
    var e := Join(l, And, Single(r));
    RunsLeaveConsistent(lib, e, flows);
    var left := LeftoversAfter(lib, e, flows, Blank(Slots(e)));
    assert StmtLists(l) == [[n]] && StmtLists(r) == [[n]] && StmtSlots(l) == 1 && StmtSlots(r) == 1;
    assert Lists(e.right) == [[n]] && Slots(e.right) == 1;
    assert Lists(e) == [[n]] + [[n]];
    assert Alike(Lists(e)[0], Lists(e)[1]);
    assert left[0] == left[1];
    hide LeftoversAfter;
    assert StmtAnswer(lib, l, flow, left[..1]) == left[0] && StmtAnswer(lib, r, flow, left[1..]) == !left[1];
    assert Answer(lib, e.right, flow, left[1..]) == !left[1] && !Answer(lib, e, flow, left);
    assert StmtMeaning(lib, l, flow) == !StmtMeaning(lib, r, flow);
    assert Meaning(lib, e.right, flow) == StmtMeaning(lib, r, flow) && !Meaning(lib, e, flow);
    assert StmtSettled(lib, l, flow).None? && Settled(lib, e.right, flow).None?;
  }

  // ---------------------------------------------------------------------------------------------
  // For every filter: finitely many short runs decide

  /** The annotation of one list after a run. */
  ghost predicate At(numbers: seq<U64>, flows: seq<Flow>) {
    flows != [] && Left(numbers, flows[|flows| - 1].asPath, At(numbers, flows[..|flows| - 1]))
  }

  lemma {:induction false} LeftoverAt(lib: Library, e: Expr, flows: seq<Flow>, i: nat)
    requires i < Slots(e)
    ensures LeftoversAfter(lib, e, flows, Blank(Slots(e)))[i] == At(Lists(e)[i], flows)
  {
    hide Left, Next;
    if flows != [] {
      var earlier, last := flows[..|flows| - 1], flows[|flows| - 1];
      LeftoverAt(lib, e, earlier, i);
      NextAt(lib, e, last, LeftoversAfter(lib, e, earlier, Blank(Slots(e))), i);
    }
  }

  /** The positions of the lists that a path writes. */
  function WrittenBy(lists: seq<seq<U64>>, path: seq<U32>): (written: set<nat>)
    ensures written <= Positions(lists)
  {
    set i | i in Positions(lists) && Writes(lists[i], path)
  }

  function Positions(lists: seq<seq<U64>>): (positions: set<nat>)
    ensures forall i: nat :: i in positions <==> i < |lists|
    ensures |positions| == |lists|
  {
    if lists == [] then {} else Positions(lists[..|lists| - 1]) + {|lists| - 1}
  }

  /** The flows of a run that are the last to write some list outside a set. */
  function LastWriters(lists: seq<seq<U64>>, flows: seq<Flow>, covered: set<nat>): seq<Flow> {
    if flows == [] then []
    else
      var earlier, last := flows[..|flows| - 1], flows[|flows| - 1];
      var more := WrittenBy(lists, last.asPath) - covered;
      if more == {} then LastWriters(lists, earlier, covered)
      else LastWriters(lists, earlier, covered + more) + [last]
  }

  lemma {:induction false} LastWritersAreFew(lists: seq<seq<U64>>, flows: seq<Flow>, covered: set<nat>)
    requires covered <= Positions(lists)
    ensures |LastWriters(lists, flows, covered)| + |covered| <= |lists|
  {
    Fewer(covered, Positions(lists));
    if flows != [] {
      var earlier, last := flows[..|flows| - 1], flows[|flows| - 1];
      var more := WrittenBy(lists, last.asPath) - covered;
      if more == {} {
        LastWritersAreFew(lists, earlier, covered);
      } else {
        LastWritersAreFew(lists, earlier, covered + more);
        assert |covered + more| == |covered| + |more|;
      }
    }
  }

  lemma {:induction false} Fewer(a: set<nat>, b: set<nat>)
    requires a <= b
    ensures |a| <= |b|
  {
    if a != {} {
      var x :| x in a;
      Fewer(a - {x}, b - {x});
    }
  }

  /** They alone leave the same. */
  lemma {:induction false} LastWritersLeaveTheSame(lists: seq<seq<U64>>, flows: seq<Flow>, covered: set<nat>, i: nat)
    requires i < |lists| && i !in covered
    ensures At(lists[i], LastWriters(lists, flows, covered)) == At(lists[i], flows)
  {
    hide Occurs, Positions;
    if flows != [] {
      var earlier, last := flows[..|flows| - 1], flows[|flows| - 1];
      var more := WrittenBy(lists, last.asPath) - covered;
      assert i in Positions(lists);
      if more == {} {
        assert i in WrittenBy(lists, last.asPath) ==> i in more;
        LastWritersLeaveTheSame(lists, earlier, covered, i);
      } else {
        var kept := LastWriters(lists, earlier, covered + more);
        assert (kept + [last])[..|kept|] == kept;
        if !Writes(lists[i], last.asPath) {
          assert i !in covered + more;
          LastWritersLeaveTheSame(lists, earlier, covered + more, i);
        }
      }
    }
  }

  /** A number of one of the lists. */
  predicate InLists(lists: seq<seq<U64>>, x: U32) {
    exists j :: 0 <= j < |lists| && x in PathOf(lists[j])
  }

  function Bound(lists: seq<seq<U64>>): nat {
    if lists == [] then 0 else Bound(lists[..|lists| - 1]) + |lists[|lists| - 1]| + 1
  }

  /** A path of bounded length over the numbers of the lists and one more. */
  predicate Small(lists: seq<seq<U64>>, z: U32, path: seq<U32>) {
    |path| <= Bound(lists) && forall k :: 0 <= k < |path| ==> path[k] == z || InLists(lists, path[k])
  }

  function Renamed(lists: seq<seq<U64>>, z: U32, path: seq<U32>): (renamed: seq<U32>)
    ensures |renamed| == |path|
    ensures forall k :: 0 <= k < |path| ==> renamed[k] == if InLists(lists, path[k]) then path[k] else z
  {
    seq(|path|, k requires 0 <= k < |path| => if InLists(lists, path[k]) then path[k] else z)
  }

  /** Numbers that are in no list do not matter. */
  lemma RenamedOccurs(lists: seq<seq<U64>>, z: U32, path: seq<U32>, i: nat)
    requires Spare(lists, z) && i < |lists|
    ensures Occurs(lists[i], Renamed(lists, z, path)) <==> Occurs(lists[i], path)
  {
    var numbers := lists[i];
    forall at: nat
      ensures OccursAt(numbers, Renamed(lists, z, path), at) <==> OccursAt(numbers, path, at)
    {
      forall k | 0 <= k < |numbers| && at + |numbers| <= |path|
        ensures Low32(numbers[k]) == Renamed(lists, z, path)[at + k] <==> Low32(numbers[k]) == path[at + k]
      {
        assert PathOf(numbers)[k] == Low32(numbers[k]);
        assert InLists(lists, Low32(numbers[k]));
        assert z !in PathOf(numbers);
      }
    }
  }

  lemma {:induction false} MosaicIsSmall(lists: seq<seq<U64>>, wanted: seq<bool>, z: U32)
    requires |lists| == |wanted|
    ensures Small(lists, z, Mosaic(lists, wanted, z)) && |Mosaic(lists, wanted, z)| == Bound(lists)
  {
    if lists != [] {
      var n := |lists| - 1;
      var front := lists[..n];
      MosaicIsSmall(front, wanted[..n], z);
      forall x | InLists(front, x) || x in PathOf(lists[n])
        ensures InLists(lists, x)
      {
        if InLists(front, x) {
          var j :| 0 <= j < |front| && x in PathOf(front[j]);
          assert x in PathOf(lists[j]);
        }
      }
    }
  }

  lemma {:induction false} ListsFit(lists: seq<seq<U64>>, i: nat)
    requires i < |lists|
    ensures |lists[i]| < Bound(lists)
  {
    if i < |lists| - 1 {
      ListsFit(lists[..|lists| - 1], i);
    }
  }

  /** For every path there is a small one that a walk treats alike. */
  lemma SmallPath(lists: seq<seq<U64>>, z: U32, path: seq<U32>) returns (small: seq<U32>)
    requires Spare(lists, z)
    ensures Small(lists, z, small)
    ensures forall i, before :: 0 <= i < |lists| ==> Left(lists[i], small, before) == Left(lists[i], path, before)
  {
    if |path| <= Bound(lists) {
      small := Renamed(lists, z, path);
      forall i | 0 <= i < |lists|
        ensures Occurs(lists[i], small) <==> Occurs(lists[i], path)
      {
        RenamedOccurs(lists, z, path, i);
      }
      hide Occurs, Renamed;
    } else {
      var wanted := Present(lists, path);
      small := Mosaic(lists, wanted, z);
      MosaicIsSmall(lists, wanted, z);
      forall i | 0 <= i < |lists|
        ensures |lists[i]| < Bound(lists) && (Occurs(lists[i], small) <==> Occurs(lists[i], path))
      {
        ListsFit(lists, i);
        PresentInMosaic(lists, z, path, i);
      }
      hide Occurs, Mosaic, Small;
    }
  }

  ghost function Present(lists: seq<seq<U64>>, path: seq<U32>): (present: seq<bool>)
    ensures |present| == |lists| && forall i :: 0 <= i < |lists| ==> present[i] == Occurs(lists[i], path)
  {
    seq(|lists|, i requires 0 <= i < |lists| => Occurs(lists[i], path))
  }

  /** The mosaic of the lists that occur in a path has the same lists in it. */
  lemma PresentInMosaic(lists: seq<seq<U64>>, z: U32, path: seq<U32>, i: nat)
    requires Spare(lists, z) && i < |lists|
    ensures Occurs(lists[i], Mosaic(lists, Present(lists, path), z)) <==> Occurs(lists[i], path)
  {
    var numbers, wanted := lists[i], Present(lists, path);
    if numbers == [] {
      assert OccursAt(numbers, Mosaic(lists, wanted, z), 0) && OccursAt(numbers, path, 0);
    } else {
      OccursInMosaic(numbers, lists, wanted, z);
      ListOccursInItself(numbers);
      forall j | 0 <= j < |lists| && Occurs(numbers, PathOf(lists[j])) && Occurs(lists[j], path)
        ensures Occurs(numbers, path)
      {
        OccursWithin(numbers, lists[j], path);
      }
      hide Occurs, Mosaic, Present;
    }
  }

  lemma OccursWithin(a: seq<U64>, b: seq<U64>, path: seq<U32>)
    requires Occurs(a, PathOf(b)) && Occurs(b, path)
    ensures Occurs(a, path)
  {
    var i: nat :| OccursAt(a, PathOf(b), i);
    var j: nat :| OccursAt(b, path, j);
    forall k | 0 <= k < |a|
      ensures Low32(a[k]) == path[j + i + k]
    {
      assert PathOf(b)[i + k] == Low32(b[i + k]) == path[j + (i + k)];
    }
    assert OccursAt(a, path, j + i);
  }

  /** A run of small paths that leaves what a given run leaves. */
  lemma {:induction false} SmallRun(lists: seq<seq<U64>>, z: U32, flows: seq<Flow>) returns (small: seq<Flow>)
    requires Spare(lists, z)
    ensures |small| == |flows| && forall k :: 0 <= k < |small| ==> Small(lists, z, small[k].asPath)
    ensures forall i :: 0 <= i < |lists| ==> At(lists[i], small) == At(lists[i], flows)
  {
    hide Small, Left;
    if flows == [] {
      small := [];
    } else {
      var n := |flows| - 1;
      var front := SmallRun(lists, z, flows[..n]);
      var path := SmallPath(lists, z, flows[n].asPath);
      small := front + [flows[n].(asPath := path)];
      assert small[..n] == front;
    }
  }

  /** A run that is worth checking: no more flows than lists, all with small paths. */
  predicate ShortRun(e: Expr, z: U32, flows: seq<Flow>) {
    |flows| <= Slots(e) && forall k :: 0 <= k < |flows| ==> Small(Lists(e), z, flows[k].asPath)
  }

  /** For every filter, and a number z that is in none of its lists: the answer is the meaning after every run
      of earlier flows if and only if it is after every run of at most as many flows as there are lists, with
      paths of bounded length over the numbers of the lists and z. These are finitely many paths. */
  lemma RightAfterShortRunsIff(lib: Library, e: Expr, flow: Flow, z: U32)
    requires Spare(Lists(e), z)
    ensures (forall flows :: RightAfter(lib, e, flow, flows))
      <==> (forall flows | ShortRun(e, z, flows) :: RightAfter(lib, e, flow, flows))
  {
    if forall flows | ShortRun(e, z, flows) :: RightAfter(lib, e, flow, flows) {
      forall flows
        ensures RightAfter(lib, e, flow, flows)
      {
        var short := ShortRunFor(lib, e, z, flows);
        assert RightAfter(lib, e, flow, short);
      }
    }
  }

  lemma ShortRunFor(lib: Library, e: Expr, z: U32, flows: seq<Flow>) returns (short: seq<Flow>)
    requires Spare(Lists(e), z)
    ensures ShortRun(e, z, short)
    ensures LeftoversAfter(lib, e, short, Blank(Slots(e))) == LeftoversAfter(lib, e, flows, Blank(Slots(e)))
  {
    hide Small, At, LeftoversAfter, LastWriters, Spare;
    var last := LastWriters(Lists(e), flows, {});
    LastWritersAreFew(Lists(e), flows, {});
    short := SmallRun(Lists(e), z, last);
    forall i | 0 <= i < Slots(e)
      ensures LeftoversAfter(lib, e, short, Blank(Slots(e)))[i] == LeftoversAfter(lib, e, flows, Blank(Slots(e)))[i]
    {
      LastWritersLeaveTheSame(Lists(e), flows, {}, i);
      LeftoverAt(lib, e, short, i);
      LeftoverAt(lib, e, flows, i);
    }
  }
}
