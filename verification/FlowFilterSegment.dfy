/** The flowfilter segment: a dry run when it is built, then one verdict per message, all on one tree. */
module FlowFilterSegment {
  import opened Words
  import opened FilterSyntax
  import opened FilterMeaning
  import opened FilterVisitor

  const EMPTY_FLOW: Flow := Flow(
    [], [], [], [], 0, 0, 0, [], 0, 0, 0, 0, 0, 0, 0, 0, 0, 0, 0, 0, 0, 0, 0, 0, 0, 0,
    "", "", "", "", 0, 0, 0, 0, 0, 0, 0, 0, 0, 0, "")

  /** The annotations that walks over these flows leave behind. */
  ghost function LeftoversAfter(lib: Library, e: Expr, flows: seq<Flow>, left: seq<bool>): (after: seq<bool>)
    requires |left| == Slots(e)
    ensures |after| == Slots(e)
  {
    if flows == [] then left
    else Next(lib, e, flows[|flows| - 1], LeftoversAfter(lib, e, flows[..|flows| - 1], left))
  }

  /** The flows that get the given verdict, in order, when the tree starts with these leftovers. */
  ghost function Judged(lib: Library, e: Expr, flows: seq<Flow>, left: seq<bool>, verdict: bool): seq<Flow>
    requires |left| == Slots(e)
  {
    if flows == [] then []
    else
      var earlier, last := flows[..|flows| - 1], flows[|flows| - 1];
      Judged(lib, e, earlier, left, verdict)
      + if Answer(lib, e, last, LeftoversAfter(lib, e, earlier, left)) == verdict then [last] else []
  }

  lemma JudgedStep(lib: Library, e: Expr, flows: seq<Flow>, i: nat, left: seq<bool>)
    requires |left| == Slots(e) && i < |flows|
    ensures var before := LeftoversAfter(lib, e, flows[..i], left);
      && LeftoversAfter(lib, e, flows[..i + 1], left) == Next(lib, e, flows[i], before)
      && (forall verdict :: Judged(lib, e, flows[..i + 1], left, verdict) ==
            Judged(lib, e, flows[..i], left, verdict) +
            if Answer(lib, e, flows[i], before) == verdict then [flows[i]] else [])
  {
    assert flows[..i + 1][..i] == flows[..i];
  }

  /** The flows with the given meaning, in order. */
  ghost function Meant(lib: Library, e: Expr, flows: seq<Flow>, verdict: bool): seq<Flow> {
    if flows == [] then []
    else
      var last := flows[|flows| - 1];
      Meant(lib, e, flows[..|flows| - 1], verdict) + if Meaning(lib, e, last) == verdict then [last] else []
  }

  /** Over a run of settled flows the segment selects by meaning alone, whatever the tree held before. */
  lemma {:induction false} RunSelectsByMeaning(lib: Library, e: Expr, flows: seq<Flow>, left: seq<bool>, verdict: bool)
    requires |left| == Slots(e)
    requires forall i :: 0 <= i < |flows| ==> Settled(lib, e, flows[i]).Some?
    ensures Judged(lib, e, flows, left, verdict) == Meant(lib, e, flows, verdict)
  {
    if flows != [] {
      var earlier, last := flows[..|flows| - 1], flows[|flows| - 1];
      RunSelectsByMeaning(lib, e, earlier, left, verdict);
      SettledAnswer(lib, e, last, LeftoversAfter(lib, e, earlier, left));
    }
  }

  /** An empty AS path leaves every leftover as it was; the dry run is such a walk. */
  lemma {:induction false} EmptyPathKeepsLeftovers(lib: Library, e: Expr, flow: Flow, left: seq<bool>)
    requires |left| == Slots(e) && flow.asPath == []
    ensures Next(lib, e, flow, left) == left
    decreases e
  {
    match e
    case Empty =>
    case Single(l) => StmtEmptyPathKeepsLeftovers(lib, l, flow, left);
    case Join(l, _, r) =>
      StmtEmptyPathKeepsLeftovers(lib, l, flow, left[..StmtSlots(l)]);
      EmptyPathKeepsLeftovers(lib, r, flow, left[StmtSlots(l)..]);
  }

  lemma {:induction false} StmtEmptyPathKeepsLeftovers(lib: Library, s: Stmt, flow: Flow, left: seq<bool>)
    requires |left| == StmtSlots(s) && flow.asPath == []
    ensures StmtNext(lib, s, flow, left) == left
    decreases s
  {
    if s.body.SubExpr? { EmptyPathKeepsLeftovers(lib, s.body.expr, flow, left); }
  }

  class FlowFilter {
    const lib: Library
    const expression: Expression
    var out: seq<Flow>       // messages sent to Out
    var drops: seq<Flow>     // messages sent to Drops
    var subscribed: bool     // Drops != nil

    ghost predicate Valid() {
      expression.Valid() && this !in expression.nodes && !Rejected(expression.tree)
    }

    constructor (lib: Library, expression: Expression)
      requires expression.Valid() && !Rejected(expression.tree)
      ensures Valid() && this.lib == lib && this.expression == expression
      ensures out == [] && drops == [] && !subscribed
    {
      this.lib := lib;
      this.expression := expression;
      out, drops, subscribed := [], [], false;
      new;
    }

    /** Run over the messages received until In is closed. Errors need no handling: Valid() rules them out. */
    method Run(input: seq<Flow>)
      requires Valid()
      modifies `out, `drops, expression.nodes
      ensures Processed(input, old(expression.Leftovers()), old(out), old(drops))
    {
      var filter := new Filter(lib, EMPTY_FLOW);
      ghost var start, out0, drops0 := expression.Leftovers(), out, drops;
      for i := 0 to |input|
        invariant Processed(input[..i], start, out0, drops0)
      {
        Forward(filter, input, i, start, out0, drops0);
      }
      assert input[..|input|] == input;
    }

    /** What Run has done after these messages. */
    ghost predicate Processed(input: seq<Flow>, start: seq<bool>, out0: seq<Flow>, drops0: seq<Flow>)
      requires Valid() && |start| == Slots(expression.tree)
      reads this, expression.nodes
    {
      && expression.Leftovers() == LeftoversAfter(lib, expression.tree, input, start)
      && out == out0 + Judged(lib, expression.tree, input, start, true)
      && drops == drops0 + if subscribed then Judged(lib, expression.tree, input, start, false) else []
    }

    /** One iteration: the message goes to Out, to Drops, or nowhere. */
    method Forward(filter: Filter, input: seq<Flow>, i: nat, ghost start: seq<bool>, ghost out0: seq<Flow>,
                   ghost drops0: seq<Flow>)
      requires Valid() && filter.lib == lib && filter !in expression.nodes
      requires |start| == Slots(expression.tree) && i < |input| && Processed(input[..i], start, out0, drops0)
      modifies filter, `out, `drops, expression.nodes
      ensures Processed(input[..i + 1], start, out0, drops0)
    {
      JudgedStep(lib, expression.tree, input, i, start);
      var msg := input[i];
      var matched, _ := filter.CheckFlow(expression, msg);
      if matched {
        out := out + [msg];
      } else if subscribed {
        drops := drops + [msg];
      }
    }
  }

  /** New: no segment for a filter that does not parse (null) or whose dry run on an empty flow fails.
      Whether the dry run fails depends on the tree alone, and it leaves the annotations that matter alone. */
  method New(lib: Library, parsed: Expression?) returns (segment: FlowFilter?)
    requires parsed != null ==> parsed.Valid()
    modifies if parsed == null then {} else parsed.nodes
    ensures segment == null <==> parsed == null || Rejected(parsed.tree)
    ensures segment != null ==> segment.Valid() && segment.expression == parsed && segment.lib == lib && fresh(segment)
    ensures segment != null ==> parsed.Leftovers() == old(parsed.Leftovers())
  {
    if parsed == null { return null; }
    var filter := new Filter(lib, EMPTY_FLOW);
    var _, err := filter.CheckFlow(parsed, EMPTY_FLOW);
    if err { return null; }
    EmptyPathKeepsLeftovers(lib, parsed.tree, EMPTY_FLOW, old(parsed.Leftovers()));
    segment := new FlowFilter(lib, parsed);
  }
}
