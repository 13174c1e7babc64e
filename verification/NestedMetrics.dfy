/** Nested metric definitions (traffic-specific-toptalkers.go): a message visits a definition's children
    only if the definition's own filter accepts it. A definition's database is seen here as the sequence
    of appends it receives. */
module NestedMetrics {
  import opened Words
  import opened FilterSyntax
  import opened FilterMeaning
  import opened FilterVisitor

  type Printer = Bytes -> string
  type Verdicts = map<Expression, bool>

  datatype Append = Append(key: string, bytes: U64, packets: U64, forwarded: bool)

  class Database {
    var appends: seq<Append>

    constructor ()
      ensures appends == []
    {
      appends := [];
    }
  }

  datatype Metric = Metric(
    expression: Expression, trafficType: string, relevantAddress: string, database: Database, subs: seq<Metric>)

  /** The objects a definition tree owns: filter nodes and databases. */
  ghost function Foot(m: Metric): set<object> {
    m.expression.nodes + {m.database} + FootAll(m.subs)
  }

  ghost function FootAll(ms: seq<Metric>): set<object> {
    if ms == [] then {} else FootAll(ms[..|ms| - 1]) + Foot(ms[|ms| - 1])
  }

  /** Every definition has its own parsed filter and its own database. */
  ghost predicate WellFormed(m: Metric) {
    && m.expression.Valid() && m.database !in m.expression.nodes
    && m.expression.nodes + {m.database} !! FootAll(m.subs)
    && WellFormedAll(m.subs)
  }

  ghost predicate WellFormedAll(ms: seq<Metric>) {
    ms == [] ||
    (&& WellFormedAll(ms[..|ms| - 1]) && WellFormed(ms[|ms| - 1])
     && FootAll(ms[..|ms| - 1]) !! Foot(ms[|ms| - 1]))
  }

  /** What a filter's tree keeps from message to message: the leftovers; a filter with a rejected range answers
      with what its root holds. */
  ghost function Memory(e: Expression): (memory: seq<bool>)
    requires e.Valid()
    reads e.nodes
    ensures Fits(e.tree, memory)
  {
    if Rejected(e.tree) then [e.evalResult] else e.Leftovers()
  }

  ghost predicate Fits(tree: Expr, memory: seq<bool>) {
    |memory| == if Rejected(tree) then 1 else Slots(tree)
  }

  /** What CheckFlow answers for a filter with that memory. */
  ghost predicate Judge(lib: Library, tree: Expr, msg: Flow, memory: seq<bool>)
    requires Fits(tree, memory)
  {
    if Rejected(tree) then memory[0] else Answer(lib, tree, msg, memory)
  }

  /** What CheckFlow leaves in the tree. */
  ghost function Remembered(lib: Library, tree: Expr, msg: Flow, memory: seq<bool>): (next: seq<bool>)
    requires Fits(tree, memory)
    ensures Fits(tree, next)
  {
    if Rejected(tree) then memory else Next(lib, tree, msg, memory)
  }

  /** What CheckFlow answers for a filter in the current state of its tree. */
  ghost predicate Verdict(lib: Library, e: Expression, msg: Flow)
    requires e.Valid()
    reads e.nodes
  {
    Judge(lib, e.tree, msg, Memory(e))
  }

  /** For a valid filter that is settled on the message, the verdict is the filter's meaning. */
  lemma VerdictIsMeaning(lib: Library, e: Expression, msg: Flow)
    requires e.Valid() && !Rejected(e.tree) && Settled(lib, e.tree, msg).Some?
    ensures Verdict(lib, e, msg) == Meaning(lib, e.tree, msg)
  {
    SettledAnswer(lib, e.tree, msg, e.Leftovers());
  }

  predicate IsForwarded(msg: Flow) {
    64 <= msg.forwardingStatus < 128
  }

  function Addresses(relevantAddress: string, msg: Flow, show: Printer): seq<string> {
    if relevantAddress == "source" then [show(msg.srcAddr)]
    else if relevantAddress == "destination" then [show(msg.dstAddr)]
    else if relevantAddress == "both" then [show(msg.srcAddr), show(msg.dstAddr)]
    else if relevantAddress == "connection" then [show(msg.srcAddr) + " -> " + show(msg.dstAddr)]
    else []
  }

  /** The appends of an accepted message: one for each selected address. */
  function OwnAppends(trafficType: string, addresses: seq<string>, msg: Flow): seq<Append> {
    if addresses == [] then []
    else
      var last := Append(trafficType + ": " + addresses[|addresses| - 1], msg.bytes, msg.packets, IsForwarded(msg));
      OwnAppends(trafficType, addresses[..|addresses| - 1], msg) + [last]
  }

  function Counted(m: Metric, msg: Flow, show: Printer): seq<Append> {
    if m.trafficType == "" then []
    else OwnAppends(m.trafficType, Addresses(m.relevantAddress, msg, show), msg)
  }

  // ---------------------------------------------------------------------------------------------
  // The nested and the flat reading

  /** What a definition gains: appends to its database, and its filter is asked if the message reaches it. */
  datatype Gain = Gain(database: Database, appends: seq<Append>, filter: Expression, reached: bool)

  /** What each definition gains, in preorder, when children are asked only after their parent. */
  ghost function Nested(m: Metric, verdicts: Verdicts, msg: Flow, show: Printer, open: bool): seq<Gain> {
    var pass := open && m.expression in verdicts && verdicts[m.expression];
    [Gain(m.database, if pass then Counted(m, msg, show) else [], m.expression, open)]
    + NestedAll(m.subs, verdicts, msg, show, pass)
  }

  ghost function NestedAll(ms: seq<Metric>, verdicts: Verdicts, msg: Flow, show: Printer, open: bool): seq<Gain> {
    if ms == [] then []
    else NestedAll(ms[..|ms| - 1], verdicts, msg, show, open) + Nested(ms[|ms| - 1], verdicts, msg, show, open)
  }

  /** A definition together with its own filter and those of all its ancestors. */
  datatype Entry = Entry(above: seq<Expression>, metric: Metric)
  {
    ghost function Filters(): seq<Expression> { above + [metric.expression] }
  }

  ghost function Flat(m: Metric, above: seq<Expression>): seq<Entry> {
    [Entry(above, m)] + FlatAll(m.subs, above + [m.expression])
  }

  ghost function FlatAll(ms: seq<Metric>, above: seq<Expression>): seq<Entry> {
    if ms == [] then [] else FlatAll(ms[..|ms| - 1], above) + Flat(ms[|ms| - 1], above)
  }

  ghost predicate AcceptedByAll(filters: seq<Expression>, verdicts: Verdicts) {
    forall f :: f in filters ==> f in verdicts && verdicts[f]
  }

  /** In the flat list every definition is on its own. */
  ghost function GainOf(e: Entry, verdicts: Verdicts, msg: Flow, show: Printer): Gain {
    Gain(e.metric.database, if AcceptedByAll(e.Filters(), verdicts) then Counted(e.metric, msg, show) else [],
         e.metric.expression, AcceptedByAll(e.above, verdicts))
  }

  ghost function Gains(es: seq<Entry>, verdicts: Verdicts, msg: Flow, show: Printer): (gs: seq<Gain>)
    ensures |gs| == |es| && forall i :: 0 <= i < |es| ==> gs[i] == GainOf(es[i], verdicts, msg, show)
  {
    if es == [] then []
    else Gains(es[..|es| - 1], verdicts, msg, show) + [GainOf(es[|es| - 1], verdicts, msg, show)]
  }

  lemma GainsAppend(a: seq<Entry>, b: seq<Entry>, verdicts: Verdicts, msg: Flow, show: Printer)
    ensures Gains(a + b, verdicts, msg, show) == Gains(a, verdicts, msg, show) + Gains(b, verdicts, msg, show)
  {
  }

  /** A tree of definitions means the same as the flat list of its definitions, each under the
      conjunction of its own filter and all its ancestors' filters. */
  lemma {:induction false} NestedIsFlat(m: Metric, above: seq<Expression>, verdicts: Verdicts, msg: Flow, show: Printer)
    ensures Nested(m, verdicts, msg, show, AcceptedByAll(above, verdicts)) == Gains(Flat(m, above), verdicts, msg, show)
    decreases m
  {
    var path := above + [m.expression];
    assert AcceptedByAll(path, verdicts)
      == (AcceptedByAll(above, verdicts) && m.expression in verdicts && verdicts[m.expression]);
    NestedAllIsFlat(m.subs, path, verdicts, msg, show);
    var own := [Entry(above, m)];
    assert Gains(own, verdicts, msg, show) == [GainOf(own[0], verdicts, msg, show)];
    GainsAppend(own, FlatAll(m.subs, path), verdicts, msg, show);
  }

  lemma {:induction false} NestedAllIsFlat(
    ms: seq<Metric>, above: seq<Expression>, verdicts: Verdicts, msg: Flow, show: Printer)
    ensures NestedAll(ms, verdicts, msg, show, AcceptedByAll(above, verdicts))
      == Gains(FlatAll(ms, above), verdicts, msg, show)
    decreases ms
  {
    if ms != [] {
      NestedAllIsFlat(ms[..|ms| - 1], above, verdicts, msg, show);
      NestedIsFlat(ms[|ms| - 1], above, verdicts, msg, show);
      GainsAppend(FlatAll(ms[..|ms| - 1], above), Flat(ms[|ms| - 1], above), verdicts, msg, show);
    }
  }

  // ---------------------------------------------------------------------------------------------
  // The recursion over the definitions, in the heap

  /** What the message leaves of a filter's memory: a filter that it does not reach keeps it. */
  ghost function Asked(lib: Library, f: Expression, reached: bool, msg: Flow, memory: seq<bool>): (next: seq<bool>)
    requires Fits(f.tree, memory)
    ensures Fits(f.tree, next)
  {
    if reached then Remembered(lib, f.tree, msg, memory) else memory
  }

  /** The gains concern valid filters, and only the given objects. */
  ghost predicate Within(gs: seq<Gain>, foot: set<object>) {
    forall i :: 0 <= i < |gs| ==> gs[i].filter.Valid() && gs[i].database in foot && gs[i].filter.nodes <= foot
  }

  /** Every database on the list has been appended what the list says, and every filter that the message has
      reached has been asked. */
  twostate predicate Gained(lib: Library, gs: seq<Gain>, msg: Flow, foot: set<object>)
    reads foot
  {
    Within(gs, foot) && forall i :: 0 <= i < |gs| ==>
      && gs[i].database.appends == old(gs[i].database.appends) + gs[i].appends
      && Memory(gs[i].filter) == Asked(lib, gs[i].filter, gs[i].reached, msg, old(Memory(gs[i].filter)))
  }

  twostate predicate Kept(gs: seq<Gain>, foot: set<object>)
    reads foot
  {
    Within(gs, foot) && forall i :: 0 <= i < |gs| ==>
      && gs[i].database.appends == old(gs[i].database.appends)
      && Memory(gs[i].filter) == old(Memory(gs[i].filter))
  }

  /** The map holds the verdict of every filter in the tree. */
  ghost predicate Foretold(lib: Library, m: Metric, msg: Flow, verdicts: Verdicts)
    requires WellFormed(m)
    reads Foot(m)
    decreases m
  {
    && m.expression in verdicts && verdicts[m.expression] == Verdict(lib, m.expression, msg)
    && ForetoldAll(lib, m.subs, msg, verdicts)
  }

  ghost predicate ForetoldAll(lib: Library, ms: seq<Metric>, msg: Flow, verdicts: Verdicts)
    requires WellFormedAll(ms)
    reads FootAll(ms)
    decreases ms
  {
    ms == [] ||
    (ForetoldAll(lib, ms[..|ms| - 1], msg, verdicts) && Foretold(lib, ms[|ms| - 1], msg, verdicts))
  }

  /** The filter is valid and the map holds its verdict. */
  ghost predicate Known(lib: Library, f: Expression, msg: Flow, verdicts: Verdicts)
    reads f, f.nodes
  {
    f.Valid() && f in verdicts && verdicts[f] == Verdict(lib, f, msg)
  }

  lemma {:induction false} FiltersKnown(lib: Library, m: Metric, above: seq<Expression>, msg: Flow, verdicts: Verdicts)
    requires WellFormed(m) && Foretold(lib, m, msg, verdicts)
    requires forall f :: f in above ==> Known(lib, f, msg, verdicts)
    ensures forall e, f :: e in Flat(m, above) && f in e.Filters() ==> Known(lib, f, msg, verdicts)
    decreases m
  {
    AllFiltersKnown(lib, m.subs, above + [m.expression], msg, verdicts);
  }

  lemma {:induction false} AllFiltersKnown(
    lib: Library, ms: seq<Metric>, above: seq<Expression>, msg: Flow, verdicts: Verdicts)
    requires WellFormedAll(ms) && ForetoldAll(lib, ms, msg, verdicts)
    requires forall f :: f in above ==> Known(lib, f, msg, verdicts)
    ensures forall e, f :: e in FlatAll(ms, above) && f in e.Filters() ==> Known(lib, f, msg, verdicts)
    decreases ms
  {
    if ms != [] {
      AllFiltersKnown(lib, ms[..|ms| - 1], above, msg, verdicts);
      FiltersKnown(lib, ms[|ms| - 1], above, msg, verdicts);
    }
  }

  /** With valid ranges and settled filters, a definition of the flat list counts exactly the messages
      that its own filter and the filters of all its ancestors mean. */
  lemma CountsWhatAllFiltersMean(lib: Library, m: Metric, msg: Flow, verdicts: Verdicts, e: Entry)
    requires WellFormed(m) && Foretold(lib, m, msg, verdicts) && e in Flat(m, [])
    requires forall f :: f in e.Filters() ==> !Rejected(f.tree) && Settled(lib, f.tree, msg).Some?
    ensures AcceptedByAll(e.Filters(), verdicts) <==> forall f :: f in e.Filters() ==> Meaning(lib, f.tree, msg)
  {
    FiltersKnown(lib, m, [], msg, verdicts);
    hide Foretold, WellFormed, Flat, Verdict, Meaning, Settled, Rejected, Expression.Valid;
    forall f | f in e.Filters()
      ensures Known(lib, f, msg, verdicts) && verdicts[f] == Meaning(lib, f.tree, msg)
    {
      assert Known(lib, f, msg, verdicts);
      VerdictIsMeaning(lib, f, msg);
    }
  }

  /** Gains are gains of the tree's own databases and filters. */
  lemma {:induction false} GainsInFoot(m: Metric, verdicts: Verdicts, msg: Flow, show: Printer, open: bool)
    requires WellFormed(m)
    ensures Within(Nested(m, verdicts, msg, show, open), Foot(m))
    decreases m
  {
    hide Expression.Valid, Counted;
    AllGainsInFoot(m.subs, verdicts, msg, show, open && m.expression in verdicts && verdicts[m.expression]);
  }

  lemma {:induction false} AllGainsInFoot(ms: seq<Metric>, verdicts: Verdicts, msg: Flow, show: Printer, open: bool)
    requires WellFormedAll(ms)
    ensures Within(NestedAll(ms, verdicts, msg, show, open), FootAll(ms))
    decreases ms
  {
    hide Expression.Valid;
    if ms != [] {
      AllGainsInFoot(ms[..|ms| - 1], verdicts, msg, show, open);
      GainsInFoot(ms[|ms| - 1], verdicts, msg, show, open);
    }
  }

  /** Below a filter that refuses, nothing is gained and nobody is asked. */
  lemma {:induction false} ClosedGainsNothing(m: Metric, verdicts: Verdicts, msg: Flow, show: Printer)
    ensures forall g :: g in Nested(m, verdicts, msg, show, false) ==> g.appends == [] && !g.reached
    decreases m
  {
    AllClosedGainNothing(m.subs, verdicts, msg, show);
  }

  lemma {:induction false} AllClosedGainNothing(ms: seq<Metric>, verdicts: Verdicts, msg: Flow, show: Printer)
    ensures forall g :: g in NestedAll(ms, verdicts, msg, show, false) ==> g.appends == [] && !g.reached
    decreases ms
  {
    if ms != [] {
      AllClosedGainNothing(ms[..|ms| - 1], verdicts, msg, show);
      ClosedGainsNothing(ms[|ms| - 1], verdicts, msg, show);
    }
  }

  lemma {:induction false} FootAllocated(m: Metric)
    ensures forall o :: o in Foot(m) ==> allocated(o)
    decreases m
  {
    FootAllAllocated(m.subs);
  }

  lemma {:induction false} FootAllAllocated(ms: seq<Metric>)
    ensures forall o :: o in FootAll(ms) ==> allocated(o)
    decreases ms
  {
    if ms != [] {
      FootAllAllocated(ms[..|ms| - 1]);
      FootAllocated(ms[|ms| - 1]);
    }
  }

  /** Definitions side by side own separate objects. */
  lemma {:induction false} SubsApart(ms: seq<Metric>, i: nat)
    requires WellFormedAll(ms) && i < |ms|
    ensures WellFormed(ms[i]) && WellFormedAll(ms[..i]) && FootAll(ms[..i]) !! Foot(ms[i])
    ensures Foot(ms[i]) <= FootAll(ms) && FootAll(ms[..i + 1]) == FootAll(ms[..i]) + Foot(ms[i])
    ensures FootAll(ms[..i + 1]) <= FootAll(ms)
    ensures forall j :: i < j < |ms| ==> Foot(ms[i]) !! Foot(ms[j])
  {
    var front := ms[..|ms| - 1];
    assert ms[..i + 1][..i] == ms[..i];
    if i < |ms| - 1 {
      SubsApart(front, i);
      assert front[..i] == ms[..i] && front[..i + 1] == ms[..i + 1];
      forall j | i < j < |front|
        ensures Foot(ms[i]) !! Foot(ms[j])
      {
        assert front[j] == ms[j];
      }
    } else {
      assert ms[..i + 1] == ms;
    }
  }

  lemma {:induction false} ForetoldAt(lib: Library, ms: seq<Metric>, msg: Flow, verdicts: Verdicts, i: nat)
    requires WellFormedAll(ms) && ForetoldAll(lib, ms, msg, verdicts) && i < |ms|
    ensures WellFormed(ms[i]) && Foretold(lib, ms[i], msg, verdicts)
  {
    if i < |ms| - 1 {
      ForetoldAt(lib, ms[..|ms| - 1], msg, verdicts, i);
    }
  }

  /** A definition that is still waiting: its verdicts stand and its databases are as they were. */
  twostate predicate Waiting(lib: Library, m: Metric, verdicts: Verdicts, msg: Flow, show: Printer)
    requires WellFormed(m)
    reads Foot(m)
  {
    && Foretold(lib, m, msg, verdicts)
    && Kept(Nested(m, verdicts, msg, show, true), Foot(m))
  }

  /** Asks a definition's filter. */
  method Ask(msg: Flow, e: Expression, filter: Filter) returns (match_: bool)
    requires e.Valid() && filter !in e.nodes
    modifies filter, e.nodes
    ensures match_ == old(Verdict(filter.lib, e, msg))
    ensures Memory(e) == Remembered(filter.lib, e.tree, msg, old(Memory(e)))
  {
    hide Expression.Valid, Answer, Next, Rejected;
    var answer, _ := filter.CheckFlow(e, msg);
    match_ := answer;
  }

  /** Asks a definition's filter and, if it accepts, adds to the definition's own database. */
  method AddHere(msg: Flow, m: Metric, filter: Filter, show: Printer) returns (match_: bool)
    requires m.expression.Valid() && m.database !in m.expression.nodes && filter !in m.expression.nodes
    modifies filter, m.expression.nodes, m.database
    ensures match_ == old(Verdict(filter.lib, m.expression, msg))
    ensures m.database.appends == old(m.database.appends) + if match_ then Counted(m, msg, show) else []
    ensures Memory(m.expression) == Remembered(filter.lib, m.expression.tree, msg, old(Memory(m.expression)))
  {
    hide Expression.Valid, Expression.Leftovers, Rejected, Remembered, Judge, Fits, Addresses, OwnAppends;
    match_ := Ask(msg, m.expression, filter);
    if match_ && m.trafficType != "" {
      Update(m, msg, show);
    }
  }

  /** Asks a definition's filter and, if it accepts, adds to the definition's own database: the definitions below
      are left alone. */
  method AddAbove(msg: Flow, m: Metric, filter: Filter, show: Printer, ghost below: seq<Gain>)
    returns (match_: bool)
    requires WellFormed(m) && filter !in Foot(m) && Within(below, FootAll(m.subs))
    modifies filter, m.expression.nodes, m.database
    ensures match_ == old(Verdict(filter.lib, m.expression, msg))
    ensures m.database.appends == old(m.database.appends) + if match_ then Counted(m, msg, show) else []
    ensures Memory(m.expression) == Remembered(filter.lib, m.expression.tree, msg, old(Memory(m.expression)))
    ensures Kept(below, FootAll(m.subs))
  {
    hide Expression.Valid, Memory, Remembered, Verdict, Counted, FootAll, WellFormedAll;
    FootAllAllocated(m.subs);
    match_ := AddHere(msg, m, filter, show);
  }

  /** Adds one message to the definitions that match it. Every definition's database gains what the nested reading
      says, every filter that the message reaches is asked, and nothing outside the tree and the filter's message
      changes. */
  method AddMessage(msg: Flow, m: Metric, filter: Filter, show: Printer, ghost verdicts: Verdicts)
    requires WellFormed(m) && filter !in Foot(m) && Foretold(filter.lib, m, msg, verdicts)
    modifies filter, Foot(m)
    ensures Gained(filter.lib, Nested(m, verdicts, msg, show, true), msg, Foot(m))
    decreases m, 0
  {
    hide Memory, Expression.Valid, Rejected, Counted, Verdict, Remembered, Fits;
    hide NestedAll, ForetoldAll, FootAll, WellFormedAll;
    FootAllAllocated(m.subs);
    ghost var below := NestedAll(m.subs, verdicts, msg, show, verdicts[m.expression]);
    AllGainsInFoot(m.subs, verdicts, msg, show, verdicts[m.expression]);
    var match_ := AddAbove(msg, m, filter, show, below);
    if match_ {
      AddToSubs(msg, m.subs, filter, show, verdicts);
    } else {
      AllClosedGainNothing(m.subs, verdicts, msg, show);
    }
  }

  /** One turn of the loop over the subdefinitions: those before and behind it are left alone. */
  method AddNext(msg: Flow, ms: seq<Metric>, i: nat, filter: Filter, show: Printer, ghost verdicts: Verdicts)
    requires WellFormedAll(ms) && filter !in FootAll(ms) && i < |ms|
    requires WellFormed(ms[i]) && Foretold(filter.lib, ms[i], msg, verdicts)
    modifies filter, Foot(ms[i])
    ensures Gained(filter.lib, Nested(ms[i], verdicts, msg, show, true), msg, Foot(ms[i]))
    ensures Kept(NestedAll(ms[..i], verdicts, msg, show, true), FootAll(ms[..i]))
    ensures forall j :: i < j < |ms| ==>
      Foot(ms[i]) !! Foot(ms[j]) && Kept(Nested(ms[j], verdicts, msg, show, true), Foot(ms[j]))
    decreases ms, 0
  {
    hide WellFormed, Foretold, Foot, Nested, WellFormedAll, FootAll, Memory, Expression.Valid;
    FootAllAllocated(ms);
    SubsApart(ms, i);
    AddMessage(msg, ms[i], filter, show, verdicts);
    AllGainsInFoot(ms[..i], verdicts, msg, show, true);
    forall j | i < j < |ms|
      ensures Kept(Nested(ms[j], verdicts, msg, show, true), Foot(ms[j]))
    {
      SubsApart(ms, j);
      GainsInFoot(ms[j], verdicts, msg, show, true);
    }
  }

  /** The loop over the subdefinitions. */
  method AddToSubs(msg: Flow, ms: seq<Metric>, filter: Filter, show: Printer, ghost verdicts: Verdicts)
    requires WellFormedAll(ms) && filter !in FootAll(ms) && ForetoldAll(filter.lib, ms, msg, verdicts)
    modifies filter, FootAll(ms)
    ensures Gained(filter.lib, NestedAll(ms, verdicts, msg, show, true), msg, FootAll(ms))
    decreases ms, 1
  {
    hide WellFormed, Foretold, Foot, Nested, ForetoldAll, WellFormedAll, FootAll, Memory, Asked, Expression.Valid;
    FootAllAllocated(ms);
    forall j | 0 <= j < |ms|
      ensures WellFormed(ms[j]) && Waiting(filter.lib, ms[j], verdicts, msg, show) && Foot(ms[j]) <= FootAll(ms)
    {
      SubsApart(ms, j);
      GainsInFoot(ms[j], verdicts, msg, show, true);
      ForetoldAt(filter.lib, ms, msg, verdicts, j);
    }
    for i := 0 to |ms|
      invariant forall j :: i <= j < |ms| ==> WellFormed(ms[j]) && Waiting(filter.lib, ms[j], verdicts, msg, show)
      invariant Gained(filter.lib, NestedAll(ms[..i], verdicts, msg, show, true), msg, FootAll(ms[..i]))
    {
      assert ms[..i + 1][..i] == ms[..i];
      SubsApart(ms, i);
      AddNext(msg, ms, i, filter, show, verdicts);
    }
    assert ms[..|ms|] == ms;
  }

  /** The loop over the selected addresses. */
  method Update(m: Metric, msg: Flow, show: Printer)
    requires m.trafficType != ""
    modifies m.database
    ensures m.database.appends == old(m.database.appends) + Counted(m, msg, show)
  {
    var keys: seq<string> := [];
    match m.relevantAddress {
      case "source" => keys := [show(msg.srcAddr)];
      case "destination" => keys := [show(msg.dstAddr)];
      case "both" => keys := [show(msg.srcAddr), show(msg.dstAddr)];
      case "connection" => keys := [show(msg.srcAddr) + " -> " + show(msg.dstAddr)];
      case _ =>
    }
    for i := 0 to |keys|
      invariant m.database.appends == old(m.database.appends) + OwnAppends(m.trafficType, keys[..i], msg)
    {
      assert keys[..i + 1][..i] == keys[..i];
      var record := Append(m.trafficType + ": " + keys[i], msg.bytes, msg.packets, IsForwarded(msg));
      m.database.appends := m.database.appends + [record];
    }
    assert keys[..|keys|] == keys;
  }

  // ---------------------------------------------------------------------------------------------
  // Runs over many messages

  /** All filters of a tree of definitions. */
  ghost function Filters(m: Metric): set<Expression> {
    {m.expression} + FiltersAll(m.subs)
  }

  ghost function FiltersAll(ms: seq<Metric>): set<Expression> {
    if ms == [] then {} else FiltersAll(ms[..|ms| - 1]) + Filters(ms[|ms| - 1])
  }

  ghost predicate KnownAll(lib: Library, fs: set<Expression>, msg: Flow, verdicts: Verdicts)
    reads fs, set f, o | f in fs && o in f.nodes :: o
  {
    forall f :: f in fs ==> Known(lib, f, msg, verdicts)
  }

  /** A map that holds the verdict of every filter foretells the tree. */
  lemma {:induction false} KnownForetells(lib: Library, m: Metric, msg: Flow, verdicts: Verdicts)
    requires WellFormed(m) && KnownAll(lib, Filters(m), msg, verdicts)
    ensures Foretold(lib, m, msg, verdicts)
    decreases m
  {
    hide Known, Expression.Valid;
    assert Known(lib, m.expression, msg, verdicts);
    OneKnown(lib, m.expression, msg, verdicts);
    AllKnownForetells(lib, m.subs, msg, verdicts);
    hide Verdict;
  }

  lemma OneKnown(lib: Library, f: Expression, msg: Flow, verdicts: Verdicts)
    requires Known(lib, f, msg, verdicts)
    ensures f.Valid() && f in verdicts && verdicts[f] == Verdict(lib, f, msg)
  {
  }

  lemma {:induction false} AllKnownForetells(lib: Library, ms: seq<Metric>, msg: Flow, verdicts: Verdicts)
    requires WellFormedAll(ms) && KnownAll(lib, FiltersAll(ms), msg, verdicts)
    ensures ForetoldAll(lib, ms, msg, verdicts)
    decreases ms
  {
    hide Known;
    if ms != [] {
      AllKnownForetells(lib, ms[..|ms| - 1], msg, verdicts);
      KnownForetells(lib, ms[|ms| - 1], msg, verdicts);
    }
  }

  lemma {:induction false} FiltersValid(m: Metric)
    requires WellFormed(m)
    ensures forall f :: f in Filters(m) ==> f.Valid()
    decreases m
  {
    hide Expression.Valid;
    AllFiltersValid(m.subs);
  }

  lemma {:induction false} AllFiltersValid(ms: seq<Metric>)
    requires WellFormedAll(ms)
    ensures forall f :: f in FiltersAll(ms) ==> f.Valid()
    decreases ms
  {
    hide Expression.Valid;
    if ms != [] {
      AllFiltersValid(ms[..|ms| - 1]);
      FiltersValid(ms[|ms| - 1]);
    }
  }

  /** The filter has valid ranges and the message settles it. */
  ghost predicate Clear(lib: Library, f: Expression, msg: Flow) {
    !Rejected(f.tree) && Settled(lib, f.tree, msg).Some?
  }

  /** What a definition of the flat list receives over a run, given the verdicts for each message. */
  ghost function Received(e: Entry, input: seq<Flow>, log: seq<Verdicts>, show: Printer): seq<Append>
    requires |input| == |log|
  {
    if input == [] then []
    else
      var n := |input| - 1;
      var last := if AcceptedByAll(e.Filters(), log[n]) then Counted(e.metric, input[n], show) else [];
      Received(e, input[..n], log[..n], show) + last
  }

  /** What a definition's filter remembers after a run that it started with the given memory: each message that
      the filters above accept is one that it has been asked about. */
  ghost function MemoryAfter(lib: Library, e: Entry, start: seq<bool>, input: seq<Flow>, log: seq<Verdicts>)
    : (memory: seq<bool>)
    requires |input| == |log| && Fits(e.metric.expression.tree, start)
    ensures Fits(e.metric.expression.tree, memory)
  {
    if input == [] then start
    else
      var n := |input| - 1;
      Asked(lib, e.metric.expression, AcceptedByAll(e.above, log[n]), input[n],
        MemoryAfter(lib, e, start, input[..n], log[..n]))
  }

  /** Every verdict of the definition's filter is its answer for what it remembers of the run so far. */
  ghost predicate Answered(lib: Library, e: Entry, start: seq<bool>, input: seq<Flow>, log: seq<Verdicts>) {
    && |input| == |log| && Fits(e.metric.expression.tree, start)
    && forall n :: 0 <= n < |input| ==>
         && e.metric.expression in log[n]
         && log[n][e.metric.expression]
            == Judge(lib, e.metric.expression.tree, input[n], MemoryAfter(lib, e, start, input[..n], log[..n]))
  }

  /** One append per selected key for every message that all filters mean, in order. */
  ghost function Meant(lib: Library, e: Entry, input: seq<Flow>, show: Printer): seq<Append> {
    if input == [] then []
    else
      var n := |input| - 1;
      var last := if MeantByAll(lib, e.Filters(), input[n]) then Counted(e.metric, input[n], show) else [];
      Meant(lib, e, input[..n], show) + last
  }

  ghost predicate MeantByAll(lib: Library, filters: seq<Expression>, msg: Flow) {
    forall f :: f in filters ==> Meaning(lib, f.tree, msg)
  }

  /** The verdicts of a run: one map per message, which holds the meaning of every clear filter. */
  ghost predicate Judged(lib: Library, fs: set<Expression>, input: seq<Flow>, log: seq<Verdicts>) {
    && |log| == |input|
    && forall i, f :: 0 <= i < |input| && f in fs ==>
         f in log[i] && (Clear(lib, f, input[i]) ==> log[i][f] == Meaning(lib, f.tree, input[i]))
  }

  lemma {:induction false} FiltersOfFlat(m: Metric, above: seq<Expression>, fs: set<Expression>)
    requires Filters(m) <= fs && forall f :: f in above ==> f in fs
    ensures forall e, f :: e in Flat(m, above) && f in e.Filters() ==> f in fs
    decreases m
  {
    AllFiltersOfFlat(m.subs, above + [m.expression], fs);
  }

  lemma {:induction false} AllFiltersOfFlat(ms: seq<Metric>, above: seq<Expression>, fs: set<Expression>)
    requires FiltersAll(ms) <= fs && forall f :: f in above ==> f in fs
    ensures forall e, f :: e in FlatAll(ms, above) && f in e.Filters() ==> f in fs
    decreases ms
  {
    if ms != [] {
      AllFiltersOfFlat(ms[..|ms| - 1], above, fs);
      FiltersOfFlat(ms[|ms| - 1], above, fs);
    }
  }

  /** Over messages that settle its filters, a definition receives exactly the messages that its own and all
      its ancestors' filters mean. */
  lemma {:induction false} ReceivesWhatIsMeant(
    lib: Library, fs: set<Expression>, e: Entry, input: seq<Flow>, log: seq<Verdicts>, show: Printer)
    requires Judged(lib, fs, input, log) && forall f :: f in e.Filters() ==> f in fs
    requires forall i, f :: 0 <= i < |input| && f in e.Filters() ==> Clear(lib, f, input[i])
    ensures Received(e, input, log, show) == Meant(lib, e, input, show)
  {
    hide Clear, Meaning, Counted;
    if input != [] {
      var n := |input| - 1;
      ReceivesWhatIsMeant(lib, fs, e, input[..n], log[..n], show);
      assert forall f :: f in e.Filters() ==> Clear(lib, f, input[n]);
      assert AcceptedByAll(e.Filters(), log[n]) == MeantByAll(lib, e.Filters(), input[n]);
    }
  }

  /** So it is for every definition of a run. */
  lemma RunCountsWhatIsMeant(
    lib: Library, defs: seq<Metric>, e: Entry, input: seq<Flow>, log: seq<Verdicts>, show: Printer)
    requires Judged(lib, FiltersAll(defs), input, log) && e in FlatAll(defs, [])
    requires forall i, f :: 0 <= i < |input| && f in e.Filters() ==> Clear(lib, f, input[i])
    ensures Received(e, input, log, show) == Meant(lib, e, input, show)
  {
    hide Judged, Clear, Received, Meant, FiltersAll, FlatAll;
    AllFiltersOfFlat(defs, [], FiltersAll(defs));
    ReceivesWhatIsMeant(lib, FiltersAll(defs), e, input, log, show);
  }

  /** What the databases of the flat list have received since the start of a method. */
  twostate predicate GainedOver(es: seq<Entry>, input: seq<Flow>, new log: seq<Verdicts>, show: Printer)
    requires |input| == |log|
    reads set e | e in es :: e.metric.database
  {
    forall i :: 0 <= i < |es| ==>
      es[i].metric.database.appends == old(es[i].metric.database.appends) + Received(es[i], input, log, show)
  }

  /** The same for one message. */
  twostate predicate GainedOnce(es: seq<Entry>, msg: Flow, new verdicts: Verdicts, show: Printer)
    reads set e | e in es :: e.metric.database
  {
    forall i :: 0 <= i < |es| ==>
      es[i].metric.database.appends == old(es[i].metric.database.appends)
        + if AcceptedByAll(es[i].Filters(), verdicts) then Counted(es[i].metric, msg, show) else []
  }

  /** Over a run every filter has answered for what it remembers of the run, from the memories at its start. */
  ghost predicate AnsweredFrom(
    lib: Library, es: seq<Entry>, starts: seq<seq<bool>>, input: seq<Flow>, log: seq<Verdicts>, foot: set<object>)
    reads foot
  {
    && |log| == |input| && |starts| == |es|
    && forall i :: 0 <= i < |es| ==>
         && es[i].metric.expression.Valid() && es[i].metric.expression.nodes <= foot
         && Answered(lib, es[i], starts[i], input, log)
         && Memory(es[i].metric.expression) == MemoryAfter(lib, es[i], starts[i], input, log)
  }

  /** The memories of the filters. */
  ghost predicate Remembers(es: seq<Entry>, memories: seq<seq<bool>>, foot: set<object>)
    reads foot
  {
    && |memories| == |es|
    && forall i :: 0 <= i < |es| ==>
         && es[i].metric.expression.Valid() && es[i].metric.expression.nodes <= foot
         && Memory(es[i].metric.expression) == memories[i]
  }

  /** The same for one message. */
  twostate predicate AnsweredOnce(
    lib: Library, es: seq<Entry>, msg: Flow, new verdicts: Verdicts, foot: set<object>)
    reads foot
  {
    forall i :: 0 <= i < |es| ==>
      && var f := es[i].metric.expression;
      && f.Valid() && f.nodes <= foot && f in verdicts && verdicts[f] == old(Verdict(lib, f, msg))
      && Memory(f) == Asked(lib, f, AcceptedByAll(es[i].above, verdicts), msg, old(Memory(f)))
  }

  /** Before the first message nothing has been received or asked. */
  lemma NothingAnswered(
    lib: Library, es: seq<Entry>, starts: seq<seq<bool>>, show: Printer, foot: set<object>)
    requires Remembers(es, starts, foot)
    ensures AnsweredFrom(lib, es, starts, [], [], foot)
    ensures forall i :: 0 <= i < |es| ==> Received(es[i], [], [], show) == []
  {
    hide Memory, Fits, Expression.Valid;
  }

  lemma AnsweredStep(
    lib: Library, e: Entry, start: seq<bool>, input: seq<Flow>, i: nat, log: seq<Verdicts>, verdicts: Verdicts)
    requires i < |input| && Answered(lib, e, start, input[..i], log) && e.metric.expression in verdicts
    requires verdicts[e.metric.expression]
      == Judge(lib, e.metric.expression.tree, input[i], MemoryAfter(lib, e, start, input[..i], log))
    ensures Answered(lib, e, start, input[..i + 1], log + [verdicts])
    ensures MemoryAfter(lib, e, start, input[..i + 1], log + [verdicts])
      == Asked(lib, e.metric.expression, AcceptedByAll(e.above, verdicts), input[i],
           MemoryAfter(lib, e, start, input[..i], log))
  {
    hide Judge, Asked, AcceptedByAll, Fits;
    assert input[..i + 1][..i] == input[..i] && (log + [verdicts])[..i] == log;
    forall n | 0 <= n < i
      ensures input[..i + 1][..n] == input[..i][..n] && (log + [verdicts])[..n] == log[..n]
    {
    }
  }

  lemma ReceivedFurther(
    es: seq<Entry>, input: seq<Flow>, i: nat, log: seq<Verdicts>, verdicts: Verdicts, show: Printer)
    requires i < |input| && |log| == i
    ensures forall j :: 0 <= j < |es| ==>
      Received(es[j], input[..i + 1], log + [verdicts], show) == Received(es[j], input[..i], log, show)
        + if AcceptedByAll(es[j].Filters(), verdicts) then Counted(es[j].metric, input[i], show) else []
  {
    hide AcceptedByAll, Counted;
    assert input[..i + 1][..i] == input[..i] && (log + [verdicts])[..i] == log;
  }

  /** The verdicts for a message, before any definition is asked. */
  lemma Foresee(lib: Library, defs: seq<Metric>, msg: Flow) returns (verdicts: Verdicts)
    requires WellFormedAll(defs)
    ensures ForetoldAll(lib, defs, msg, verdicts)
    ensures forall f :: f in FiltersAll(defs) ==> f.Valid() && f in verdicts && verdicts[f] == Verdict(lib, f, msg)
    ensures forall f :: f in FiltersAll(defs) && Clear(lib, f, msg) ==> verdicts[f] == Meaning(lib, f.tree, msg)
  {
    hide Expression.Valid, WellFormedAll, FiltersAll, ForetoldAll, Verdict, Meaning, Settled, Rejected;
    AllFiltersValid(defs);
    verdicts := map f | f in FiltersAll(defs) :: Verdict(lib, f, msg);
    forall f | f in FiltersAll(defs) && Clear(lib, f, msg)
      ensures verdicts[f] == Meaning(lib, f.tree, msg)
    {
      VerdictIsMeaning(lib, f, msg);
    }
    AllKnownForetells(lib, defs, msg, verdicts);
  }

  /** The gains of the flat list, one by one. */
  lemma FlatGains(defs: seq<Metric>, verdicts: Verdicts, msg: Flow, show: Printer)
    requires WellFormedAll(defs)
    ensures var gains, es := NestedAll(defs, verdicts, msg, show, true), FlatAll(defs, []);
      |gains| == |es| && forall i :: 0 <= i < |es| ==>
        && gains[i] == GainOf(es[i], verdicts, msg, show)
        && es[i].metric.expression in FiltersAll(defs)
  {
    hide NestedAll, FlatAll, FiltersAll, GainOf, WellFormedAll;
    NestedAllIsFlat(defs, [], verdicts, msg, show);
    AllFiltersOfFlat(defs, [], FiltersAll(defs));
    assert forall e :: e in FlatAll(defs, []) ==> e.metric.expression in e.Filters();
  }

  /** The loop over the definitions for one message. */
  method AddFlow(msg: Flow, defs: seq<Metric>, filter: Filter, show: Printer) returns (ghost verdicts: Verdicts)
    requires WellFormedAll(defs) && filter !in FootAll(defs)
    modifies filter, FootAll(defs)
    ensures forall f :: f in FiltersAll(defs) ==>
      f in verdicts && (Clear(filter.lib, f, msg) ==> verdicts[f] == Meaning(filter.lib, f.tree, msg))
    ensures GainedOnce(FlatAll(defs, []), msg, verdicts, show)
    ensures AnsweredOnce(filter.lib, FlatAll(defs, []), msg, verdicts, FootAll(defs))
  {
    hide Expression.Valid, WellFormedAll, FootAll, FiltersAll, FlatAll, NestedAll, ForetoldAll;
    hide Verdict, Memory, Asked, Fits, Meaning, Clear, Counted, AcceptedByAll;
    verdicts := Foresee(filter.lib, defs, msg);
    FlatGains(defs, verdicts, msg, show);
    AddToSubs(msg, defs, filter, show, verdicts);
    ghost var gains, es := NestedAll(defs, verdicts, msg, show, true), FlatAll(defs, []);
    assert forall i :: 0 <= i < |es| ==> gains[i] == GainOf(es[i], verdicts, msg, show);
  }

  lemma AnsweredFurther(
    lib: Library, es: seq<Entry>, starts: seq<seq<bool>>, input: seq<Flow>, i: nat, log: seq<Verdicts>,
    verdicts: Verdicts)
    requires i < |input| && |starts| == |es|
    requires forall j :: 0 <= j < |es| ==>
      && Answered(lib, es[j], starts[j], input[..i], log) && es[j].metric.expression in verdicts
      && verdicts[es[j].metric.expression] ==
        Judge(lib, es[j].metric.expression.tree, input[i], MemoryAfter(lib, es[j], starts[j], input[..i], log))
    ensures forall j :: 0 <= j < |es| ==>
      && Answered(lib, es[j], starts[j], input[..i + 1], log + [verdicts])
      && MemoryAfter(lib, es[j], starts[j], input[..i + 1], log + [verdicts]) ==
        Asked(lib, es[j].metric.expression, AcceptedByAll(es[j].above, verdicts), input[i],
          MemoryAfter(lib, es[j], starts[j], input[..i], log))
  {
    hide Judge, Asked, AcceptedByAll, Fits, MemoryAfter;
    forall j | 0 <= j < |es|
      ensures Answered(lib, es[j], starts[j], input[..i + 1], log + [verdicts])
      ensures MemoryAfter(lib, es[j], starts[j], input[..i + 1], log + [verdicts]) ==
        Asked(lib, es[j].metric.expression, AcceptedByAll(es[j].above, verdicts), input[i],
          MemoryAfter(lib, es[j], starts[j], input[..i], log))
    {
      AnsweredStep(lib, es[j], starts[j], input, i, log, verdicts);
    }
  }

  /** One turn of the loop over the messages. */
  method AddNth(
    input: seq<Flow>, i: nat, defs: seq<Metric>, filter: Filter, show: Printer, ghost starts: seq<seq<bool>>,
    ghost log: seq<Verdicts>)
    returns (ghost verdicts: Verdicts)
    requires WellFormedAll(defs) && filter !in FootAll(defs) && i < |input|
    requires AnsweredFrom(filter.lib, FlatAll(defs, []), starts, input[..i], log, FootAll(defs))
    modifies filter, FootAll(defs)
    ensures forall f :: f in FiltersAll(defs) ==>
      f in verdicts && (Clear(filter.lib, f, input[i]) ==> verdicts[f] == Meaning(filter.lib, f.tree, input[i]))
    ensures GainedOnce(FlatAll(defs, []), input[i], verdicts, show)
    ensures AnsweredFrom(filter.lib, FlatAll(defs, []), starts, input[..i + 1], log + [verdicts], FootAll(defs))
  {
    hide FlatAll, FootAll, WellFormedAll, FiltersAll, AcceptedByAll, Counted, Clear, Meaning, GainedOnce;
    hide Memory, Judge, Asked, Expression.Valid, Answered, MemoryAfter, Fits;
    verdicts := AddFlow(input[i], defs, filter, show);
    AnsweredFurther(filter.lib, FlatAll(defs, []), starts, input, i, log, verdicts);
  }

  /** Run: every message goes through all definitions. Each definition's database gains, in order, one append
      per selected key for exactly the messages that its own filter and its ancestors' filters accept. A filter
      that a message settles accepts it exactly if it means it; and every filter accepts what it answers for the
      leftovers of the messages before that have reached it. */
  method Run(input: seq<Flow>, defs: seq<Metric>, filter: Filter, show: Printer, ghost starts: seq<seq<bool>>)
    returns (ghost log: seq<Verdicts>)
    requires WellFormedAll(defs) && filter !in FootAll(defs)
    requires Remembers(FlatAll(defs, []), starts, FootAll(defs))
    modifies filter, FootAll(defs)
    ensures Judged(filter.lib, FiltersAll(defs), input, log)
    ensures GainedOver(FlatAll(defs, []), input, log, show)
    ensures AnsweredFrom(filter.lib, FlatAll(defs, []), starts, input, log, FootAll(defs))
  {
    hide FlatAll, FootAll, WellFormedAll, FiltersAll, Received, AcceptedByAll, Counted, Clear, Meaning;
    hide AnsweredFrom, Remembers;
    log := [];
    NothingAnswered(filter.lib, FlatAll(defs, []), starts, show, FootAll(defs));
    assert input[..0] == [];
    for i := 0 to |input|
      invariant Judged(filter.lib, FiltersAll(defs), input[..i], log)
      invariant GainedOver(FlatAll(defs, []), input[..i], log, show)
      invariant AnsweredFrom(filter.lib, FlatAll(defs, []), starts, input[..i], log, FootAll(defs))
    {
      ghost var verdicts := AddNth(input, i, defs, filter, show, starts, log);
      ReceivedFurther(FlatAll(defs, []), input, i, log, verdicts, show);
      log := log + [verdicts];
    }
    assert input[..|input|] == input;
  }
}
