/** A running pipeline of any number of stages joined by unbuffered channels, as a step system.
    Each stage repeats: receive a message, then send it on, send it to the drop channel, or discard it
    (pass.go and flowfilter.go, Run). Messages are numbered in the order in which the pipeline accepts them.
    Channel 0 is In, channel i + 1 is written by stage i, and the last channel is Out. */
module PipelineChain {

  datatype Stage = Idle | Sending(m: nat) | Dropping(m: nat) | Finished
  {
    predicate Holds(k: nat) {
      (Sending? || Dropping?) && m == k
    }
  }

  datatype Net = Net(
    stages: seq<Stage>,
    subscribed: bool,      // somebody reads the drop channel
    accepted: nat,         // messages received from In
    delivered: seq<nat>,   // messages sent to Out
    dropped: seq<nat>,     // messages sent to the drop channel or discarded
    inClosed: bool,
    closes: seq<nat>,      // how often each channel was closed
    running: nat)          // the wait group counter

  /** A step of one goroutine or a meeting of two; pass is the receiving stage's verdict. */
  datatype Step =
    | Accept(pass: bool)
    | Forward(i: nat, pass: bool)
    | Deliver
    | TakeDrop(i: nat)
    | CloseIn
    | Finish(i: nat)

  function Start(n: nat, subscribed: bool): Net {
    Net(seq(n, i => Idle), subscribed, 0, [], [], false, seq(n + 1, i => 0), n)
  }

  predicate Enabled(s: Net, e: Step) {
    var n := |s.stages|;
    match e
    case Accept(_) => n > 0 && !s.inClosed && s.stages[0].Idle?
    case Forward(i, _) => i + 1 < n && s.stages[i].Sending? && s.stages[i + 1].Idle?
    case Deliver => n > 0 && s.stages[n - 1].Sending?
    case TakeDrop(i) => i < n && s.stages[i].Dropping?
    case CloseIn => !s.inClosed
    case Finish(i) => i < n && s.stages[i].Idle? && if i == 0 then s.inClosed else s.stages[i - 1].Finished?
  }

  /** Stage i receives message m and decides. */
  function Receive(s: Net, i: nat, m: nat, pass: bool): Net
    requires i < |s.stages|
  {
    if pass then s.(stages := s.stages[i := Sending(m)])
    else if s.subscribed then s.(stages := s.stages[i := Dropping(m)])
    else s.(dropped := s.dropped + [m])
  }

  function Next(s: Net, e: Step): Net
    requires Enabled(s, e) && |s.closes| == |s.stages| + 1
  {
    var n := |s.stages|;
    match e
    case Accept(pass) => Receive(s, 0, s.accepted, pass).(accepted := s.accepted + 1)
    case Forward(i, pass) => Receive(s.(stages := s.stages[i := Idle]), i + 1, s.stages[i].m, pass)
    case Deliver => s.(stages := s.stages[n - 1 := Idle], delivered := s.delivered + [s.stages[n - 1].m])
    case TakeDrop(i) => s.(stages := s.stages[i := Idle], dropped := s.dropped + [s.stages[i].m])
    case CloseIn => s.(inClosed := true, closes := s.closes[0 := s.closes[0] + 1])
    case Finish(i) =>
      s.(stages := s.stages[i := Finished], closes := s.closes[i + 1 := s.closes[i + 1] + 1],
         running := if s.running > 0 then s.running - 1 else 0)
  }

  // ---------------------------------------------------------------------------------------------
  // The invariant of every interleaving

  ghost predicate Increasing(s: seq<nat>) {
    forall i, j :: 0 <= i < j < |s| ==> s[i] < s[j]
  }

  ghost predicate Distinct(s: seq<nat>) {
    forall i, j :: 0 <= i < j < |s| ==> s[i] != s[j]
  }

  /** Each accepted message except the hole is delivered, dropped or held by one stage, and never in
      two places; the hole, if it is a message at all, is in none. */
  ghost predicate PlacedBut(s: Net, hole: int) {
    && hole < s.accepted
    && (forall m :: m in s.delivered ==> m < s.accepted && m !in s.dropped && m != hole)
    && (forall m :: m in s.dropped ==> m < s.accepted && m != hole)
    && (forall i :: 0 <= i < |s.stages| && Busy(s.stages[i]) ==>
          && s.stages[i].m < s.accepted && s.stages[i].m != hole
          && s.stages[i].m !in s.delivered && s.stages[i].m !in s.dropped)
    && (forall i, j :: 0 <= i < j < |s.stages| && Busy(s.stages[i]) && Busy(s.stages[j]) ==>
          s.stages[i].m != s.stages[j].m)
    && (forall m :: 0 <= m < s.accepted && m != hole ==> m in s.delivered || m in s.dropped || Held(s, m))
    && Distinct(s.dropped)
  }

  ghost predicate Placed(s: Net) {
    PlacedBut(s, -1)
  }

  predicate Busy(t: Stage) {
    t.Sending? || t.Dropping?
  }

  ghost predicate Held(s: Net, m: nat) {
    exists i :: 0 <= i < |s.stages| && s.stages[i].Holds(m)
  }

  /** Messages never overtake each other. */
  ghost predicate Ordered(s: Net) {
    && Increasing(s.delivered)
    && (forall i, k :: 0 <= i < |s.stages| && 0 <= k < |s.delivered| && s.stages[i].Sending? ==>
          s.delivered[k] < s.stages[i].m)
    && (forall i, j :: 0 <= i < j < |s.stages| && s.stages[i].Sending? && s.stages[j].Sending? ==>
          s.stages[j].m < s.stages[i].m)
  }

  function Unfinished(stages: seq<Stage>): nat {
    if stages == [] then 0 else (if stages[0].Finished? then 0 else 1) + Unfinished(stages[1..])
  }

  /** A channel is closed once, by its only writer, after everything before it has been closed. */
  ghost predicate Closing(s: Net) {
    && |s.stages| > 0 && |s.closes| == |s.stages| + 1
    && s.closes[0] == (if s.inClosed then 1 else 0)
    && (forall i :: 0 <= i < |s.stages| ==> s.closes[i + 1] == if s.stages[i].Finished? then 1 else 0)
    && (forall i :: 0 <= i < |s.stages| && s.stages[i].Finished? ==> s.inClosed)
    && (forall i, j :: 0 <= i <= j < |s.stages| && s.stages[j].Finished? ==> s.stages[i].Finished?)
    && s.running == Unfinished(s.stages)
  }

  ghost predicate Inv(s: Net) {
    Placed(s) && Ordered(s) && Closing(s)
  }

  lemma {:induction false} UnfinishedAllIdle(n: nat)
    ensures Unfinished(seq(n, i => Idle)) == n
  {
    if n > 0 {
      assert seq(n, i => Idle)[1..] == seq(n - 1, i => Idle);
      UnfinishedAllIdle(n - 1);
    }
  }

  lemma {:induction false} UnfinishedUpdate(stages: seq<Stage>, i: nat, t: Stage)
    requires i < |stages|
    ensures Unfinished(stages[i := t]) ==
      Unfinished(stages) - (if stages[i].Finished? then 0 else 1) + if t.Finished? then 0 else 1
  {
    if i == 0 {
      assert stages[i := t][1..] == stages[1..];
    } else {
      assert stages[i := t][1..] == stages[1..][i - 1 := t];
      UnfinishedUpdate(stages[1..], i - 1, t);
    }
  }

  lemma StartInv(n: nat, subscribed: bool)
    requires n > 0
    ensures Inv(Start(n, subscribed))
  {
    UnfinishedAllIdle(n);
  }

  /** A stage lets go of its message. */
  lemma Release(s: Net, i: nat)
    requires Placed(s) && i < |s.stages| && Busy(s.stages[i])
    ensures PlacedBut(s.(stages := s.stages[i := Idle]), s.stages[i].m)
  {
    var t := s.(stages := s.stages[i := Idle]);
    forall m | 0 <= m < s.accepted && m != s.stages[i].m
      ensures m in t.delivered || m in t.dropped || Held(t, m)
    {
      if m !in s.delivered && m !in s.dropped {
        var j :| 0 <= j < |s.stages| && s.stages[j].Holds(m);
        assert t.stages[j].Holds(m);
      }
    }
  }

  /** A stage takes the message that is nowhere else. */
  lemma Hold(s: Net, i: nat, t: Stage)
    requires i < |s.stages| && s.stages[i].Idle? && Busy(t) && PlacedBut(s, t.m)
    ensures Placed(s.(stages := s.stages[i := t]))
  {
    var u := s.(stages := s.stages[i := t]);
    forall m | 0 <= m < s.accepted
      ensures m in u.delivered || m in u.dropped || Held(u, m)
    {
      if m == t.m {
        assert u.stages[i].Holds(m);
      } else if m !in s.delivered && m !in s.dropped {
        var j :| 0 <= j < |s.stages| && s.stages[j].Holds(m);
        assert u.stages[j].Holds(m);
      }
    }
  }

  lemma Settle(s: Net, m: nat, pass: bool)
    requires PlacedBut(s, m)
    ensures Placed(if pass then s.(delivered := s.delivered + [m]) else s.(dropped := s.dropped + [m]))
  {
    var t := if pass then s.(delivered := s.delivered + [m]) else s.(dropped := s.dropped + [m]);
    forall k | 0 <= k < s.accepted
      ensures k in t.delivered || k in t.dropped || Held(t, k)
    {
      if k != m && k !in s.delivered && k !in s.dropped {
        var j :| 0 <= j < |s.stages| && s.stages[j].Holds(k);
        assert t.stages[j].Holds(k);
      }
    }
    assert forall i :: 0 <= i < |s.dropped| ==> s.dropped[i] in s.dropped;
  }

  lemma Number(s: Net)
    requires Placed(s)
    ensures PlacedBut(s.(accepted := s.accepted + 1), s.accepted)
  {
    var t := s.(accepted := s.accepted + 1);
    forall m | 0 <= m < s.accepted
      ensures m in t.delivered || m in t.dropped || Held(t, m)
    {
      if m !in s.delivered && m !in s.dropped {
        var j :| 0 <= j < |s.stages| && s.stages[j].Holds(m);
        assert t.stages[j].Holds(m);
      }
    }
  }

  lemma ReceiveKeepsPlaced(s: Net, i: nat, m: nat, pass: bool)
    requires i < |s.stages| && s.stages[i].Idle? && PlacedBut(s, m)
    ensures Placed(Receive(s, i, m, pass))
  {
    if pass || s.subscribed {
      Hold(s, i, if pass then Sending(m) else Dropping(m));
    } else {
      Settle(s, m, false);
    }
  }

  lemma StepKeepsPlaced(s: Net, e: Step)
    requires Placed(s) && Enabled(s, e) && |s.closes| == |s.stages| + 1
    ensures Placed(Next(s, e))
  {
    hide PlacedBut;
    match e
    case Accept(pass) =>
      Number(s);
      var t := s.(accepted := s.accepted + 1);
      ReceiveKeepsPlaced(t, 0, s.accepted, pass);
      assert Next(s, e) == Receive(t, 0, s.accepted, pass);
    case Forward(i, pass) =>
      Release(s, i);
      ReceiveKeepsPlaced(s.(stages := s.stages[i := Idle]), i + 1, s.stages[i].m, pass);
    case Deliver =>
      Release(s, |s.stages| - 1);
      Settle(s.(stages := s.stages[|s.stages| - 1 := Idle]), s.stages[|s.stages| - 1].m, true);
    case TakeDrop(i) =>
      Release(s, i);
      Settle(s.(stages := s.stages[i := Idle]), s.stages[i].m, false);
    case CloseIn => Same(s, Next(s, e));
    case Finish(_) => Same(s, Next(s, e));
  }

  lemma Same(s: Net, t: Net)
    requires Placed(s) && |t.stages| == |s.stages|
    requires t.accepted == s.accepted && t.delivered == s.delivered && t.dropped == s.dropped
    requires forall i :: 0 <= i < |s.stages| ==>
      t.stages[i] == s.stages[i] || (!Busy(s.stages[i]) && !Busy(t.stages[i]))
    ensures Placed(t)
  {
    forall m | 0 <= m < s.accepted
      ensures m in t.delivered || m in t.dropped || Held(t, m)
    {
      if m !in s.delivered && m !in s.dropped {
        var j :| 0 <= j < |s.stages| && s.stages[j].Holds(m);
        assert t.stages[j].Holds(m);
      }
    }
  }

  lemma ReleaseKeepsOrdered(s: Net, i: nat)
    requires Ordered(s) && i < |s.stages|
    ensures Ordered(s.(stages := s.stages[i := Idle]))
  {
  }

  /** A message that is newer than all messages further on and older than all before it. */
  ghost predicate Fits(s: Net, i: nat, m: nat) {
    && (forall k :: 0 <= k < |s.delivered| ==> s.delivered[k] < m)
    && (forall j :: i < j < |s.stages| && s.stages[j].Sending? ==> s.stages[j].m < m)
    && (forall j :: 0 <= j < i && j < |s.stages| && s.stages[j].Sending? ==> m < s.stages[j].m)
  }

  lemma ReceiveKeepsOrdered(s: Net, i: nat, m: nat, pass: bool)
    requires Ordered(s) && i < |s.stages| && s.stages[i].Idle? && Fits(s, i, m)
    ensures Ordered(Receive(s, i, m, pass))
  {
  }

  lemma NewestFits(s: Net)
    requires Placed(s) && Ordered(s)
    ensures Fits(s, 0, s.accepted)
  {
    assert forall k :: 0 <= k < |s.delivered| ==> s.delivered[k] in s.delivered;
  }

  lemma ForwardedFits(s: Net, i: nat)
    requires Ordered(s) && i + 1 < |s.stages| && s.stages[i].Sending? && s.stages[i + 1].Idle?
    ensures Fits(s.(stages := s.stages[i := Idle]), i + 1, s.stages[i].m)
  {
  }

  lemma DeliverKeepsOrdered(s: Net)
    requires Ordered(s) && s.stages != [] && s.stages[|s.stages| - 1].Sending?
    ensures Ordered(Next(s, Deliver).(closes := s.closes))
    requires |s.closes| == |s.stages| + 1
  {
  }

  lemma StepKeepsOrdered(s: Net, e: Step)
    requires Placed(s) && Ordered(s) && Enabled(s, e) && |s.closes| == |s.stages| + 1
    ensures Ordered(Next(s, e))
  {
    hide PlacedBut, Placed, Fits;
    match e
    case Accept(pass) =>
      NewestFits(s);
      ReceiveKeepsOrdered(s, 0, s.accepted, pass);
    case Forward(i, pass) =>
      ReleaseKeepsOrdered(s, i);
      ForwardedFits(s, i);
      ReceiveKeepsOrdered(s.(stages := s.stages[i := Idle]), i + 1, s.stages[i].m, pass);
    case Deliver => DeliverKeepsOrdered(s);
    case TakeDrop(i) => ReleaseKeepsOrdered(s, i);
    case CloseIn =>
    case Finish(i) =>
  }

  /** Replacing an unfinished stage by an unfinished one closes nothing. */
  lemma WorkKeepsClosing(s: Net, i: nat, t: Stage)
    requires Closing(s) && i < |s.stages| && !s.stages[i].Finished? && !t.Finished?
    ensures Closing(s.(stages := s.stages[i := t]))
  {
    UnfinishedUpdate(s.stages, i, t);
  }

  lemma FinishKeepsClosing(s: Net, i: nat)
    requires Closing(s) && Enabled(s, Finish(i))
    ensures Closing(Next(s, Finish(i)))
  {
    UnfinishedUpdate(s.stages, i, Finished);
  }

  lemma ReceiveKeepsClosing(s: Net, i: nat, m: nat, pass: bool)
    requires Closing(s) && i < |s.stages| && s.stages[i].Idle?
    ensures Closing(Receive(s, i, m, pass))
  {
    if pass || s.subscribed { WorkKeepsClosing(s, i, if pass then Sending(m) else Dropping(m)); }
  }

  lemma CloseInKeepsClosing(s: Net)
    requires Closing(s) && Enabled(s, CloseIn)
    ensures Closing(Next(s, CloseIn))
  {
  }

  /** Closing is about stages and channels only. */
  lemma ClosingIgnoresMessages(s: Net, accepted: nat, delivered: seq<nat>, dropped: seq<nat>)
    requires Closing(s)
    ensures Closing(s.(accepted := accepted, delivered := delivered, dropped := dropped))
  {
  }

  lemma StepKeepsClosing(s: Net, e: Step)
    requires Closing(s) && Enabled(s, e)
    ensures Closing(Next(s, e))
  {
    hide Closing;
    match e
    case Accept(pass) =>
      ReceiveKeepsClosing(s, 0, s.accepted, pass);
      var t := Receive(s, 0, s.accepted, pass);
      ClosingIgnoresMessages(t, s.accepted + 1, t.delivered, t.dropped);
    case Forward(i, pass) =>
      WorkKeepsClosing(s, i, Idle);
      ReceiveKeepsClosing(s.(stages := s.stages[i := Idle]), i + 1, s.stages[i].m, pass);
    case Deliver =>
      var n := |s.stages|;
      WorkKeepsClosing(s, n - 1, Idle);
      var delivered := s.delivered + [s.stages[n - 1].m];
      ClosingIgnoresMessages(s.(stages := s.stages[n - 1 := Idle]), s.accepted, delivered, s.dropped);
    case TakeDrop(i) =>
      WorkKeepsClosing(s, i, Idle);
      ClosingIgnoresMessages(s.(stages := s.stages[i := Idle]), s.accepted, s.delivered, s.dropped + [s.stages[i].m]);
    case CloseIn => CloseInKeepsClosing(s);
    case Finish(i) => FinishKeepsClosing(s, i);
  }

  /** A run is a sequence of steps, each enabled where it is taken. */
  predicate Feasible(s: Net, run: seq<Step>)
    requires |s.closes| == |s.stages| + 1
    decreases run
  {
    run == [] || (Enabled(s, run[0]) && Feasible(Next(s, run[0]), run[1..]))
  }

  function After(s: Net, run: seq<Step>): (t: Net)
    requires |s.closes| == |s.stages| + 1 && Feasible(s, run)
    ensures |t.stages| == |s.stages| && |t.closes| == |s.closes|
    decreases run
  {
    if run == [] then s else After(Next(s, run[0]), run[1..])
  }

  lemma {:induction false} RunKeepsInv(s: Net, run: seq<Step>)
    requires Inv(s) && Feasible(s, run)
    ensures Inv(After(s, run))
    decreases run
  {
    if run != [] {
      StepKeepsPlaced(s, run[0]);
      StepKeepsOrdered(s, run[0]);
      StepKeepsClosing(s, run[0]);
      RunKeepsInv(Next(s, run[0]), run[1..]);
    }
  }

  // ---------------------------------------------------------------------------------------------
  // Safety: order and conservation

  /** The messages on their way to Out, last stage first. */
  function InFlight(stages: seq<Stage>): seq<nat> {
    if stages == [] then [] else InFlight(stages[1..]) + if stages[0].Sending? then [stages[0].m] else []
  }

  /** The first n messages without the given ones, in order. */
  function Without(n: nat, gone: set<nat>): seq<nat> {
    if n == 0 then [] else Without(n - 1, gone) + if n - 1 in gone then [] else [n - 1]
  }

  function Elements(s: seq<nat>): set<nat> {
    set m | m in s
  }

  /** The messages that some stage has decided to drop. */
  function Gone(s: Net): set<nat> {
    Elements(s.dropped) + (set i | 0 <= i < |s.stages| && s.stages[i].Dropping? :: s.stages[i].m)
  }

  lemma {:induction false} InFlightMembers(stages: seq<Stage>)
    requires forall i, j :: 0 <= i < j < |stages| && stages[i].Sending? && stages[j].Sending? ==>
      stages[j].m < stages[i].m
    ensures Increasing(InFlight(stages))
    ensures forall m :: m in InFlight(stages) <==> Sending(m) in stages
  {
    if stages != [] {
      var later := stages[1..];
      InFlightMembers(later);
      assert stages == [stages[0]] + later;
      assert forall m :: Sending(m) in stages <==> stages[0] == Sending(m) || Sending(m) in later;
      if stages[0].Sending? {
        forall k | 0 <= k < |InFlight(later)|
          ensures InFlight(later)[k] < stages[0].m
        {
          var m := InFlight(later)[k];
          assert m in InFlight(later);
          var j :| 0 <= j < |later| && later[j] == Sending(m);
          assert stages[j + 1] == Sending(m);
        }
      }
    }
  }

  lemma {:induction false} WithoutMembers(n: nat, gone: set<nat>)
    ensures Increasing(Without(n, gone))
    ensures forall m: nat :: m in Without(n, gone) <==> m < n && m !in gone
  {
    if n > 0 {
      WithoutMembers(n - 1, gone);
      var earlier := Without(n - 1, gone);
      assert forall i :: 0 <= i < |earlier| ==> earlier[i] in earlier;
    }
  }

  lemma IncreasingLast(a: seq<nat>)
    requires Increasing(a) && a != []
    ensures a[|a| - 1] in a && forall m :: m in a ==> m <= a[|a| - 1]
    ensures forall m :: m in a[..|a| - 1] <==> m in a && m != a[|a| - 1]
  {
    var x, c := a[|a| - 1], a[..|a| - 1];
    assert a == c + [x];
    assert forall m :: m in a <==> m in c || m == x;
  }

  /** An increasing sequence is determined by its elements. */
  lemma {:induction false} IncreasingUnique(a: seq<nat>, b: seq<nat>)
    requires Increasing(a) && Increasing(b) && forall m :: m in a <==> m in b
    ensures a == b
    decreases |a|
  {
    if b != [] { assert b[0] in b; }
    if a != [] {
      assert a[0] in b;
      IncreasingLast(a);
      IncreasingLast(b);
      assert a[|a| - 1] == b[|b| - 1];
      var c, d := a[..|a| - 1], b[..|b| - 1];
      forall m
        ensures m in c <==> m in d
      {
        assert m in c <==> m in a && m != a[|a| - 1];
        assert m in d <==> m in b && m != b[|b| - 1];
      }
      IncreasingUnique(c, d);
      assert a == c + [a[|a| - 1]] && b == d + [b[|b| - 1]];
    }
  }

  /** In every interleaving the delivered messages followed by those in flight, last stage first,
      are the accepted input with the dropped messages removed. */
  lemma DeliveredThenInFlight(s: Net)
    requires Inv(s)
    ensures s.delivered + InFlight(s.stages) == Without(s.accepted, Gone(s))
  {
    var all := s.delivered + InFlight(s.stages);
    AllMembers(s);
    AllIncreasing(s);
    WithoutMembers(s.accepted, Gone(s));
    hide *;
    IncreasingUnique(all, Without(s.accepted, Gone(s)));
  }

  lemma AllMembers(s: Net)
    requires Inv(s)
    ensures forall m: nat :: m in s.delivered + InFlight(s.stages) <==> m < s.accepted && m !in Gone(s)
  {
    InFlightMembers(s.stages);
    assert forall m :: m in s.delivered + InFlight(s.stages) <==> m in s.delivered || Sending(m) in s.stages;
    assert forall m :: m in Gone(s) <==> m in s.dropped || Dropping(m) in s.stages;
    hide InFlight, Gone;
    forall m: nat
      ensures m in s.delivered || Sending(m) in s.stages
              <==> m < s.accepted && !(m in s.dropped || Dropping(m) in s.stages)
    {
      StageOf(s, m);
    }
  }

  /** A message in a stage is there once. */
  lemma StageOf(s: Net, m: nat)
    requires Placed(s)
    ensures Held(s, m) <==> Sending(m) in s.stages || Dropping(m) in s.stages
    ensures !(Sending(m) in s.stages && Dropping(m) in s.stages)
    ensures Held(s, m) ==> m < s.accepted && m !in s.delivered && m !in s.dropped
  {
    if Sending(m) in s.stages {
      var i :| 0 <= i < |s.stages| && s.stages[i] == Sending(m);
      assert s.stages[i].Holds(m);
    }
    if Dropping(m) in s.stages {
      var i :| 0 <= i < |s.stages| && s.stages[i] == Dropping(m);
      assert s.stages[i].Holds(m);
    }
  }

  lemma AllIncreasing(s: Net)
    requires Inv(s)
    ensures Increasing(s.delivered + InFlight(s.stages))
  {
    InFlightMembers(s.stages);
    var later := InFlight(s.stages);
    forall i, j | 0 <= i < |s.delivered| && 0 <= j < |later|
      ensures s.delivered[i] < later[j]
    {
      assert Sending(later[j]) in s.stages;
    }
  }

  // ---------------------------------------------------------------------------------------------
  // No writes to closed channels, no deadlock, and every run ends

  predicate Final(s: Net) {
    forall i :: 0 <= i < |s.stages| ==> s.stages[i].Finished?
  }

  /** The channel that a step writes to, if it writes to one. */
  function Written(s: Net, e: Step): int {
    match e
    case Accept(_) => 0
    case Forward(i, _) => i + 1
    case Deliver => |s.stages|
    case _ => -1
  }

  /** Nothing is ever sent on a closed channel, and each channel is closed at most once. */
  lemma ChannelsUsedOpen(s: Net, e: Step)
    requires Inv(s) && Enabled(s, e)
    ensures Written(s, e) >= 0 ==> s.closes[Written(s, e)] == 0
    ensures forall c :: 0 <= c < |s.closes| ==> Next(s, e).closes[c] <= 1
  {
    hide PlacedBut, Ordered;
    StepKeepsClosing(s, e);
    assert forall c :: 0 < c < |s.closes| ==> s.closes[c] == if s.stages[c - 1].Finished? then 1 else 0;
    var t := Next(s, e);
    assert forall c :: 0 < c < |t.closes| ==> t.closes[c] == if t.stages[c - 1].Finished? then 1 else 0;
  }

  lemma {:induction false} NoneUnfinished(stages: seq<Stage>)
    ensures Unfinished(stages) == 0 <==> forall i :: 0 <= i < |stages| ==> stages[i].Finished?
  {
    if stages != [] {
      NoneUnfinished(stages[1..]);
      assert forall i :: 0 < i < |stages| ==> stages[i] == stages[1..][i - 1];
    }
  }

  /** In every interleaving the wait group's counter is zero exactly when all stages have finished. */
  lemma WaitGroupZero(s: Net)
    requires Inv(s)
    ensures s.running == 0 <==> Final(s)
  {
    hide Placed, Ordered;
    NoneUnfinished(s.stages);
  }

  /** The last stage that is not idle can move, or all stages are idle or finished. */
  lemma {:induction false} Movable(s: Net, n: nat) returns (e: Step, found: bool)
    requires Closing(s) && n <= |s.stages|
    requires forall i :: n <= i < |s.stages| ==> !Busy(s.stages[i])
    ensures found ==> Enabled(s, e) && (e.Forward? || e.Deliver? || e.TakeDrop?)
    ensures !found ==> forall i :: 0 <= i < |s.stages| ==> !Busy(s.stages[i])
    decreases n
  {
    if n == 0 {
      e, found := CloseIn, false;
    } else if s.stages[n - 1].Sending? {
      e, found := if n == |s.stages| then Deliver else Forward(n - 1, true), true;
    } else if s.stages[n - 1].Dropping? {
      e, found := TakeDrop(n - 1), true;
    } else {
      e, found := Movable(s, n - 1);
    }
  }

  /** With readers on Out and Drops, a pipeline that holds a message can always move it; once In is
      closed a step is possible until every stage has finished. */
  lemma Progress(s: Net) returns (e: Step)
    requires Inv(s) && (s.inClosed || exists m :: Held(s, m))
    requires !Final(s)
    ensures Enabled(s, e) && !e.Accept? && !e.CloseIn?
  {
    hide PlacedBut, Ordered;
    if m :| Held(s, m) {
      var i :| 0 <= i < |s.stages| && s.stages[i].Holds(m);
      assert Busy(s.stages[i]);
    }
    var found;
    e, found := Movable(s, |s.stages|);
    if !found { e := Finish(FirstIdle(s, 0)); }
  }

  function FirstIdle(s: Net, i: nat): (k: nat)
    requires Closing(s) && !Final(s) && i <= |s.stages|
    requires forall j :: 0 <= j < |s.stages| ==> !Busy(s.stages[j])
    requires forall j :: 0 <= j < i ==> s.stages[j].Finished?
    ensures k < |s.stages| && s.stages[k].Idle? && (k == 0 || s.stages[k - 1].Finished?)
    decreases |s.stages| - i
  {
    if s.stages[i].Idle? then i else FirstIdle(s, i + 1)
  }

  /** What a stage still costs: a message pays for its remaining hops and for base steps after this
      pipeline; an unfinished stage pays for finishing. */
  function Cost(t: Stage, hops: nat, base: nat): nat {
    match t
    case Idle => 1
    case Sending(_) => 1 + base + 2 * hops
    case Dropping(_) => 1 + base + 1
    case Finished => 0
  }

  function TotalCost(stages: seq<Stage>, base: nat): nat {
    if stages == [] then 0 else Cost(stages[0], |stages|, base) + TotalCost(stages[1..], base)
  }

  lemma {:induction false} TotalCostUpdate(stages: seq<Stage>, i: nat, t: Stage, base: nat)
    requires i < |stages|
    ensures TotalCost(stages[i := t], base) ==
      TotalCost(stages, base) - Cost(stages[i], |stages| - i, base) + Cost(t, |stages| - i, base)
  {
    if i == 0 {
      assert stages[i := t][1..] == stages[1..];
    } else {
      assert stages[i := t][1..] == stages[1..][i - 1 := t];
      TotalCostUpdate(stages[1..], i - 1, t, base);
    }
  }

  function Measure(s: Net): nat {
    TotalCost(s.stages, 0) + if s.inClosed then 0 else 1
  }

  lemma ReceiveCost(s: Net, i: nat, m: nat, pass: bool, base: nat)
    requires i < |s.stages| && s.stages[i].Idle?
    ensures TotalCost(Receive(s, i, m, pass).stages, base) <= TotalCost(s.stages, base) + base + 2 * (|s.stages| - i)
  {
    if pass || s.subscribed {
      TotalCostUpdate(s.stages, i, if pass then Sending(m) else Dropping(m), base);
    }
  }

  /** Every step but Accept makes the pipeline's cost smaller: a hop by at least one, leaving the
      pipeline by more than base. */
  lemma StepCost(s: Net, e: Step, base: nat)
    requires Enabled(s, e) && !e.Accept? && |s.closes| == |s.stages| + 1
    ensures !e.CloseIn? ==> TotalCost(Next(s, e).stages, base) < TotalCost(s.stages, base)
    ensures e.Deliver? || e.TakeDrop? ==> TotalCost(Next(s, e).stages, base) + base < TotalCost(s.stages, base)
    ensures e.CloseIn? ==> Next(s, e).stages == s.stages
  {
    var n := |s.stages|;
    match e
    case Forward(i, pass) =>
      TotalCostUpdate(s.stages, i, Idle, base);
      ReceiveCost(s.(stages := s.stages[i := Idle]), i + 1, s.stages[i].m, pass, base);
    case Deliver => TotalCostUpdate(s.stages, n - 1, Idle, base);
    case TakeDrop(i) => TotalCostUpdate(s.stages, i, Idle, base);
    case CloseIn =>
    case Finish(i) => TotalCostUpdate(s.stages, i, Finished, base);
  }

  /** After In is closed a run is no longer than the measure. */
  lemma {:induction false} RunsEnd(s: Net, run: seq<Step>)
    requires Inv(s) && s.inClosed && Feasible(s, run)
    ensures After(s, run).inClosed && |run| + Measure(After(s, run)) <= Measure(s)
    decreases run
  {
    hide PlacedBut, Ordered;
    if run != [] {
      StepCost(s, run[0], 0);
      StepKeepsPlaced(s, run[0]);
      StepKeepsOrdered(s, run[0]);
      StepKeepsClosing(s, run[0]);
      RunsEnd(Next(s, run[0]), run[1..]);
    }
  }

  /** A pipeline whose In is closed and that can take no further step. */
  ghost predicate AtRest(s: Net) {
    s.inClosed && forall e: Step :: Enabled(s, e) ==> e.Accept?
  }

  /** A run from the start that has come to rest after In was closed has finished every stage, closed
      every channel once, and delivered exactly what it accepted and did not drop. */
  lemma NothingLost(n: nat, subscribed: bool, run: seq<Step>)
    requires n > 0 && Feasible(Start(n, subscribed), run) && AtRest(After(Start(n, subscribed), run))
    ensures var s := After(Start(n, subscribed), run);
      && Final(s) && s.running == 0
      && (forall c :: 0 <= c < |s.closes| ==> s.closes[c] == 1)
      && s.delivered == Without(s.accepted, Elements(s.dropped))
  {
    StartInv(n, subscribed);
    RunKeepsInv(Start(n, subscribed), run);
    hide Inv, Without, Feasible;
    NothingLostAtRest(After(Start(n, subscribed), run));
  }

  lemma NothingLostAtRest(s: Net)
    requires Inv(s) && AtRest(s)
    ensures Final(s) && s.running == 0 && forall c :: 0 <= c < |s.closes| ==> s.closes[c] == 1
    ensures s.delivered == Without(s.accepted, Elements(s.dropped))
  {
    if !Final(s) { var e := Progress(s); }
    WaitGroupZero(s);
    AllClosed(s);
    DeliveredThenInFlight(s);
    FinalHoldsNothing(s);
    assert s.delivered + [] == s.delivered;
  }

  lemma AllClosed(s: Net)
    requires Closing(s) && Final(s) && s.inClosed
    ensures forall c :: 0 <= c < |s.closes| ==> s.closes[c] == 1
  {
    forall c | 0 < c < |s.closes|
      ensures s.closes[c] == 1
    {
      assert s.stages[c - 1].Finished?;
    }
  }

  lemma FinalHoldsNothing(s: Net)
    requires Final(s)
    ensures InFlight(s.stages) == [] && Gone(s) == Elements(s.dropped)
  {
    InFlightMembers(s.stages);
    if InFlight(s.stages) != [] { assert InFlight(s.stages)[0] in InFlight(s.stages); }
  }
}
