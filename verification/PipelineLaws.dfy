/** The verdicts of the stages decide where a message ends up: a pipeline delivers what every stage lets pass and
    drops what one stage refuses. */
module PipelineLaws {
  import opened PipelineChain

  /** For each accepted message the verdicts on it, in the order of the stages that gave them. */
  type Log = seq<seq<bool>>

  function Judged(s: Net, log: Log, e: Step): Log
    requires Enabled(s, e)
  {
    match e
    case Accept(pass) => log + [[pass]]
    case Forward(i, pass) =>
      var m := s.stages[i].m;
      if m < |log| then log[m := log[m] + [pass]] else log
    case _ => log
  }

  function LogAfter(s: Net, log: Log, run: seq<Step>): Log
    requires |s.closes| == |s.stages| + 1 && Feasible(s, run)
    decreases |run|
  {
    if run == [] then log else LogAfter(Next(s, run[0]), Judged(s, log, run[0]), run[1..])
  }

  /** The first k stages have let the message pass, and no other one has seen it. */
  predicate Passed(verdicts: seq<bool>, k: nat) {
    |verdicts| == k && forall i :: 0 <= i < k ==> verdicts[i]
  }

  /** One of n stages has refused the message, and no later one has seen it. */
  predicate Refused(verdicts: seq<bool>, n: nat) {
    && 0 < |verdicts| <= n && !verdicts[|verdicts| - 1]
    && forall i :: 0 <= i < |verdicts| - 1 ==> verdicts[i]
  }

  predicate StageLogged(t: Stage, i: nat, n: nat, log: Log) {
    && (t.Sending? ==> t.m < |log| && Passed(log[t.m], i + 1))
    && (t.Dropping? ==> t.m < |log| && Refused(log[t.m], n))
  }

  predicate Logged(s: Net, log: Log) {
    && |log| == s.accepted
    && (forall i :: 0 <= i < |s.stages| ==> StageLogged(s.stages[i], i, |s.stages|, log))
    && (forall m :: m in s.delivered ==> m < |log| && Passed(log[m], |s.stages|))
    && (forall m :: m in s.dropped ==> m < |log| && Refused(log[m], |s.stages|))
  }

  /** The hearing of a message by stage i, which is idle. */
  lemma ReceiveKeepsLogged(s: Net, log: Log, i: nat, m: nat, pass: bool)
    requires Logged(s, log) && i < |s.stages| && s.stages[i].Idle?
    requires m < |log| && (if pass then Passed(log[m], i + 1) else Refused(log[m], |s.stages|))
    ensures Logged(Receive(s, i, m, pass), log)
  {
  }

  lemma AcceptKeepsLogged(s: Net, log: Log, pass: bool)
    requires Logged(s, log) && Enabled(s, Accept(pass)) && |s.closes| == |s.stages| + 1
    ensures Logged(Next(s, Accept(pass)), Judged(s, log, Accept(pass)))
  {
    var t := s.(accepted := s.accepted + 1);
    assert Logged(t, log + [[pass]]);
    hide Logged;
    ReceiveKeepsLogged(t, log + [[pass]], 0, s.accepted, pass);
    assert Next(s, Accept(pass)) == Receive(t, 0, s.accepted, pass);
  }

  /** While a message is on its way it is nowhere else, so its further verdict changes nothing for the others. */
  lemma ForwardKeepsLogged(s: Net, log: Log, i: nat, pass: bool)
    requires Placed(s) && Logged(s, log) && Enabled(s, Forward(i, pass)) && |s.closes| == |s.stages| + 1
    ensures Logged(Next(s, Forward(i, pass)), Judged(s, log, Forward(i, pass)))
  {
    var m := s.stages[i].m;
    var t, further := s.(stages := s.stages[i := Idle]), log[m := log[m] + [pass]];
    forall j | 0 <= j < |t.stages|
      ensures StageLogged(t.stages[j], j, |t.stages|, further)
    {
      assert StageLogged(s.stages[j], j, |s.stages|, log);
    }
    assert Logged(t, further);
    hide Logged, PlacedBut;
    ReceiveKeepsLogged(t, further, i + 1, m, pass);
  }

  lemma LeavingKeepsLogged(s: Net, log: Log, e: Step)
    requires Logged(s, log) && Enabled(s, e) && |s.closes| == |s.stages| + 1 && !e.Accept? && !e.Forward?
    ensures Logged(Next(s, e), log)
  {
  }

  lemma {:induction false} RunKeepsLogged(s: Net, log: Log, run: seq<Step>)
    requires Inv(s) && Logged(s, log) && Feasible(s, run)
    ensures Logged(After(s, run), LogAfter(s, log, run))
    decreases |run|
  {
    if run != [] {
      hide Logged, Placed, Ordered, Closing;
      var e := run[0];
      ClosesFit(s);
      match e {
        case Accept(pass) => AcceptKeepsLogged(s, log, pass);
        case Forward(i, pass) => ForwardKeepsLogged(s, log, i, pass);
        case _ => LeavingKeepsLogged(s, log, e);
      }
      StepKeepsPlaced(s, e);
      StepKeepsOrdered(s, e);
      StepKeepsClosing(s, e);
      RunKeepsLogged(Next(s, e), Judged(s, log, e), run[1..]);
    }
  }

  lemma ClosesFit(s: Net)
    requires Closing(s)
    ensures |s.closes| == |s.stages| + 1
  {
  }

  lemma NowhereElse(s: Net, m: nat)
    requires Placed(s) && Final(s) && m < s.accepted
    ensures m in s.delivered || m in s.dropped
  {
  }

  lemma PassedOrRefused(verdicts: seq<bool>, n: nat)
    requires n > 0
    ensures !(Passed(verdicts, n) && Refused(verdicts, n))
  {
  }

  lemma StartLogged(n: nat, subscribed: bool)
    ensures Logged(Start(n, subscribed), [])
  {
  }

  /** Where the messages of a pipeline are and what has been said about them. */
  lemma LoggedDecides(s: Net, log: Log, m: nat)
    requires Inv(s) && Logged(s, log)
    ensures |log| == s.accepted
    ensures m in s.delivered ==> m < |log| && Passed(log[m], |s.stages|)
    ensures m in s.dropped ==> m < |log| && Refused(log[m], |s.stages|)
    ensures Final(s) && m < |log| ==>
      (m in s.delivered <==> Passed(log[m], |s.stages|)) && (m in s.dropped <==> Refused(log[m], |s.stages|))
  {
    if Final(s) && m < |log| {
      NowhereElse(s, m);
      PassedOrRefused(log[m], |s.stages|);
    }
    hide PlacedBut, Ordered, Passed, Refused, Final;
  }

  /** In every run of a pipeline of n stages a message that is delivered has passed all of them, and a message that is
      dropped or discarded has been refused by one; once the pipeline has come to rest, that says for every
      message where it is. */
  lemma VerdictsDecide(n: nat, subscribed: bool, run: seq<Step>, m: nat)
    requires n > 0 && Feasible(Start(n, subscribed), run)
    ensures var s, log := After(Start(n, subscribed), run), LogAfter(Start(n, subscribed), [], run);
      && |log| == s.accepted
      && (m in s.delivered ==> m < |log| && Passed(log[m], n))
      && (m in s.dropped ==> m < |log| && Refused(log[m], n))
      && (AtRest(s) && m < |log| ==>
          (m in s.delivered <==> Passed(log[m], n)) && (m in s.dropped <==> Refused(log[m], n)))
  {
    StartInv(n, subscribed);
    StartLogged(n, subscribed);
    hide Feasible, After, LogAfter, Inv, AtRest, Logged, Passed, Refused, Final;
    RunKeepsLogged(Start(n, subscribed), [], run);
    RunKeepsInv(Start(n, subscribed), run);
    var s := After(Start(n, subscribed), run);
    if AtRest(s) {
      NothingLost(n, subscribed, run);
    }
    LoggedDecides(s, LogAfter(Start(n, subscribed), [], run), m);
  }
}
