/** What happens to the messages of the disk buffer over a run, and what a round no longer does once it has been told
    to stop. */
module DiskBufferLaws {
  import opened DiskBuffer

  // ---------------------------------------------------------------------------------------------
  // Messages are conserved

  /** Messages that entered the memory buffer in a run: from the input, or as a line of a cache file. */
  function Entered(s: System, run: seq<Step>): nat
    requires Feasible(s, run)
    decreases |run|
  {
    if run == [] then 0
    else (if run[0].Arrive? || (run[0].Do? && run[0].work.Push?) then 1 else 0) + Entered(Next(s, run[0]), run[1..])
  }

  /** Messages that the forwarding goroutine gave to the next segment. */
  function Sent(s: System, run: seq<Step>): nat
    requires Feasible(s, run)
    decreases |run|
  {
    if run == [] then 0
    else (if run[0].Forward? && s.forwarder.AtSend? then 1 else 0) + Sent(Next(s, run[0]), run[1..])
  }

  /** Lines that a round has written from the memory buffer. */
  function WrittenBy(r: Round): nat {
    if r.kind.Read? then 0 else r.file.written
  }

  function Written(rounds: seq<Round>): nat {
    if rounds == [] then 0 else Written(rounds[..|rounds| - 1]) + WrittenBy(rounds[|rounds| - 1])
  }

  /** In the buffer, in the hand of the forwarding goroutine, or written to a cache file. */
  function Kept(s: System): nat {
    s.fill + (if s.forwarder.AtSend? then 1 else 0) + Written(s.rounds)
  }

  lemma {:induction false} WrittenAfterUpdate(rounds: seq<Round>, i: nat, r: Round)
    requires i < |rounds|
    ensures Written(rounds[i := r]) == Written(rounds) - WrittenBy(rounds[i]) + WrittenBy(r)
  {
    var last := |rounds| - 1;
    if i == last {
      assert rounds[i := r][..last] == rounds[..last];
    } else {
      assert rounds[i := r][..last] == rounds[..last][i := r];
      WrittenAfterUpdate(rounds[..last], i, r);
    }
  }

  lemma WrittenSnoc(rounds: seq<Round>, r: Round)
    ensures Written(rounds + [r]) == Written(rounds) + WrittenBy(r)
  {
    assert (rounds + [r])[..|rounds|] == rounds;
  }

  /** A worker moves a message from the buffer to its file, or a line of a cache file into the buffer. */
  lemma WorkConserves(r: Round, w: Work, a: Around)
    requires RoundInv(r) && CanWork(r, w, a)
    ensures FillAfter(r, w, a.fill) + WrittenBy(Worked(r, w))
      == a.fill + WrittenBy(r) + if w.Push? then 1 else 0
  {
    hide FileInv;
  }

  lemma StepConserves(s: System, e: Step)
    requires Inv(s) && Enabled(s, e)
    ensures Kept(Next(s, e)) + (if e.Forward? && s.forwarder.AtSend? then 1 else 0)
      == Kept(s) + if e.Arrive? || (e.Do? && e.work.Push?) then 1 else 0
  {
    if e.Do? {
      hide RoundInv, CanWork, Worked, FillAfter, WrittenBy, Written, Undone, TotalUndone;
      WorkConserves(s.rounds[e.i], e.work, AroundOf(s));
      WrittenAfterUpdate(s.rounds, e.i, Worked(s.rounds[e.i], e.work));
    } else if e.Launch? {
      hide Written;
      WrittenSnoc(s.rounds, Fresh(Launched(s.place), e.files));
    }
  }

  /** Over every run, from any state that keeps the invariant: what was there and what entered is there, or has been
      sent to the next segment. */
  lemma {:induction false} RunConserves(s: System, run: seq<Step>)
    requires Inv(s) && Feasible(s, run)
    ensures Kept(After(s, run)) + Sent(s, run) == Kept(s) + Entered(s, run)
    decreases |run|
  {
    if run != [] {
      hide Inv, Enabled, Kept, Next;
      StepConserves(s, run[0]);
      StepKeepsInv(s, run[0]);
      RunConserves(Next(s, run[0]), run[1..]);
    }
  }

  /** When the decider has gone, every message that entered the buffer has been sent, is about to be sent, or is
      stored in a cache file that has been closed. */
  lemma NothingIsLost(cfg: Config, run: seq<Step>)
    requires cfg.Valid() && Feasible(Start(cfg), run) && After(Start(cfg), run).place.Gone?
    ensures var s := After(Start(cfg), run);
      && Entered(Start(cfg), run)
        == Sent(Start(cfg), run) + (if s.forwarder.AtSend? then 1 else 0) + Written(s.rounds)
      && forall i :: 0 <= i < |s.rounds| ==> Saved(s.rounds[i].file)
  {
    var s := After(Start(cfg), run);
    hide Feasible, After, Entered, Sent, RoundInv, TotalUndone, Config.Valid;
    RunConserves(Start(cfg), run);
    RunKeepsInv(Start(cfg), run);
    assert Reachable(s);
    NothingInBuffer(s);
    forall i | 0 <= i < |s.rounds|
      ensures Saved(s.rounds[i].file)
    {
      AllDone(s, i);
      assert s.rounds[i].body.ClosingWatchdogs? || s.rounds[i].body.Ended?;
      hide Undone;
      SavedBeforeDone(s, i);
    }
    hide Reachable;
  }

  // ---------------------------------------------------------------------------------------------
  // What a round no longer does

  /** A reader that has been told to stop, or alarmed, and is not between two files. */
  predicate NoMoreFiles(r: Round) {
    (r.stops > 0 || r.emergencies > 0) && !r.scanner.NotStarted? && !r.scanner.Between?
  }

  /** It opens no further cache file, whatever happens. */
  lemma StoppedOpensNothing(r: Round, w: Work, a: Around)
    requires RoundInv(r) && NoMoreFiles(r) && CanWork(r, w, a)
    ensures NoMoreFiles(Worked(r, w)) && !w.OpenFile?
  {
    hide FileInv;
  }

  /** A reader that has been alarmed and is done with the line it had. */
  predicate Alarmed(r: Round) {
    r.emergencies > 0 && !r.body.Offering? && !r.body.Committed?
  }

  /** It hands nothing on, neither to the next segment nor to the memory buffer: it writes all further lines to a
      file. */
  lemma AlarmedHandsNothingOn(r: Round, w: Work, a: Around)
    requires RoundInv(r) && Alarmed(r) && CanWork(r, w, a)
    ensures Alarmed(Worked(r, w)) && !w.GiveOut? && !w.Push? && !w.Parse?
  {
    hide FileInv;
  }

  /** The alarm is raised only above the high mark or after the end of the input, and a stop is given only on the
      far side of the low mark. */
  lemma SignalsHaveReasons(r: Round, w: Work, a: Around)
    requires CanWork(r, w, a)
    ensures !r.high.Tripping? && Worked(r, w).high.Tripping? ==>
      a.stopped || 100 * a.fill > a.cfg.high * a.cfg.capacity
    ensures !r.low.Tripping? && Worked(r, w).low.Tripping? ==>
      if r.kind.Read? then 100 * a.fill > a.cfg.low * a.cfg.capacity
      else 100 * (a.fill + 1) <= a.cfg.low * a.cfg.capacity
    ensures Worked(r, w).emergencies > r.emergencies ==> r.high.Tripping?
    ensures Worked(r, w).stops > r.stops ==> r.low.Tripping?
  {
    WatchdogsExactly(r, a);
  }
}
