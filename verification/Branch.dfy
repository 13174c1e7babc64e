/** A running branch segment (branch.go): three pipelines, the loop that feeds the condition, the forwarder
    between condition and branches, and the drainer behind the branches, joined by unbuffered channels.
    Messages are numbered in the order in which the segment receives them. */
module Branch {
  import opened PipelineChain

  /** A sub-pipeline and the messages that have entered it: its k-th message is ins[k]. */
  datatype Sub = Sub(net: Net, ins: seq<nat>)

  datatype Forwarder = Free | ToThen(m: nat) | ToElse(m: nat)

  /** Where the drainer received a message from. */
  datatype Origin = ThenOut | ElseOut | ThenDrop | ElseDrop

  datatype Item = Item(m: nat, origin: Origin)

  datatype Place = Out | Drops | Discarded

  /** The drainer waits for a message, or hands one to a channel of the segment. */
  datatype Drainer = Waiting | Handing(m: nat, to: Place)

  datatype State = State(
    bypass: bool,          // bypass-messages
    hasDrops: bool,        // the segment's own Drops is set
    received: nat,
    entry: bool,           // Run holds the last received message
    cond: Sub, thn: Sub, els: Sub,
    forwarder: Forwarder,
    drainer: Drainer,
    out: seq<nat>,         // messages sent to Out
    drops: seq<nat>,       // messages sent to Drops
    discarded: seq<nat>,   // messages sent nowhere
    log: seq<Item>)         // everything that the drainer received, with its origin

  datatype Event =
    | Receive
    | Enter(pass: bool)
    | InCond(e: Step) | InThen(e: Step) | InElse(e: Step)
    | CondOut | CondDrop(i: nat)
    | EnterThen(pass: bool) | EnterElse(pass: bool)
    | DrainThen | DrainElse | DrainThenDrop(i: nat) | DrainElseDrop(i: nat)
    | Send

  /** Where a message goes once the drainer has received it. */
  function PlaceOf(s: State, o: Origin): Place {
    Target(s.bypass, s.hasDrops, o)
  }

  function Target(bypass: bool, hasDrops: bool, o: Origin): Place {
    if o.ThenOut? || o.ElseOut? || bypass then Out
    else if hasDrops then Drops
    else Discarded
  }

  /** A hop inside a pipeline. */
  predicate Inner(u: Sub, e: Step) {
    e.Forward? && Enabled(u.net, e)
  }

  predicate Possible(s: State, e: Event) {
    match e
    case Receive => !s.entry
    case Enter(pass) => s.entry && Enabled(s.cond.net, Accept(pass))
    case InCond(e) => Inner(s.cond, e)
    case InThen(e) => Inner(s.thn, e)
    case InElse(e) => Inner(s.els, e)
    case CondOut => s.forwarder.Free? && Enabled(s.cond.net, Deliver)
    case CondDrop(i) => s.forwarder.Free? && Enabled(s.cond.net, TakeDrop(i))
    case EnterThen(pass) => s.forwarder.ToThen? && Enabled(s.thn.net, Accept(pass))
    case EnterElse(pass) => s.forwarder.ToElse? && Enabled(s.els.net, Accept(pass))
    case DrainThen => s.drainer.Waiting? && Enabled(s.thn.net, Deliver)
    case DrainElse => s.drainer.Waiting? && Enabled(s.els.net, Deliver)
    case DrainThenDrop(i) => s.drainer.Waiting? && Enabled(s.thn.net, TakeDrop(i))
    case DrainElseDrop(i) => s.drainer.Waiting? && Enabled(s.els.net, TakeDrop(i))
    case Send => s.drainer.Handing?
  }

  /** The name of a pipeline's k-th message. */
  function Name(ins: seq<nat>, k: nat): nat {
    if k < |ins| then ins[k] else 0
  }

  /** A message enters a pipeline. */
  function Entered(u: Sub, m: nat, pass: bool): Sub
    requires WellFormed(u) && Enabled(u.net, Accept(pass))
  {
    Sub(Next(u.net, Accept(pass)), u.ins + [m])
  }

  /** A pipeline moves on its own or hands a message to its reader. */
  function Moved(u: Sub, e: Step): Sub
    requires WellFormed(u) && Enabled(u.net, e)
  {
    u.(net := Next(u.net, e))
  }

  /** The message that leaves a pipeline in a step. */
  function Leaving(u: Sub, e: Step): nat
    requires WellFormed(u) && Enabled(u.net, e) && (e.Deliver? || e.TakeDrop?)
  {
    Name(u.ins, if e.Deliver? then u.net.stages[|u.net.stages| - 1].m else u.net.stages[e.i].m)
  }

  predicate WellFormed(u: Sub) {
    |u.net.closes| == |u.net.stages| + 1
  }

  /** The drainer receives a message; it keeps the message in hand unless it discards it. */
  function Drained(s: State, m: nat, o: Origin): State {
    var t := s.(log := s.log + [Item(m, o)]);
    var place := PlaceOf(s, o);
    if place.Discarded? then t.(discarded := s.discarded + [m]) else t.(drainer := Handing(m, place))
  }

  /** A channel of the segment takes what the drainer hands out. */
  function Sent(s: State): State
    requires s.drainer.Handing?
  {
    var t := s.(drainer := Waiting);
    if s.drainer.to.Out? then t.(out := s.out + [s.drainer.m]) else t.(drops := s.drops + [s.drainer.m])
  }

  function After(s: State, e: Event): State
    requires Possible(s, e) && WellFormed(s.cond) && WellFormed(s.thn) && WellFormed(s.els)
  {
    match e
    case Receive => s.(received := s.received + 1, entry := true)
    case Enter(pass) =>
      s.(cond := Entered(s.cond, if s.received > 0 then s.received - 1 else 0, pass), entry := false)
    case InCond(e) => s.(cond := Moved(s.cond, e))
    case InThen(e) => s.(thn := Moved(s.thn, e))
    case InElse(e) => s.(els := Moved(s.els, e))
    case CondOut => s.(cond := Moved(s.cond, Deliver), forwarder := ToThen(Leaving(s.cond, Deliver)))
    case CondDrop(i) => s.(cond := Moved(s.cond, TakeDrop(i)), forwarder := ToElse(Leaving(s.cond, TakeDrop(i))))
    case EnterThen(pass) => s.(thn := Entered(s.thn, s.forwarder.m, pass), forwarder := Free)
    case EnterElse(pass) => s.(els := Entered(s.els, s.forwarder.m, pass), forwarder := Free)
    case DrainThen => Drained(s.(thn := Moved(s.thn, Deliver)), Leaving(s.thn, Deliver), ThenOut)
    case DrainElse => Drained(s.(els := Moved(s.els, Deliver)), Leaving(s.els, Deliver), ElseOut)
    case DrainThenDrop(i) => Drained(s.(thn := Moved(s.thn, TakeDrop(i))), Leaving(s.thn, TakeDrop(i)), ThenDrop)
    case DrainElseDrop(i) => Drained(s.(els := Moved(s.els, TakeDrop(i))), Leaving(s.els, TakeDrop(i)), ElseDrop)
    case Send => Sent(s)
  }

  // ---------------------------------------------------------------------------------------------
  // One sub-pipeline

  function Names(ins: seq<nat>, ks: seq<nat>): (ms: seq<nat>)
    ensures |ms| == |ks| && forall i :: 0 <= i < |ks| ==> ms[i] == Name(ins, ks[i])
  {
    if ks == [] then [] else Names(ins, ks[..|ks| - 1]) + [Name(ins, ks[|ks| - 1])]
  }

  /** The messages inside a pipeline. */
  function Inside(stages: seq<Stage>, ins: seq<nat>): multiset<nat> {
    if stages == [] then multiset{}
    else Inside(stages[1..], ins) + Load(stages[0], ins)
  }

  function OutOf(u: Sub): seq<nat> {
    Names(u.ins, u.net.delivered)
  }

  function DroppedBy(u: Sub): seq<nat> {
    Names(u.ins, u.net.dropped)
  }

  /** What entered is inside, has come out or was dropped. */
  ghost predicate Balanced(u: Sub) {
    multiset(u.ins) == multiset(OutOf(u)) + multiset(DroppedBy(u)) + Inside(u.net.stages, u.ins)
  }

  /** A sub-pipeline of a running branch; its drops are read, since the forwarder or drainer subscribed. */
  ghost predicate Ok(u: Sub) {
    && Inv(u.net) && u.net.subscribed && !u.net.inClosed
    && u.net.accepted == |u.ins| && Balanced(u)
  }

  function Load(t: Stage, ins: seq<nat>): multiset<nat> {
    if Busy(t) then multiset{Name(ins, t.m)} else multiset{}
  }

  lemma {:induction false} InsideUpdate(stages: seq<Stage>, ins: seq<nat>, i: nat, t: Stage)
    requires i < |stages|
    ensures Inside(stages[i := t], ins) + Load(stages[i], ins) == Inside(stages, ins) + Load(t, ins)
  {
    hide Load;
    var updated := stages[i := t];
    assert Inside(updated, ins) == Inside(updated[1..], ins) + Load(updated[0], ins);
    assert Inside(stages, ins) == Inside(stages[1..], ins) + Load(stages[0], ins);
    hide Inside;
    if i == 0 {
      assert updated[1..] == stages[1..];
    } else {
      assert updated[1..] == stages[1..][i - 1 := t];
      InsideUpdate(stages[1..], ins, i - 1, t);
      Exchange(Inside(updated[1..], ins), Inside(stages[1..], ins), Load(stages[i], ins), Load(t, ins),
               Load(stages[0], ins));
    }
  }

  lemma Exchange(a: multiset<nat>, b: multiset<nat>, x: multiset<nat>, y: multiset<nat>, z: multiset<nat>)
    requires a + x == b + y
    ensures (a + z) + x == (b + z) + y
  {
    assert (a + z) + x == (a + x) + z;
  }

  lemma InsideForward(stages: seq<Stage>, ins: seq<nat>, i: nat, t: Stage)
    requires i + 1 < |stages| && Busy(stages[i]) && !Busy(stages[i + 1]) && Busy(t) && t.m == stages[i].m
    ensures Inside(stages[i := Idle][i + 1 := t], ins) == Inside(stages, ins)
  {
    hide Inside;
    var cleared := stages[i := Idle];
    InsideUpdate(stages, ins, i, Idle);
    InsideUpdate(cleared, ins, i + 1, t);
    SameLoads(stages[i], stages[i + 1], t, ins);
    hide Load;
    Cancel(Inside(stages, ins), Inside(cleared, ins), Inside(cleared[i + 1 := t], ins), Load(t, ins));
  }

  lemma SameLoads(from: Stage, to: Stage, t: Stage, ins: seq<nat>)
    requires Busy(from) && !Busy(to) && Busy(t) && t.m == from.m
    ensures Load(Idle, ins) == multiset{} && Load(to, ins) == multiset{} && Load(from, ins) == Load(t, ins)
  {
  }

  lemma Cancel(a: multiset<nat>, b: multiset<nat>, c: multiset<nat>, x: multiset<nat>)
    requires b + x == a + multiset{} && c + multiset{} == b + x
    ensures c == a
  {
    assert c + multiset{} == c && a + multiset{} == a;
  }

  lemma {:induction false} InsideExtend(stages: seq<Stage>, ins: seq<nat>, m: nat)
    requires forall i :: 0 <= i < |stages| && Busy(stages[i]) ==> stages[i].m < |ins|
    ensures Inside(stages, ins + [m]) == Inside(stages, ins)
  {
    if stages != [] { InsideExtend(stages[1..], ins, m); }
  }

  lemma NamesExtend(ins: seq<nat>, ks: seq<nat>, m: nat)
    requires forall k :: k in ks ==> k < |ins|
    ensures Names(ins + [m], ks) == Names(ins, ks)
  {
    forall i | 0 <= i < |ks|
      ensures Names(ins + [m], ks)[i] == Names(ins, ks)[i]
    {
      assert ks[i] in ks;
    }
  }

  lemma NamesAppend(ins: seq<nat>, ks: seq<nat>, k: nat)
    ensures Names(ins, ks + [k]) == Names(ins, ks) + [Name(ins, k)]
  {
    assert (ks + [k])[..|ks|] == ks;
  }

  lemma MoveKeepsNet(u: Sub, e: Step)
    requires Ok(u) && Enabled(u.net, e)
    ensures Inv(Next(u.net, e))
  {
    StepKeepsPlaced(u.net, e);
    StepKeepsOrdered(u.net, e);
    StepKeepsClosing(u.net, e);
  }

  /** A message that enters is inside; what had come out is as before. */
  lemma EnterKeeps(u: Sub, m: nat, pass: bool)
    requires Ok(u) && Enabled(u.net, Accept(pass))
    ensures Ok(Entered(u, m, pass)) && Entered(u, m, pass).ins == u.ins + [m]
    ensures OutOf(Entered(u, m, pass)) == OutOf(u) && DroppedBy(Entered(u, m, pass)) == DroppedBy(u)
  {
    MoveKeepsNet(u, Accept(pass));
    assert WellFormed(u);
    var v := Entered(u, m, pass);
    NamesExtend(u.ins, u.net.delivered, m);
    NamesExtend(u.ins, u.net.dropped, m);
    InsideExtend(u.net.stages, u.ins, m);
    assert v.net.stages == u.net.stages[0 := v.net.stages[0]];
    assert Load(u.net.stages[0], v.ins) == multiset{} && Load(v.net.stages[0], v.ins) == multiset{m};
    hide Inv, Inside, Names, Load;
    InsideUpdate(u.net.stages, v.ins, 0, v.net.stages[0]);
    BagEnter(u.ins, multiset(OutOf(u)) + multiset(DroppedBy(u)), Inside(u.net.stages, u.ins),
             Inside(v.net.stages, v.ins), m);
  }

  lemma BagEnter(all: seq<nat>, left: multiset<nat>, inside: multiset<nat>, more: multiset<nat>, m: nat)
    requires multiset(all) == left + inside && more + multiset{} == inside + multiset{m}
    ensures multiset(all + [m]) == left + more
  {
    assert more + multiset{} == more;
  }

  /** A hop changes nothing that can be seen from outside. */
  lemma InnerKeeps(u: Sub, e: Step)
    requires Ok(u) && Inner(u, e)
    ensures Ok(Moved(u, e)) && Moved(u, e).ins == u.ins
    ensures OutOf(Moved(u, e)) == OutOf(u) && DroppedBy(Moved(u, e)) == DroppedBy(u)
  {
    MoveKeepsNet(u, e);
    assert WellFormed(u);
    var v := Moved(u, e);
    assert v.net.stages == u.net.stages[e.i := Idle][e.i + 1 := v.net.stages[e.i + 1]];
    hide Inv, Inside;
    InsideForward(u.net.stages, u.ins, e.i, v.net.stages[e.i + 1]);
  }

  lemma BagShift(all: seq<nat>, a: seq<nat>, b: seq<nat>, x: nat, inside: multiset<nat>, rest: multiset<nat>)
    requires multiset(all) == multiset(a) + multiset(b) + inside && rest + multiset{x} == inside
    ensures multiset(all) == multiset(a + [x]) + multiset(b) + rest == multiset(a) + multiset(b + [x]) + rest
  {
  }

  /** The next message out leaves. */
  lemma DeliverKeeps(u: Sub)
    requires Ok(u) && Enabled(u.net, Deliver)
    ensures Ok(Moved(u, Deliver)) && Moved(u, Deliver).ins == u.ins && DroppedBy(Moved(u, Deliver)) == DroppedBy(u)
    ensures OutOf(Moved(u, Deliver)) == OutOf(u) + [Leaving(u, Deliver)]
  {
    MoveKeepsNet(u, Deliver);
    assert WellFormed(u);
    hide Inv, Inside, Names;
    InsideUpdate(u.net.stages, u.ins, |u.net.stages| - 1, Idle);
    NamesAppend(u.ins, u.net.delivered, u.net.stages[|u.net.stages| - 1].m);
    BagShift(u.ins, OutOf(u), DroppedBy(u), Leaving(u, Deliver), Inside(u.net.stages, u.ins),
             Inside(Moved(u, Deliver).net.stages, u.ins));
  }

  /** A dropped message leaves. */
  lemma TakeDropKeeps(u: Sub, i: nat)
    requires Ok(u) && Enabled(u.net, TakeDrop(i))
    ensures Ok(Moved(u, TakeDrop(i))) && Moved(u, TakeDrop(i)).ins == u.ins && OutOf(Moved(u, TakeDrop(i))) == OutOf(u)
    ensures DroppedBy(Moved(u, TakeDrop(i))) == DroppedBy(u) + [Leaving(u, TakeDrop(i))]
  {
    MoveKeepsNet(u, TakeDrop(i));
    assert WellFormed(u);
    hide Inv, Inside, Names;
    InsideUpdate(u.net.stages, u.ins, i, Idle);
    NamesAppend(u.ins, u.net.dropped, u.net.stages[i].m);
    BagShift(u.ins, OutOf(u), DroppedBy(u), Leaving(u, TakeDrop(i)), Inside(u.net.stages, u.ins),
             Inside(Moved(u, TakeDrop(i)).net.stages, u.ins));
  }

  // ---------------------------------------------------------------------------------------------
  // The invariant of every interleaving

  /** The messages that the drainer received from one origin, in order. */
  function Select(log: seq<Item>, o: Origin): seq<nat> {
    if log == [] then []
    else Select(log[..|log| - 1], o) + if log[|log| - 1].origin == o then [log[|log| - 1].m] else []
  }

  lemma SelectAppend(log: seq<Item>, x: Item, o: Origin)
    ensures Select(log + [x], o) == Select(log, o) + if x.origin == o then [x.m] else []
  {
    assert (log + [x])[..|log|] == log;
  }

  function OnWayToThen(f: Forwarder): seq<nat> {
    if f.ToThen? then [f.m] else []
  }

  function OnWayToElse(f: Forwarder): seq<nat> {
    if f.ToElse? then [f.m] else []
  }

  ghost predicate PartsOk(s: State) {
    Ok(s.cond) && Ok(s.thn) && Ok(s.els)
  }

  /** The condition gets the received messages in order. */
  ghost predicate InputOk(s: State) {
    && s.received == |s.cond.ins| + (if s.entry then 1 else 0)
    && forall k :: 0 <= k < |s.cond.ins| ==> s.cond.ins[k] == k
  }

  /** What the condition lets through is what enters `then`, what it drops is what enters `else`. */
  ghost predicate Routed(s: State) {
    && OutOf(s.cond) == s.thn.ins + OnWayToThen(s.forwarder)
    && DroppedBy(s.cond) == s.els.ins + OnWayToElse(s.forwarder)
  }

  /** What leaves the branches is what the drainer has received. */
  ghost predicate Collected(s: State) {
    && Select(s.log, ThenOut) == OutOf(s.thn) && Select(s.log, ThenDrop) == DroppedBy(s.thn)
    && Select(s.log, ElseOut) == OutOf(s.els) && Select(s.log, ElseDrop) == DroppedBy(s.els)
  }

  /** What the drainer received has gone where its origin and the configuration send it, in order, but for
      the message that it still hands out. */
  ghost predicate HandedOn(s: State) {
    && Bound(s.bypass, s.hasDrops, s.log, Out) == s.out + InHand(s, Out)
    && Bound(s.bypass, s.hasDrops, s.log, Drops) == s.drops + InHand(s, Drops)
    && Bound(s.bypass, s.hasDrops, s.log, Discarded) == s.discarded
    && (s.drainer.Handing? ==> !s.drainer.to.Discarded?)
  }

  function InHand(s: State, place: Place): seq<nat> {
    if s.drainer.Handing? && s.drainer.to == place then [s.drainer.m] else []
  }

  /** The received messages that are bound for a place, in order. */
  function Bound(bypass: bool, hasDrops: bool, log: seq<Item>, place: Place): seq<nat> {
    if log == [] then []
    else
      var front, x := log[..|log| - 1], log[|log| - 1];
      Bound(bypass, hasDrops, front, place) + if Target(bypass, hasDrops, x.origin) == place then [x.m] else []
  }

  /** Only the drainer's part of the state matters. */
  lemma HandedOnKept(s: State, t: State)
    requires HandedOn(s) && t.bypass == s.bypass && t.hasDrops == s.hasDrops && t.log == s.log && t.drainer == s.drainer
    requires t.out == s.out && t.drops == s.drops && t.discarded == s.discarded
    ensures HandedOn(t)
  {
  }

  lemma BoundAppend(bypass: bool, hasDrops: bool, log: seq<Item>, x: Item, place: Place)
    ensures Bound(bypass, hasDrops, log + [x], place)
      == Bound(bypass, hasDrops, log, place) + if Target(bypass, hasDrops, x.origin) == place then [x.m] else []
  {
    assert (log + [x])[..|log|] == log;
  }

  ghost predicate BranchInv(s: State) {
    PartsOk(s) && InputOk(s) && Routed(s) && Collected(s) && HandedOn(s)
  }

  /** A started pipeline inside a branch. */
  function Fresh(n: nat): Sub {
    Sub(Start(n, true), [])
  }

  function Initial(bypass: bool, hasDrops: bool, nc: nat, nt: nat, ne: nat): State {
    State(bypass, hasDrops, 0, false, Fresh(nc), Fresh(nt), Fresh(ne), Free, Waiting, [], [], [], [])
  }

  lemma {:induction false} EmptyInside(n: nat)
    ensures Inside(seq(n, i => Idle), []) == multiset{}
  {
    if n > 0 {
      assert seq(n, i => Idle)[1..] == seq(n - 1, i => Idle);
      EmptyInside(n - 1);
    }
  }

  lemma FreshOk(n: nat)
    requires n > 0
    ensures Ok(Fresh(n)) && OutOf(Fresh(n)) == [] && DroppedBy(Fresh(n)) == []
  {
    StartInv(n, true);
    EmptyInside(n);
  }

  lemma InitialInv(bypass: bool, hasDrops: bool, nc: nat, nt: nat, ne: nat)
    requires nc > 0 && nt > 0 && ne > 0
    ensures BranchInv(Initial(bypass, hasDrops, nc, nt, ne))
  {
    FreshOk(nc);
    FreshOk(nt);
    FreshOk(ne);
  }

  lemma OkWellFormed(u: Sub)
    requires Ok(u)
    ensures WellFormed(u) && |u.net.stages| > 0
  {
  }

  lemma CondNames(u: Sub, ks: seq<nat>)
    requires forall k :: 0 <= k < |u.ins| ==> u.ins[k] == k
    requires forall k :: k in ks ==> k < |u.ins|
    ensures Names(u.ins, ks) == ks
  {
    forall i | 0 <= i < |ks|
      ensures Names(u.ins, ks)[i] == ks[i]
    {
      assert ks[i] in ks;
    }
  }

  lemma FeedKeepsInv(s: State, e: Event)
    requires BranchInv(s) && Possible(s, e) && (e.Receive? || e.Enter? || e.InCond?)
    ensures WellFormed(s.cond) && WellFormed(s.thn) && WellFormed(s.els) && BranchInv(After(s, e))
  {
    hide Ok, OutOf, DroppedBy, Select, WellFormed, Next, Enabled, Inner, Moved, Entered, Leaving, Name, HandedOn;
    OkWellFormed(s.cond);
    OkWellFormed(s.thn);
    OkWellFormed(s.els);
    HandedOnKept(s, After(s, e));
    match e
    case Receive =>
    case Enter(pass) => EnterKeeps(s.cond, s.received - 1, pass);
    case InCond(e') => InnerKeeps(s.cond, e');
    case _ =>
  }

  lemma RouteKeepsInv(s: State, e: Event)
    requires BranchInv(s) && Possible(s, e) && (e.CondOut? || e.CondDrop? || e.EnterThen? || e.EnterElse?)
    ensures WellFormed(s.cond) && WellFormed(s.thn) && WellFormed(s.els) && BranchInv(After(s, e))
  {
    hide Ok, OutOf, DroppedBy, Select, WellFormed, Next, Enabled, Inner, Moved, Entered, Leaving, Name, HandedOn;
    OkWellFormed(s.cond);
    OkWellFormed(s.thn);
    OkWellFormed(s.els);
    HandedOnKept(s, After(s, e));
    match e
    case CondOut => DeliverKeeps(s.cond);
    case CondDrop(i) => TakeDropKeeps(s.cond, i);
    case EnterThen(pass) => EnterKeeps(s.thn, s.forwarder.m, pass);
    case EnterElse(pass) => EnterKeeps(s.els, s.forwarder.m, pass);
    case _ =>
  }

  lemma HopKeepsInv(s: State, e: Event)
    requires BranchInv(s) && Possible(s, e) && (e.InThen? || e.InElse? || e.Send?)
    ensures WellFormed(s.cond) && WellFormed(s.thn) && WellFormed(s.els) && BranchInv(After(s, e))
  {
    hide Ok, OutOf, DroppedBy, Select, WellFormed, Next, Enabled, Inner, Moved, Entered, Leaving, Name, HandedOn;
    OkWellFormed(s.cond);
    OkWellFormed(s.thn);
    OkWellFormed(s.els);
    match e
    case InThen(e') =>
      HandedOnKept(s, After(s, e));
      InnerKeeps(s.thn, e');
    case InElse(e') =>
      HandedOnKept(s, After(s, e));
      InnerKeeps(s.els, e');
    case Send => SentKeepsHandedOn(s);
    case _ =>
  }

  lemma DrainThenKeepsInv(s: State, e: Event)
    requires BranchInv(s) && Possible(s, e) && (e.DrainThen? || e.DrainThenDrop?)
    ensures WellFormed(s.cond) && WellFormed(s.thn) && WellFormed(s.els) && BranchInv(After(s, e))
  {
    hide Ok, OutOf, DroppedBy, Select, WellFormed, Next, Enabled, Inner, Moved, Entered, Leaving, Name, HandedOn;
    OkWellFormed(s.cond);
    OkWellFormed(s.thn);
    OkWellFormed(s.els);
    forall x: Item, o: Origin
      ensures Select(s.log + [x], o) == Select(s.log, o) + if x.origin == o then [x.m] else []
    {
      SelectAppend(s.log, x, o);
    }
    match e
    case DrainThen =>
      DeliverKeeps(s.thn);
      DrainedKeepsHandedOn(s, s.(thn := Moved(s.thn, Deliver)), Leaving(s.thn, Deliver), ThenOut);
    case DrainThenDrop(i) =>
      TakeDropKeeps(s.thn, i);
      DrainedKeepsHandedOn(s, s.(thn := Moved(s.thn, TakeDrop(i))), Leaving(s.thn, TakeDrop(i)), ThenDrop);
    case _ =>
  }

  lemma DrainElseKeepsInv(s: State, e: Event)
    requires BranchInv(s) && Possible(s, e) && (e.DrainElse? || e.DrainElseDrop?)
    ensures WellFormed(s.cond) && WellFormed(s.thn) && WellFormed(s.els) && BranchInv(After(s, e))
  {
    hide Ok, OutOf, DroppedBy, Select, WellFormed, Next, Enabled, Inner, Moved, Entered, Leaving, Name, HandedOn;
    OkWellFormed(s.cond);
    OkWellFormed(s.thn);
    OkWellFormed(s.els);
    forall x: Item, o: Origin
      ensures Select(s.log + [x], o) == Select(s.log, o) + if x.origin == o then [x.m] else []
    {
      SelectAppend(s.log, x, o);
    }
    match e
    case DrainElse =>
      DeliverKeeps(s.els);
      DrainedKeepsHandedOn(s, s.(els := Moved(s.els, Deliver)), Leaving(s.els, Deliver), ElseOut);
    case DrainElseDrop(i) =>
      TakeDropKeeps(s.els, i);
      DrainedKeepsHandedOn(s, s.(els := Moved(s.els, TakeDrop(i))), Leaving(s.els, TakeDrop(i)), ElseDrop);
    case _ =>
  }

  /** The state after a receipt, whichever pipeline t has moved meanwhile. */
  lemma DrainedKeepsHandedOn(s: State, t: State, m: nat, o: Origin)
    requires HandedOn(s) && s.drainer.Waiting? && t == s.(thn := t.thn, els := t.els)
    ensures HandedOn(Drained(t, m, o))
  {
    hide Bound, Target;
    BoundAppend(s.bypass, s.hasDrops, s.log, Item(m, o), Out);
    BoundAppend(s.bypass, s.hasDrops, s.log, Item(m, o), Drops);
    BoundAppend(s.bypass, s.hasDrops, s.log, Item(m, o), Discarded);
    assert s.out + [] == s.out && s.drops + [] == s.drops && s.discarded + [] == s.discarded;
  }

  lemma SentKeepsHandedOn(s: State)
    requires HandedOn(s) && s.drainer.Handing?
    ensures HandedOn(Sent(s))
  {
    hide Bound, Target;
  }

  lemma StepKeepsInv(s: State, e: Event)
    requires BranchInv(s) && Possible(s, e)
    ensures WellFormed(s.cond) && WellFormed(s.thn) && WellFormed(s.els) && BranchInv(After(s, e))
  {
    hide BranchInv;
    if e.Receive? || e.Enter? || e.InCond? {
      FeedKeepsInv(s, e);
    } else if e.CondOut? || e.CondDrop? || e.EnterThen? || e.EnterElse? {
      RouteKeepsInv(s, e);
    } else if e.InThen? || e.InElse? || e.Send? {
      HopKeepsInv(s, e);
    } else if e.DrainThen? || e.DrainThenDrop? {
      DrainThenKeepsInv(s, e);
    } else {
      DrainElseKeepsInv(s, e);
    }
  }

  /** The interleavings of the branch. */
  ghost predicate Feasible(s: State, run: seq<Event>)
    decreases run
  {
    run == [] ||
    (&& Possible(s, run[0]) && WellFormed(s.cond) && WellFormed(s.thn) && WellFormed(s.els)
     && Feasible(After(s, run[0]), run[1..]))
  }

  function RunOf(s: State, run: seq<Event>): State
    requires Feasible(s, run)
    decreases run
  {
    if run == [] then s else RunOf(After(s, run[0]), run[1..])
  }

  lemma {:induction false} RunKeepsInv(s: State, run: seq<Event>)
    requires BranchInv(s) && Feasible(s, run)
    ensures BranchInv(RunOf(s, run))
    decreases run
  {
    hide BranchInv, Possible, After;
    if run != [] {
      StepKeepsInv(s, run[0]);
      RunKeepsInv(After(s, run[0]), run[1..]);
    }
  }

  /** A branch that has just started, over pipelines of any length. */
  predicate IsInitial(s: State) {
    var nc, nt, ne := |s.cond.net.stages|, |s.thn.net.stages|, |s.els.net.stages|;
    nc > 0 && nt > 0 && ne > 0 && s == Initial(s.bypass, s.hasDrops, nc, nt, ne)
  }

  /** The states that a branch can reach in any interleaving. */
  ghost predicate Reachable(s: State) {
    exists start: State, run :: IsInitial(start) && Feasible(start, run) && RunOf(start, run) == s
  }

  lemma ReachableInv(s: State)
    requires Reachable(s)
    ensures BranchInv(s)
  {
    hide BranchInv, IsInitial, Feasible, RunOf;
    var start: State, run :| IsInitial(start) && Feasible(start, run) && RunOf(start, run) == s;
    StartsInInv(start);
    RunKeepsInv(start, run);
  }

  lemma StartsInInv(s: State)
    requires IsInitial(s)
    ensures BranchInv(s)
  {
    hide BranchInv;
    InitialInv(s.bypass, s.hasDrops, |s.cond.net.stages|, |s.thn.net.stages|, |s.els.net.stages|);
  }

  // ---------------------------------------------------------------------------------------------
  // Every message is in exactly one place

  function Messages(log: seq<Item>): seq<nat> {
    if log == [] then [] else Messages(log[..|log| - 1]) + [log[|log| - 1].m]
  }

  /** The first n messages, each once. */
  function Upto(n: nat): multiset<nat> {
    if n == 0 then multiset{} else Upto(n - 1) + multiset{n - 1}
  }

  lemma {:induction false} UptoOnce(n: nat)
    ensures forall m: nat :: Upto(n)[m] == if m < n then 1 else 0
  {
    if n > 0 { UptoOnce(n - 1); }
  }

  lemma {:induction false} UptoOfInput(ins: seq<nat>, n: nat)
    requires n <= |ins| && forall k :: 0 <= k < n ==> ins[k] == k
    ensures multiset(ins[..n]) == Upto(n)
  {
    if n > 0 {
      hide Upto;
      UptoOfInput(ins, n - 1);
      UptoStep(n - 1);
      SliceSnoc(ins, n);
      BagSnoc(ins[..n - 1], ins[n - 1]);
    }
  }

  lemma SliceSnoc(s: seq<nat>, n: nat)
    requires 0 < n <= |s|
    ensures s[..n] == s[..n - 1] + [s[n - 1]]
  {
  }

  lemma BagSnoc(s: seq<nat>, m: nat)
    ensures multiset(s + [m]) == multiset(s) + multiset{m}
  {
  }

  lemma UptoStep(n: nat)
    ensures Upto(n + 1) == Upto(n) + multiset{n}
  {
  }

  lemma {:induction false} SelectSplits(log: seq<Item>)
    ensures multiset(Messages(log)) ==
      multiset(Select(log, ThenOut)) + multiset(Select(log, ThenDrop)) +
      multiset(Select(log, ElseOut)) + multiset(Select(log, ElseDrop))
  {
    if log != [] { SelectSplits(log[..|log| - 1]); }
  }

  lemma {:induction false} BoundSplits(bypass: bool, hasDrops: bool, log: seq<Item>)
    ensures multiset(Messages(log)) == multiset(Bound(bypass, hasDrops, log, Out))
      + multiset(Bound(bypass, hasDrops, log, Drops)) + multiset(Bound(bypass, hasDrops, log, Discarded))
  {
    if log != [] {
      hide Bound, Messages, Target;
      var front, x := log[..|log| - 1], log[|log| - 1];
      BoundSplits(bypass, hasDrops, front);
      BoundLast(bypass, hasDrops, log, Out);
      BoundLast(bypass, hasDrops, log, Drops);
      BoundLast(bypass, hasDrops, log, Discarded);
      MessagesLast(log);
      BagSnoc(Messages(front), x.m);
      BagSnoc(Bound(bypass, hasDrops, front, Target(bypass, hasDrops, x.origin)), x.m);
    }
  }

  lemma BoundLast(bypass: bool, hasDrops: bool, log: seq<Item>, place: Place)
    requires log != []
    ensures var front, x := log[..|log| - 1], log[|log| - 1];
      Bound(bypass, hasDrops, log, place)
      == if Target(bypass, hasDrops, x.origin) == place then Bound(bypass, hasDrops, front, place) + [x.m]
         else Bound(bypass, hasDrops, front, place)
  {
  }

  lemma MessagesLast(log: seq<Item>)
    requires log != []
    ensures Messages(log) == Messages(log[..|log| - 1]) + [log[|log| - 1].m]
  {
  }

  function Entry(s: State): multiset<nat> {
    if s.entry && s.received > 0 then multiset{s.received - 1} else multiset{}
  }

  /** The message that the forwarder or the drainer holds. */
  function Carried(s: State): multiset<nat> {
    multiset(OnWayToThen(s.forwarder)) + multiset(OnWayToElse(s.forwarder))
  }

  function Hand(s: State): multiset<nat> {
    if s.drainer.Handing? then multiset{s.drainer.m} else multiset{}
  }

  /** All messages that have left the segment. */
  function Done(s: State): multiset<nat> {
    multiset(s.out) + multiset(s.drops) + multiset(s.discarded)
  }

  /** All places of a message: held by Run, inside one of the three pipelines, held by the forwarder, held by
      the drainer, sent to Out, sent to Drops, or discarded. */
  function Places(s: State): multiset<nat> {
    Entry(s) + Inside(s.cond.net.stages, s.cond.ins) + Carried(s)
    + Inside(s.thn.net.stages, s.thn.ins) + Inside(s.els.net.stages, s.els.ins) + Hand(s) + Done(s)
  }

  /** In every interleaving each received message is in exactly one place, once, and nothing else is anywhere. */
  lemma ExactlyOnePlace(s: State)
    requires Reachable(s)
    ensures forall m: nat :: Places(s)[m] == if m < s.received then 1 else 0
  {
    hide Reachable, BranchInv, Places, Upto;
    ReachableInv(s);
    UptoOnce(s.received);
    PlacesSum(s);
  }

  lemma PlacesSum(s: State)
    requires BranchInv(s)
    ensures Places(s) == Upto(s.received)
  {
    hide PartsOk, InputOk, Routed, Collected, HandedOn, Upto, Inside, Messages, Entry, Carried, Hand, Done;
    InputIsUpto(s);
    CondSplits(s);
    DrainedSplits(s);
    ReceivedSplits(s);
    AddUp(multiset(s.cond.ins), Entry(s), Inside(s.cond.net.stages, s.cond.ins), Carried(s),
          multiset(s.thn.ins) + multiset(s.els.ins),
          Inside(s.thn.net.stages, s.thn.ins) + Inside(s.els.net.stages, s.els.ins), multiset(Messages(s.log)),
          Hand(s) + Done(s));
    assert Places(s) == Entry(s) + Inside(s.cond.net.stages, s.cond.ins) + Carried(s)
      + (Inside(s.thn.net.stages, s.thn.ins) + Inside(s.els.net.stages, s.els.ins)) + (Hand(s) + Done(s));
  }

  /** What Run has received is what entered the condition, and the message that it holds. */
  lemma InputIsUpto(s: State)
    requires InputOk(s)
    ensures Upto(s.received) == multiset(s.cond.ins) + Entry(s)
  {
    UptoOfInput(s.cond.ins, |s.cond.ins|);
    assert s.cond.ins[..|s.cond.ins|] == s.cond.ins;
  }

  /** What entered the condition is inside, with the forwarder, or entered a branch. */
  lemma CondSplits(s: State)
    requires PartsOk(s) && Routed(s)
    ensures multiset(s.cond.ins)
      == multiset(s.thn.ins) + multiset(s.els.ins) + Carried(s) + Inside(s.cond.net.stages, s.cond.ins)
  {
    hide Inv, OutOf, DroppedBy, Inside;
    BagOfTwo(s.thn.ins, OnWayToThen(s.forwarder));
    BagOfTwo(s.els.ins, OnWayToElse(s.forwarder));
  }

  lemma BagOfTwo(a: seq<nat>, b: seq<nat>)
    ensures multiset(a + b) == multiset(a) + multiset(b)
  {
  }

  /** What entered the branches is inside, or the drainer has received it. */
  lemma DrainedSplits(s: State)
    requires PartsOk(s) && Collected(s)
    ensures multiset(s.thn.ins) + multiset(s.els.ins)
      == multiset(Messages(s.log)) + (Inside(s.thn.net.stages, s.thn.ins) + Inside(s.els.net.stages, s.els.ins))
  {
    hide Inv, OutOf, DroppedBy, Inside, Select, Messages;
    SelectSplits(s.log);
  }

  /** What the drainer received is in its hand or has left the segment. */
  lemma ReceivedSplits(s: State)
    requires HandedOn(s)
    ensures multiset(Messages(s.log)) == Hand(s) + Done(s)
  {
    hide Bound, Messages;
    BoundSplits(s.bypass, s.hasDrops, s.log);
    BagOfTwo(s.out, InHand(s, Out));
    BagOfTwo(s.drops, InHand(s, Drops));
  }

  lemma AddUp(ins: multiset<nat>, entry: multiset<nat>, inCond: multiset<nat>, carried: multiset<nat>,
              entered: multiset<nat>, inBranches: multiset<nat>, received: multiset<nat>, left: multiset<nat>)
    requires ins == entered + carried + inCond && entered == received + inBranches && received == left
    ensures entry + inCond + carried + inBranches + left == ins + entry
  {
  }

  /** What entered `then` is an initial part of what the condition let through, in order; and what
      entered `else` of what it dropped. So a message enters `then` only if the condition output it. */
  lemma BranchesFollowCondition(s: State)
    requires Reachable(s)
    ensures s.thn.ins <= s.cond.net.delivered && s.els.ins <= s.cond.net.dropped
    ensures forall m :: m in s.thn.ins ==> m !in s.els.ins
  {
    hide Reachable;
    ReachableInv(s);
    assert forall k :: k in s.cond.net.delivered ==> k < |s.cond.ins|;
    CondNames(s.cond, s.cond.net.delivered);
    CondNames(s.cond, s.cond.net.dropped);
    forall m | m in s.thn.ins
      ensures m !in s.els.ins
    {
      assert m in s.cond.net.delivered;
    }
  }

  /** The messages that reach the drainer from `then`'s output keep the order in which the branch received them. */
  lemma ThenKeepsOrder(s: State)
    requires Reachable(s)
    ensures Increasing(Select(s.log, ThenOut))
  {
    hide Reachable;
    ReachableInv(s);
    BranchesFollowCondition(s);
    var ks, ins := s.thn.net.delivered, s.thn.ins;
    forall i, j | 0 <= i < j < |ks|
      ensures OutOf(s.thn)[i] < OutOf(s.thn)[j]
    {
      assert ks[i] in ks && ks[j] in ks;
      assert ins[ks[i]] == s.cond.net.delivered[ks[i]] && ins[ks[j]] == s.cond.net.delivered[ks[j]];
    }
  }

  lemma {:induction false} BoundNowhere(bypass: bool, hasDrops: bool, log: seq<Item>)
    ensures bypass ==> Bound(bypass, hasDrops, log, Drops) == [] && Bound(bypass, hasDrops, log, Discarded) == []
    ensures hasDrops ==> Bound(bypass, hasDrops, log, Discarded) == []
    ensures !hasDrops ==> Bound(bypass, hasDrops, log, Drops) == []
  {
    if log != [] { BoundNowhere(bypass, hasDrops, log[..|log| - 1]); }
  }

  /** In every interleaving: with bypass nothing is sent to Drops and nothing is discarded; nothing is discarded
      if the segment has Drops, and nothing is sent there if it has not. */
  lemma BypassDiscardsNothing(s: State)
    requires Reachable(s)
    ensures s.bypass ==> s.drops == [] && s.discarded == []
    ensures s.hasDrops ==> s.discarded == []
    ensures !s.hasDrops ==> s.drops == []
  {
    hide Reachable, Bound, Target;
    ReachableInv(s);
    BoundNowhere(s.bypass, s.hasDrops, s.log);
  }

  /** Without bypass what went to Out is exactly what came from an output of a branch, in order. */
  lemma OutIsBranchOutputs(s: State)
    requires Reachable(s) && !s.bypass
    ensures Outputs(s.log) == s.out + InHand(s, Out)
  {
    hide Reachable, Bound;
    ReachableInv(s);
    OutputsBound(s.hasDrops, s.log);
  }

  /** The messages received from an output of a branch, in order. */
  function Outputs(log: seq<Item>): seq<nat> {
    if log == [] then []
    else
      var x := log[|log| - 1];
      Outputs(log[..|log| - 1]) + if x.origin.ThenOut? || x.origin.ElseOut? then [x.m] else []
  }

  lemma {:induction false} OutputsBound(hasDrops: bool, log: seq<Item>)
    ensures Bound(false, hasDrops, log, Out) == Outputs(log)
  {
    if log != [] { OutputsBound(hasDrops, log[..|log| - 1]); }
  }

  // ---------------------------------------------------------------------------------------------
  // No deadlock, and every message is settled

  /** A message has been received and not yet sent to Out or Drops or discarded. */
  ghost predicate Unsettled(s: State) {
    s.entry || s.drainer.Handing? || !s.forwarder.Free? || Occupied(s.cond) || Occupied(s.thn) || Occupied(s.els)
  }

  ghost predicate Occupied(u: Sub) {
    exists i :: 0 <= i < |u.net.stages| && Busy(u.net.stages[i])
  }

  /** A pipeline that holds a message can hop or hand one over; an empty one can accept. */
  lemma SubProgress(u: Sub) returns (e: Step)
    requires Ok(u)
    ensures WellFormed(u) && Enabled(u.net, e)
    ensures if Occupied(u) then e.Forward? || e.Deliver? || e.TakeDrop? else e == Accept(true)
  {
    var found;
    e, found := Movable(u.net, |u.net.stages|);
    if !found { e := Accept(true); }
  }

  /** While the environment reads Out and Drops, a running branch that holds a message is never stuck. */
  lemma BranchProgress(s: State) returns (e: Event)
    requires Reachable(s) && Unsettled(s)
    ensures Possible(s, e) && !e.Receive?
  {
    hide Reachable, Ok, Enabled, Occupied, Collected, Routed, InputOk, WellFormed;
    ReachableInv(s);
    var c := SubProgress(s.cond);
    var t := SubProgress(s.thn);
    var l := SubProgress(s.els);
    if s.drainer.Handing? {
      e := Send;
    } else if Occupied(s.thn) {
      e := if t.Forward? then InThen(t) else if t.Deliver? then DrainThen else DrainThenDrop(t.i);
    } else if Occupied(s.els) {
      e := if l.Forward? then InElse(l) else if l.Deliver? then DrainElse else DrainElseDrop(l.i);
    } else if s.forwarder.ToThen? {
      e := EnterThen(true);
    } else if s.forwarder.ToElse? {
      e := EnterElse(true);
    } else if Occupied(s.cond) {
      e := if c.Forward? then InCond(c) else if c.Deliver? then CondOut else CondDrop(c.i);
    } else {
      e := Enter(true);
    }
  }

  /** What a message in the forwarder, and one in Run, still costs at most. */
  function ForwarderCost(s: State): nat {
    2 + 2 * (|s.thn.net.stages| + |s.els.net.stages|)
  }

  function BranchMeasure(s: State): nat {
    TotalCost(s.cond.net.stages, ForwarderCost(s)) + TotalCost(s.thn.net.stages, 1) + TotalCost(s.els.net.stages, 1)
    + (if s.entry then ForwarderCost(s) + 2 * |s.cond.net.stages| + 1 else 0)
    + (if s.forwarder.Free? then 0 else ForwarderCost(s)) + (if s.drainer.Handing? then 1 else 0)
  }

  lemma EnterCost(u: Sub, m: nat, pass: bool, base: nat)
    requires WellFormed(u) && Enabled(u.net, Accept(pass))
    ensures |Entered(u, m, pass).net.stages| == |u.net.stages|
    ensures TotalCost(Entered(u, m, pass).net.stages, base) <= TotalCost(u.net.stages, base) + base + 2 * |u.net.stages|
  {
    ReceiveCost(u.net, 0, u.net.accepted, pass, base);
  }

  lemma MoveCost(u: Sub, e: Step, base: nat)
    requires WellFormed(u) && Enabled(u.net, e) && (e.Forward? || e.Deliver? || e.TakeDrop?)
    ensures |Moved(u, e).net.stages| == |u.net.stages|
    ensures TotalCost(Moved(u, e).net.stages, base) + (if e.Forward? then 0 else base) < TotalCost(u.net.stages, base)
  {
    StepCost(u.net, e, base);
  }

  lemma FeedLowersMeasure(s: State, e: Event)
    requires Possible(s, e) && WellFormed(s.cond) && WellFormed(s.thn) && WellFormed(s.els)
    requires e.Enter? || e.InCond? || e.CondOut? || e.CondDrop?
    ensures BranchMeasure(After(s, e)) < BranchMeasure(s)
  {
    hide TotalCost, Next, Enabled, WellFormed, Moved, Entered, Leaving;
    var base := ForwarderCost(s);
    match e
    case Enter(pass) => EnterCost(s.cond, if s.received > 0 then s.received - 1 else 0, pass, base);
    case InCond(e') => MoveCost(s.cond, e', base);
    case CondOut => MoveCost(s.cond, Deliver, base);
    case CondDrop(i) => MoveCost(s.cond, TakeDrop(i), base);
    case _ =>
  }

  lemma ThenLowersMeasure(s: State, e: Event)
    requires Possible(s, e) && WellFormed(s.cond) && WellFormed(s.thn) && WellFormed(s.els)
    requires e.EnterThen? || e.InThen? || e.DrainThen? || e.DrainThenDrop?
    ensures BranchMeasure(After(s, e)) < BranchMeasure(s)
  {
    hide TotalCost, Next, Enabled, WellFormed, Moved, Entered, Leaving;
    match e
    case EnterThen(pass) => EnterCost(s.thn, s.forwarder.m, pass, 1);
    case InThen(e') => MoveCost(s.thn, e', 1);
    case DrainThen => MoveCost(s.thn, Deliver, 1);
    case DrainThenDrop(i) => MoveCost(s.thn, TakeDrop(i), 1);
    case _ =>
  }

  lemma ElseLowersMeasure(s: State, e: Event)
    requires Possible(s, e) && WellFormed(s.cond) && WellFormed(s.thn) && WellFormed(s.els)
    requires e.EnterElse? || e.InElse? || e.DrainElse? || e.DrainElseDrop?
    ensures BranchMeasure(After(s, e)) < BranchMeasure(s)
  {
    hide TotalCost, Next, Enabled, WellFormed, Moved, Entered, Leaving;
    match e
    case EnterElse(pass) => EnterCost(s.els, s.forwarder.m, pass, 1);
    case InElse(e') => MoveCost(s.els, e', 1);
    case DrainElse => MoveCost(s.els, Deliver, 1);
    case DrainElseDrop(i) => MoveCost(s.els, TakeDrop(i), 1);
    case _ =>
  }

  /** Every step but Receive makes the measure smaller. */
  lemma StepLowersMeasure(s: State, e: Event)
    requires Possible(s, e) && !e.Receive?
    requires WellFormed(s.cond) && WellFormed(s.thn) && WellFormed(s.els)
    ensures BranchMeasure(After(s, e)) < BranchMeasure(s)
  {
    hide WellFormed, TotalCost, Next, Enabled, Moved, Entered, Leaving;
    if e.Enter? || e.InCond? || e.CondOut? || e.CondDrop? {
      FeedLowersMeasure(s, e);
    } else if e.EnterThen? || e.InThen? || e.DrainThen? || e.DrainThenDrop? {
      ThenLowersMeasure(s, e);
    } else if e.EnterElse? || e.InElse? || e.DrainElse? || e.DrainElseDrop? {
      ElseLowersMeasure(s, e);
    }
  }

  /** Without new messages a run is no longer than the measure of its start, so finitely many accepted
      messages are settled in finitely many steps. */
  lemma {:induction false} RunsSettle(s: State, run: seq<Event>)
    requires Feasible(s, run) && forall i :: 0 <= i < |run| ==> !run[i].Receive?
    ensures |run| + BranchMeasure(RunOf(s, run)) <= BranchMeasure(s)
    decreases run
  {
    hide Possible, After, BranchMeasure, WellFormed;
    if run != [] {
      StepLowersMeasure(s, run[0]);
      RunsSettle(After(s, run[0]), run[1..]);
    }
  }

  /** At the end of such a run every received message has been sent to Out or Drops or discarded, once; with
      bypass, every received message has been sent to Out. */
  lemma SettledAtRest(s: State)
    requires Reachable(s) && forall e: Event :: Possible(s, e) ==> e.Receive?
    ensures !Unsettled(s) && Done(s) == Upto(s.received)
    ensures s.bypass ==> multiset(s.out) == Upto(s.received)
  {
    hide Reachable, BranchInv, Inside, Upto, Possible;
    ReachableInv(s);
    if Unsettled(s) { var e := BranchProgress(s); }
    PlacesSum(s);
    EmptyIfNotOccupied(s.cond.net.stages, s.cond.ins);
    EmptyIfNotOccupied(s.thn.net.stages, s.thn.ins);
    EmptyIfNotOccupied(s.els.net.stages, s.els.ins);
    assert Done(s) == Places(s);
    BypassDiscardsNothing(s);
  }

  lemma {:induction false} EmptyIfNotOccupied(stages: seq<Stage>, ins: seq<nat>)
    requires forall i :: 0 <= i < |stages| ==> !Busy(stages[i])
    ensures Inside(stages, ins) == multiset{}
  {
    if stages != [] { EmptyIfNotOccupied(stages[1..], ins); }
  }
}
