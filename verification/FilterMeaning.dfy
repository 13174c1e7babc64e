/** The meaning of a filter on one flow, and the answer the visitor gives when some
    nodes still hold annotations from earlier flows. */
module FilterMeaning {
  import opened Words
  import opened FilterSyntax

  /** The value lies in the range. */
  predicate InRange(r: Range, x: U64)
    requires r.WellFormed()
  {
    if r.lower.Some? && r.upper.Some? then r.lower.value <= x <= r.upper.value
    else if r.unary == Some("<") then x < r.number.value
    else if r.unary == Some(">") then x > r.number.value
    else x == r.number.value
  }

  /** InRange as a total predicate: an ill-formed range, which the grammar cannot produce, holds nothing. */
  predicate RangeHolds(r: Range, x: U64) {
    r.WellFormed() && InRange(r, x)
  }

  /** The numbers occur in the path at position i. */
  predicate OccursAt(numbers: seq<U64>, path: seq<U32>, i: nat) {
    i + |numbers| <= |path| && forall k :: 0 <= k < |numbers| ==> Low32(numbers[k]) == path[i + k]
  }

  /** The numbers occur in the path as consecutive elements. */
  ghost predicate Occurs(numbers: seq<U64>, path: seq<U32>) {
    exists i: nat :: OccursAt(numbers, path, i)
  }

  /** The visitor's loop over the path writes an annotation for this match. */
  predicate Writes(numbers: seq<U64>, path: seq<U32>) {
    path != [] && |numbers| <= |path|
  }

  function FlowSeconds(flow: Flow): U64 {
    Sub64(flow.timeFlowEnd, flow.timeFlowStart)
  }

  function RateSeconds(flow: Flow): (d: U64)
    ensures d > 0
  {
    if FlowSeconds(flow) == 0 then 1 else FlowSeconds(flow)
  }

  /** A plain value is compared as a whole, a key as a set of bits. */
  predicate LiteralHolds(v: Literal, field: U32) {
    if v.Value? then field == Low32(v.n) else HasBits(field, Low32(v.n))
  }

  /** The quantity that a range match compares. */
  function Measured(m: RegularMatch, flow: Flow): U64
    requires m.HasRange()
  {
    match m
    case ByteCount(_) => flow.bytes
    case PacketCount(_) => flow.packets
    case Duration(_) => FlowSeconds(flow)
    case IpTos(_) => flow.ipTos
    case LocalPref(_) => flow.localPref
    case Med(_) => flow.med
    case SamplingRate(_) => flow.samplingRate
    case Bps(_) => Div64(Mul64(flow.bytes, 8), RateSeconds(flow))
    case Pps(_) => Div64(flow.packets, RateSeconds(flow))
  }

  /** What a regular match says about a flow. */
  ghost predicate RegularMeaning(lib: Library, m: RegularMatch, flow: Flow) {
    match m
    case Router(a) => lib.sameAddress(flow.samplerAddress, a)
    case NextHop(a) => lib.sameAddress(flow.nextHop, a)
    case NextHopAsn(asn) => flow.nextHopAs == asn
    case RemoteCountry(code) => lib.containsUpper(flow.remoteCountry, code)
    case FlowDirection(incoming) => flow.flowDirection == if incoming then 0 else 1
    case Normalized => flow.normalized == 1
    case Etype(v) => flow.etype == Low32(v.n)
    case Proto(v) => flow.proto == Low32(v.n)
    case Status(v) => LiteralHolds(v, flow.forwardingStatus)
    case TcpFlags(v) => flow.proto == 6 && LiteralHolds(v, flow.tcpFlags)
    case Dscp(v) => flow.ipTos / 4 == Low32(v.n)
    case Ecn(v) => flow.ipTos % 4 == Low32(v.n)
    case Icmp(f) => flow.proto == 1 && Low32(f.n) == if f.IcmpType? then flow.dstPort / 256 else flow.dstPort % 256
    case PassesThrough(numbers) => Occurs(numbers, flow.asPath)
    case Rpki(key) => key.Some? && flow.validationStatus == Low32(key.value)
    case _ => RangeHolds(m.range, Measured(m, flow))
  }

  /** One side of a directional match; the side is never Either. */
  predicate SideMeaning(lib: Library, m: DirectionalMatch, flow: Flow, side: Direction) {
    var src := side == Src;
    match m
    case Address(a, mask) =>
      var x := if src then flow.srcAddr else flow.dstAddr;
      if mask.Some? then lib.networkContains(a, mask.value, x) else lib.sameAddress(x, a)
    case Interface(SnmpId(n)) => Low32(n) == if src then flow.inIf else flow.outIf
    case Interface(Name(s)) => lib.containsFolded(if src then flow.srcIfName else flow.dstIfName, s)
    case Interface(Description(s)) => lib.containsFolded(if src then flow.srcIfDesc else flow.dstIfDesc, s)
    case Interface(Speed(r)) => RangeHolds(r, (if src then flow.srcIfSpeed else flow.dstIfSpeed) / 1000)
    case Port(r) => RangeHolds(r, if src then flow.srcPort else flow.dstPort)
    case Asn(r) => RangeHolds(r, if src then flow.srcAs else flow.dstAs)
    case Netsize(r) => RangeHolds(r, if src then flow.srcNet else flow.dstNet)
    case Cid(r) => RangeHolds(r, if src then flow.srcCid else flow.dstCid)
    case Vrf(r) => RangeHolds(r, if src then flow.ingressVrf else flow.egressVrf)
  }

  /** A directional match without a keyword holds when either side does; a customer
      match also looks at the flow's own customer number. */
  predicate DirectionalMeaning(lib: Library, d: Direction, m: DirectionalMatch, flow: Flow) {
    match d
    case Src => SideMeaning(lib, m, flow, Src)
    case Dst => SideMeaning(lib, m, flow, Dst)
    case Either =>
      || SideMeaning(lib, m, flow, Src)
      || SideMeaning(lib, m, flow, Dst)
      || (m.Cid? && RangeHolds(m.range, flow.cid))
  }

  predicate Combine(op: Conjunction, x: bool, y: bool) {
    match op
    case And => x && y
    case Or => x || y
  }

  /** The meaning of a filter: true exactly for the flows it is meant to accept. */
  ghost predicate Meaning(lib: Library, e: Expr, flow: Flow) {
    match e
    case Empty => true
    case Single(l) => StmtMeaning(lib, l, flow)
    case Join(l, op, r) => Combine(op, StmtMeaning(lib, l, flow), Meaning(lib, r, flow))
  }

  ghost predicate StmtMeaning(lib: Library, s: Stmt, flow: Flow) {
    var b := match s.body
      case Directional(d, m) => DirectionalMeaning(lib, d, m, flow)
      case Regular(m) => RegularMeaning(lib, m, flow)
      case SubExpr(e) => Meaning(lib, e, flow);
    b != s.negated
  }

  // ---------------------------------------------------------------------------------------------
  // Answers in the presence of leftovers: one boolean per passes-through match, in visiting order.

  ghost predicate RegularAnswer(lib: Library, m: RegularMatch, flow: Flow, leftover: bool) {
    if m.PassesThrough? && !Writes(m.numbers, flow.asPath) then leftover else RegularMeaning(lib, m, flow)
  }

  ghost predicate Answer(lib: Library, e: Expr, flow: Flow, left: seq<bool>)
    requires |left| == Slots(e)
  {
    match e
    case Empty => true
    case Single(l) => StmtAnswer(lib, l, flow, left)
    case Join(l, op, r) =>
      Combine(op, StmtAnswer(lib, l, flow, left[..StmtSlots(l)]), Answer(lib, r, flow, left[StmtSlots(l)..]))
  }

  ghost predicate StmtAnswer(lib: Library, s: Stmt, flow: Flow, left: seq<bool>)
    requires |left| == StmtSlots(s)
  {
    var b := match s.body
      case Directional(d, m) => DirectionalMeaning(lib, d, m, flow)
      case Regular(m) => RegularAnswer(lib, m, flow, |left| == 1 && left[0])
      case SubExpr(e) => Answer(lib, e, flow, left);
    b != s.negated
  }

  /** The leftovers after one complete walk. */
  ghost function Next(lib: Library, e: Expr, flow: Flow, left: seq<bool>): (next: seq<bool>)
    requires |left| == Slots(e)
    ensures |next| == Slots(e)
  {
    match e
    case Empty => []
    case Single(l) => StmtNext(lib, l, flow, left)
    case Join(l, _, r) => StmtNext(lib, l, flow, left[..StmtSlots(l)]) + Next(lib, r, flow, left[StmtSlots(l)..])
  }

  ghost function StmtNext(lib: Library, s: Stmt, flow: Flow, left: seq<bool>): (next: seq<bool>)
    requires |left| == StmtSlots(s)
    ensures |next| == StmtSlots(s)
  {
    match s.body
    case Directional(_, _) => []
    case Regular(m) => if m.PassesThrough? then [RegularAnswer(lib, m, flow, left[0])] else []
    case SubExpr(e) => Next(lib, e, flow, left)
  }

  /** The value of x op y when it does not depend on what is unknown. */
  function CombineSettled(op: Conjunction, x: Option<bool>, y: Option<bool>): Option<bool> {
    var absorbing := op.Or?;
    if x == Some(absorbing) || y == Some(absorbing) then Some(absorbing)
    else if x.Some? && y.Some? then Some(!absorbing)
    else None
  }

  /** Three-valued evaluation in which a passes-through match that is not written is unknown. */
  ghost function Settled(lib: Library, e: Expr, flow: Flow): Option<bool> {
    match e
    case Empty => Some(true)
    case Single(l) => StmtSettled(lib, l, flow)
    case Join(l, op, r) => CombineSettled(op, StmtSettled(lib, l, flow), Settled(lib, r, flow))
  }

  ghost function StmtSettled(lib: Library, s: Stmt, flow: Flow): Option<bool> {
    var b := match s.body
      case Directional(d, m) => Some(DirectionalMeaning(lib, d, m, flow))
      case Regular(m) =>
        if m.PassesThrough? && !Writes(m.numbers, flow.asPath) then None else Some(RegularMeaning(lib, m, flow))
      case SubExpr(e) => Settled(lib, e, flow);
    match b
    case None => None
    case Some(v) => Some(v != s.negated)
  }

  // ---------------------------------------------------------------------------------------------
  // Bad ranges

  /** A filter that is one range match with exchanged bounds stops the walk unless it is over bits per
      second; such a filter is built, and it accepts no flow. */
  lemma BadRangeReportedIff(lib: Library, m: RegularMatch, flow: Flow)
    requires m.HasRange() && m.range.Bad()
    ensures Rejected(Single(Stmt(false, Regular(m)))) <==> !m.Bps?
    ensures !Meaning(lib, Single(Stmt(false, Regular(m))), flow)
  {
  }

  /** The range from 2 down to 1 bits per second. */
  lemma BadRateRange(lib: Library, flow: Flow)
    ensures var m := Bps(Range(Some(2), Some(1), None, None));
      && m.range.Bad() && !Rejected(Single(Stmt(false, Regular(m))))
      && !Meaning(lib, Single(Stmt(false, Regular(m))), flow)
  {
    BadRangeReportedIff(lib, Bps(Range(Some(2), Some(1), None, None)), flow);
  }

  // ---------------------------------------------------------------------------------------------
  // When the answer is the meaning

  /** A settled filter gives its settled value whatever the leftovers are, and that is its meaning. */
  lemma {:induction false} SettledAnswer(lib: Library, e: Expr, flow: Flow, left: seq<bool>)
    requires |left| == Slots(e)
    requires Settled(lib, e, flow).Some?
    ensures Answer(lib, e, flow, left) == Meaning(lib, e, flow) == Settled(lib, e, flow).value
    decreases e
  {
    match e
    case Empty =>
    case Single(l) => StmtSettledAnswer(lib, l, flow, left);
    case Join(l, op, r) =>
      if StmtSettled(lib, l, flow).Some? { StmtSettledAnswer(lib, l, flow, left[..StmtSlots(l)]); }
      if Settled(lib, r, flow).Some? { SettledAnswer(lib, r, flow, left[StmtSlots(l)..]); }
  }

  lemma {:induction false} StmtSettledAnswer(lib: Library, s: Stmt, flow: Flow, left: seq<bool>)
    requires |left| == StmtSlots(s)
    requires StmtSettled(lib, s, flow).Some?
    ensures StmtAnswer(lib, s, flow, left) == StmtMeaning(lib, s, flow) == StmtSettled(lib, s, flow).value
    decreases s
  {
    if s.body.SubExpr? { SettledAnswer(lib, s.body.expr, flow, left); }
  }

  /** Leftovers of a wanted length. */
  function Blank(n: nat): (s: seq<bool>)
    ensures |s| == n
  {
    seq(n, i => false)
  }

  /** An unsettled filter can be driven to either answer by its annotations alone: every passes-through
      match has its own place in the tree. Not all annotations are ones that earlier flows can leave. */
  lemma {:induction false} UnsettledAnswer(lib: Library, e: Expr, flow: Flow, wanted: bool) returns (left: seq<bool>)
    requires Settled(lib, e, flow).None?
    ensures |left| == Slots(e) && Answer(lib, e, flow, left) == wanted
    decreases e
  {
    if e.Single? {
      left := StmtUnsettledAnswer(lib, e.left, flow, wanted);
    } else {
      var l, r := Blank(StmtSlots(e.left)), Blank(Slots(e.right));
      if StmtSettled(lib, e.left, flow).None? {
        l := StmtUnsettledAnswer(lib, e.left, flow, wanted);
      } else {
        StmtSettledAnswer(lib, e.left, flow, l);
      }
      if Settled(lib, e.right, flow).None? {
        r := UnsettledAnswer(lib, e.right, flow, wanted);
      } else {
        SettledAnswer(lib, e.right, flow, r);
      }
      left := l + r;
      assert left[..StmtSlots(e.left)] == l && left[StmtSlots(e.left)..] == r;
    }
  }

  lemma {:induction false} StmtUnsettledAnswer(lib: Library, s: Stmt, flow: Flow, wanted: bool)
    returns (left: seq<bool>)
    requires StmtSettled(lib, s, flow).None?
    ensures |left| == StmtSlots(s) && StmtAnswer(lib, s, flow, left) == wanted
    decreases s
  {
    if s.body.SubExpr? {
      left := UnsettledAnswer(lib, s.body.expr, flow, wanted != s.negated);
    } else {
      left := [wanted != s.negated];
    }
  }

  /** The answer is the meaning for arbitrary annotations exactly when the filter is settled on the flow. */
  lemma AnswerIsMeaningIffSettled(lib: Library, e: Expr, flow: Flow)
    ensures (forall left: seq<bool> | |left| == Slots(e) :: Answer(lib, e, flow, left) == Meaning(lib, e, flow))
            <==> Settled(lib, e, flow).Some?
  {
    if Settled(lib, e, flow).Some? {
      forall left: seq<bool> | |left| == Slots(e)
        ensures Answer(lib, e, flow, left) == Meaning(lib, e, flow)
      {
        SettledAnswer(lib, e, flow, left);
      }
    } else {
      var left := UnsettledAnswer(lib, e, flow, !Meaning(lib, e, flow));
    }
  }

  /** Every passes-through list is no longer than the flow's non-empty AS path. */
  predicate AllWritten(e: Expr, flow: Flow) {
    match e
    case Empty => true
    case Single(l) => StmtAllWritten(l, flow)
    case Join(l, _, r) => StmtAllWritten(l, flow) && AllWritten(r, flow)
  }

  predicate StmtAllWritten(s: Stmt, flow: Flow) {
    match s.body
    case Directional(_, _) => true
    case Regular(m) => m.PassesThrough? ==> Writes(m.numbers, flow.asPath)
    case SubExpr(e) => AllWritten(e, flow)
  }

  /** If every list is written, the filter is settled: the answer is the meaning for all leftovers. */
  lemma {:induction false} AllWrittenSettles(lib: Library, e: Expr, flow: Flow)
    requires AllWritten(e, flow)
    ensures Settled(lib, e, flow) == Some(Meaning(lib, e, flow))
    decreases e
  {
    match e
    case Empty =>
    case Single(l) => StmtAllWrittenSettles(lib, l, flow);
    case Join(l, _, r) => StmtAllWrittenSettles(lib, l, flow); AllWrittenSettles(lib, r, flow);
  }

  lemma {:induction false} StmtAllWrittenSettles(lib: Library, s: Stmt, flow: Flow)
    requires StmtAllWritten(s, flow)
    ensures StmtSettled(lib, s, flow) == Some(StmtMeaning(lib, s, flow))
    decreases s
  {
    if s.body.SubExpr? { AllWrittenSettles(lib, s.body.expr, flow); }
  }

  /** A stale answer that two ordinary flows produce: the filter "passes-through 1" accepts a flow
      with an empty path right after a flow whose path is [1]. */
  lemma StaleAnswer(lib: Library, first: Flow, second: Flow)
    requires first.asPath == [1] && second.asPath == []
    ensures var e := Single(Stmt(false, Regular(PassesThrough([1]))));
            && !Meaning(lib, e, second)
            && Answer(lib, e, second, Next(lib, e, first, [false]))
  {
    assert OccursAt([1], first.asPath, 0);
  }

  // ---------------------------------------------------------------------------------------------
  // Source and destination are symmetric

  function SwapDirection(d: Direction): Direction {
    match d
    case Either => Either
    case Src => Dst
    case Dst => Src
  }

  /** The filter with its src and dst keywords exchanged. */
  function SwapExpr(e: Expr): (r: Expr)
    ensures Slots(r) == Slots(e) && Rejected(r) == Rejected(e)
  {
    match e
    case Empty => Empty
    case Single(l) => Single(SwapStmt(l))
    case Join(l, op, r) => Join(SwapStmt(l), op, SwapExpr(r))
  }

  function SwapStmt(s: Stmt): (r: Stmt)
    ensures StmtSlots(r) == StmtSlots(s) && StmtRejected(r) == StmtRejected(s)
  {
    match s.body
    case Directional(d, m) => s.(body := Directional(SwapDirection(d), m))
    case Regular(_) => s
    case SubExpr(e) => s.(body := SubExpr(SwapExpr(e)))
  }

  /** The flow with its source and destination fields exchanged. */
  function SwapFlow(f: Flow): Flow {
    f.(srcAddr := f.dstAddr, dstAddr := f.srcAddr, srcAs := f.dstAs, dstAs := f.srcAs,
       srcCid := f.dstCid, dstCid := f.srcCid, srcPort := f.dstPort, dstPort := f.srcPort,
       inIf := f.outIf, outIf := f.inIf, srcIfName := f.dstIfName, dstIfName := f.srcIfName,
       srcIfDesc := f.dstIfDesc, dstIfDesc := f.srcIfDesc, srcIfSpeed := f.dstIfSpeed, dstIfSpeed := f.srcIfSpeed,
       srcNet := f.dstNet, dstNet := f.srcNet, ingressVrf := f.egressVrf, egressVrf := f.ingressVrf)
  }

  /** An ICMP match reads type and code from the destination port, so it sees the exchange
      unless the flow is not ICMP or both ports carry the same value of that field. */
  predicate IcmpBlind(f: IcmpField, flow: Flow) {
    flow.proto != 1 ||
    var p, q := if f.IcmpType? then flow.srcPort / 256 else flow.srcPort % 256,
                if f.IcmpType? then flow.dstPort / 256 else flow.dstPort % 256;
    (Low32(f.n) == p) == (Low32(f.n) == q)
  }

  predicate Symmetric(e: Expr, flow: Flow) {
    match e
    case Empty => true
    case Single(l) => StmtSymmetric(l, flow)
    case Join(l, _, r) => StmtSymmetric(l, flow) && Symmetric(r, flow)
  }

  predicate StmtSymmetric(s: Stmt, flow: Flow) {
    match s.body
    case Directional(_, _) => true
    case Regular(m) => m.Icmp? ==> IcmpBlind(m.icmp, flow)
    case SubExpr(e) => Symmetric(e, flow)
  }

  lemma SideSwap(lib: Library, m: DirectionalMatch, flow: Flow)
    ensures SideMeaning(lib, m, SwapFlow(flow), Src) == SideMeaning(lib, m, flow, Dst)
    ensures SideMeaning(lib, m, SwapFlow(flow), Dst) == SideMeaning(lib, m, flow, Src)
  {
    match m
    case Interface(SnmpId(_)) =>
    case Interface(Name(_)) =>
    case Interface(Description(_)) =>
    case Interface(Speed(_)) =>
    case _ =>
  }

  /** A regular match is blind to the exchange exactly when it is no ICMP match that sees it. */
  lemma RegularSwap(lib: Library, m: RegularMatch, flow: Flow)
    ensures RegularMeaning(lib, m, SwapFlow(flow)) == RegularMeaning(lib, m, flow)
            <==> (m.Icmp? ==> IcmpBlind(m.icmp, flow))
  {
  }

  /** Exchanging the keywords of the filter and the fields of the flow leaves every answer unchanged. */
  lemma {:induction false} SwapAnswer(lib: Library, e: Expr, flow: Flow, left: seq<bool>)
    requires |left| == Slots(e) && Symmetric(e, flow)
    ensures Answer(lib, SwapExpr(e), SwapFlow(flow), left) == Answer(lib, e, flow, left)
    decreases e
  {
    match e
    case Empty =>
    case Single(l) => StmtSwapAnswer(lib, l, flow, left);
    case Join(l, _, r) =>
      StmtSwapAnswer(lib, l, flow, left[..StmtSlots(l)]);
      SwapAnswer(lib, r, flow, left[StmtSlots(l)..]);
  }

  lemma {:induction false} StmtSwapAnswer(lib: Library, s: Stmt, flow: Flow, left: seq<bool>)
    requires |left| == StmtSlots(s) && StmtSymmetric(s, flow)
    ensures StmtAnswer(lib, SwapStmt(s), SwapFlow(flow), left) == StmtAnswer(lib, s, flow, left)
    decreases s
  {
    match s.body
    case Directional(_, m) => SideSwap(lib, m, flow);
    case Regular(m) => RegularSwap(lib, m, flow);
    case SubExpr(e) => SwapAnswer(lib, e, flow, left);
  }

  /** Exchanging twice is the identity. */
  lemma {:induction false} SwapTwice(e: Expr)
    ensures SwapExpr(SwapExpr(e)) == e
    decreases e
  {
    if !e.Empty? { StmtSwapTwice(e.left); }
    if e.Join? { SwapTwice(e.right); }
  }

  lemma {:induction false} StmtSwapTwice(s: Stmt)
    ensures SwapStmt(SwapStmt(s)) == s
    decreases s
  {
    if s.body.SubExpr? { SwapTwice(s.body.expr); }
  }
}
