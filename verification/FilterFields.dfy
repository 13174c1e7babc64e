/** What the matches of a filter read: exact conditions over the fields of a flow, and the fields that a filter
    with one keyword does not see. */
module FilterFields {
  import opened Words
  import opened FilterSyntax
  import opened FilterMeaning

  /** The filter that is one match. */
  function One(d: Direction, m: DirectionalMatch): (e: Expr)
    ensures Slots(e) == 0
  {
    Single(Stmt(false, Directional(d, m)))
  }

  function Plain(m: RegularMatch): (e: Expr)
    ensures !m.PassesThrough? ==> Slots(e) == 0
  {
    Single(Stmt(false, Regular(m)))
  }

  function Between(lo: U64, hi: U64): Range {
    Range(Some(lo), Some(hi), None, None)
  }

  function Exactly(n: U64): Range {
    Range(None, None, None, Some(n))
  }

  function Below(n: U64): Range {
    Range(None, None, Some("<"), Some(n))
  }

  function Above(n: U64): Range {
    Range(None, None, Some(">"), Some(n))
  }

  // ---------------------------------------------------------------------------------------------
  // Directional matches

  /** With the keyword src, a bounded range is compared with the field of the flow's source. */
  lemma SourceRanges(lib: Library, flow: Flow, lo: U64, hi: U64)
    ensures Answer(lib, One(Src, Port(Between(lo, hi))), flow, []) <==> lo <= flow.srcPort <= hi
    ensures Answer(lib, One(Src, Asn(Between(lo, hi))), flow, []) <==> lo <= flow.srcAs <= hi
    ensures Answer(lib, One(Src, Netsize(Between(lo, hi))), flow, []) <==> lo <= flow.srcNet <= hi
    ensures Answer(lib, One(Src, Cid(Between(lo, hi))), flow, []) <==> lo <= flow.srcCid <= hi
    ensures Answer(lib, One(Src, Vrf(Between(lo, hi))), flow, []) <==> lo <= flow.ingressVrf <= hi
    ensures Answer(lib, One(Src, Interface(Speed(Between(lo, hi)))), flow, [])
      <==> 1000 * lo <= flow.srcIfSpeed < 1000 * (hi + 1)
  {
  }

  /** With the keyword dst, with the field of its destination. */
  lemma DestinationRanges(lib: Library, flow: Flow, lo: U64, hi: U64)
    ensures Answer(lib, One(Dst, Port(Between(lo, hi))), flow, []) <==> lo <= flow.dstPort <= hi
    ensures Answer(lib, One(Dst, Asn(Between(lo, hi))), flow, []) <==> lo <= flow.dstAs <= hi
    ensures Answer(lib, One(Dst, Netsize(Between(lo, hi))), flow, []) <==> lo <= flow.dstNet <= hi
    ensures Answer(lib, One(Dst, Cid(Between(lo, hi))), flow, []) <==> lo <= flow.dstCid <= hi
    ensures Answer(lib, One(Dst, Vrf(Between(lo, hi))), flow, []) <==> lo <= flow.egressVrf <= hi
    ensures Answer(lib, One(Dst, Interface(Speed(Between(lo, hi)))), flow, [])
      <==> 1000 * lo <= flow.dstIfSpeed < 1000 * (hi + 1)
  {
  }

  /** Addresses and interfaces of the keyword's side. */
  lemma SidesOfKeywords(lib: Library, flow: Flow, a: Bytes, bits: U64, id: U32, text: string)
    ensures Answer(lib, One(Src, Address(a, None)), flow, []) == lib.sameAddress(flow.srcAddr, a)
    ensures Answer(lib, One(Dst, Address(a, None)), flow, []) == lib.sameAddress(flow.dstAddr, a)
    ensures Answer(lib, One(Src, Address(a, Some(bits))), flow, []) == lib.networkContains(a, bits, flow.srcAddr)
    ensures Answer(lib, One(Dst, Address(a, Some(bits))), flow, []) == lib.networkContains(a, bits, flow.dstAddr)
    ensures Answer(lib, One(Src, Interface(SnmpId(id))), flow, []) == (flow.inIf == id)
    ensures Answer(lib, One(Dst, Interface(SnmpId(id))), flow, []) == (flow.outIf == id)
    ensures Answer(lib, One(Src, Interface(Name(text))), flow, []) == lib.containsFolded(flow.srcIfName, text)
    ensures Answer(lib, One(Dst, Interface(Name(text))), flow, []) == lib.containsFolded(flow.dstIfName, text)
    ensures Answer(lib, One(Src, Interface(Description(text))), flow, []) == lib.containsFolded(flow.srcIfDesc, text)
    ensures Answer(lib, One(Dst, Interface(Description(text))), flow, []) == lib.containsFolded(flow.dstIfDesc, text)
  {
  }

  lemma DirectedAnswer(lib: Library, d: Direction, m: DirectionalMatch, flow: Flow)
    ensures Answer(lib, One(d, m), flow, []) == DirectionalMeaning(lib, d, m, flow)
  {
    hide DirectionalMeaning;
  }

  /** Without a keyword a match accepts the flows that it accepts with src or with dst; a customer number also
      those whose own number lies in the range. */
  lemma NoKeyword(lib: Library, m: DirectionalMatch, flow: Flow)
    ensures Answer(lib, One(Either, m), flow, [])
      <==> (|| Answer(lib, One(Src, m), flow, []) || Answer(lib, One(Dst, m), flow, [])
            || (m.Cid? && Answer(lib, One(Src, m), flow.(srcCid := flow.cid), [])))
  {
    DirectedAnswer(lib, Either, m, flow);
    DirectedAnswer(lib, Src, m, flow);
    DirectedAnswer(lib, Dst, m, flow);
    DirectedAnswer(lib, Src, m, flow.(srcCid := flow.cid));
    hide Answer, RangeHolds;
    if m.Cid? {
      assert SideMeaning(lib, m, flow.(srcCid := flow.cid), Src) == RangeHolds(m.range, flow.cid);
    }
  }

  /** A number stands for itself, with a sign for what lies strictly below or above it. The three divide the
      flows, whatever the match. */
  lemma SignsDivide(lib: Library, flow: Flow, n: U64)
    ensures Answer(lib, One(Src, Port(Exactly(n))), flow, []) <==> flow.srcPort == n
    ensures Answer(lib, One(Src, Port(Below(n))), flow, []) <==> flow.srcPort < n
    ensures Answer(lib, One(Src, Port(Above(n))), flow, []) <==> flow.srcPort > n
    ensures Answer(lib, Plain(ByteCount(Exactly(n))), flow, []) <==> flow.bytes == n
    ensures Answer(lib, Plain(ByteCount(Below(n))), flow, []) <==> flow.bytes < n
    ensures Answer(lib, Plain(ByteCount(Above(n))), flow, []) <==> flow.bytes > n
  {
  }

  // ---------------------------------------------------------------------------------------------
  // Regular matches

  lemma QuotientBetween(x: nat, d: nat, lo: nat, hi: nat)
    requires d > 0
    ensures lo <= x / d <= hi <==> lo * d <= x < (hi + 1) * d
  {
    var q := x / d;
    QuotientFits(x, d);
    if lo <= q { ProductsInOrder(lo, q, d); } else { ProductsInOrder(q + 1, lo, d); }
    if q <= hi { ProductsInOrder(q + 1, hi + 1, d); } else { ProductsInOrder(hi + 1, q, d); }
  }

  lemma DividedBetween(x: U64, d: U64, lo: U64, hi: U64)
    requires d > 0
    ensures lo <= Div64(x, d) <= hi <==> lo * d <= x < (hi + 1) * d
  {
    QuotientBetween(x, d, lo, hi);
  }

  lemma QuotientFits(x: nat, d: nat)
    requires d > 0
    ensures x / d >= 0 && (x / d) * d <= x < (x / d + 1) * d
  {
    assert x == (x / d) * d + x % d;
  }

  lemma ProductsInOrder(a: nat, b: nat, d: nat)
    requires a <= b
    ensures a * d <= b * d
  {
  }

  lemma PlainAnswers(lib: Library, flow: Flow)
    ensures forall m: RegularMatch | !m.PassesThrough? ::
      Answer(lib, Plain(m), flow, []) == RegularMeaning(lib, m, flow)
  {
    hide RegularMeaning;
  }

  /** Counters and attributes that are compared as they are. */
  lemma PlainRanges(lib: Library, flow: Flow, lo: U64, hi: U64)
    ensures Answer(lib, Plain(ByteCount(Between(lo, hi))), flow, []) <==> lo <= flow.bytes <= hi
    ensures Answer(lib, Plain(PacketCount(Between(lo, hi))), flow, []) <==> lo <= flow.packets <= hi
    ensures Answer(lib, Plain(IpTos(Between(lo, hi))), flow, []) <==> lo <= flow.ipTos <= hi
    ensures Answer(lib, Plain(LocalPref(Between(lo, hi))), flow, []) <==> lo <= flow.localPref <= hi
    ensures Answer(lib, Plain(Med(Between(lo, hi))), flow, []) <==> lo <= flow.med <= hi
    ensures Answer(lib, Plain(SamplingRate(Between(lo, hi))), flow, []) <==> lo <= flow.samplingRate <= hi
  {
    PlainAnswers(lib, flow);
    hide Answer, Plain;
  }

  lemma RateAnswers(lib: Library, flow: Flow, lo: U64, hi: U64)
    ensures Answer(lib, Plain(Duration(Between(lo, hi))), flow, []) <==> lo <= FlowSeconds(flow) <= hi
    ensures Answer(lib, Plain(Pps(Between(lo, hi))), flow, [])
      <==> lo <= Div64(flow.packets, RateSeconds(flow)) <= hi
    ensures Answer(lib, Plain(Bps(Between(lo, hi))), flow, [])
      <==> lo <= Div64(Mul64(flow.bytes, 8), RateSeconds(flow)) <= hi
  {
    PlainAnswers(lib, flow);
    hide Answer, Plain, FlowSeconds, RateSeconds, Div64, Mul64;
  }

  lemma SecondsOf(flow: Flow, seconds: nat)
    requires flow.timeFlowStart <= flow.timeFlowEnd
    requires seconds == if flow.timeFlowStart == flow.timeFlowEnd then 1 else flow.timeFlowEnd - flow.timeFlowStart
    ensures FlowSeconds(flow) == flow.timeFlowEnd - flow.timeFlowStart && RateSeconds(flow) == seconds
  {
  }

  /** Rates are compared without division: in each of its seconds, or in one second if it has none, a flow carries
      at least lo and less than hi + 1 packets, or bits. */
  lemma RatesFit(lib: Library, flow: Flow, lo: U64, hi: U64, seconds: nat)
    requires flow.timeFlowStart <= flow.timeFlowEnd
    requires seconds == if flow.timeFlowStart == flow.timeFlowEnd then 1 else flow.timeFlowEnd - flow.timeFlowStart
    ensures Answer(lib, Plain(Duration(Between(lo, hi))), flow, [])
      <==> flow.timeFlowStart + lo <= flow.timeFlowEnd <= flow.timeFlowStart + hi
    ensures Answer(lib, Plain(Pps(Between(lo, hi))), flow, [])
      <==> lo * seconds <= flow.packets < (hi + 1) * seconds
    ensures 8 * flow.bytes < TWO_TO_THE_64 ==>
      (Answer(lib, Plain(Bps(Between(lo, hi))), flow, []) <==> lo * seconds <= 8 * flow.bytes < (hi + 1) * seconds)
  {
    hide Answer, Plain, FlowSeconds, RateSeconds, Div64;
    RateAnswers(lib, flow, lo, hi);
    SecondsOf(flow, seconds);
    assert 8 * flow.bytes < TWO_TO_THE_64 ==> Mul64(flow.bytes, 8) == 8 * flow.bytes;
    hide Mul64;
    DividedBetween(flow.packets, seconds, lo, hi);
    DividedBetween(Mul64(flow.bytes, 8), seconds, lo, hi);
  }

  /** The type of service is four times the code point and the congestion bits. */
  lemma ServiceFields(lib: Library, flow: Flow, dscp: Literal, ecn: Literal)
    requires dscp.n < TWO_TO_THE_32 && ecn.n < 4
    ensures Answer(lib, Plain(Dscp(dscp)), flow, []) && Answer(lib, Plain(Ecn(ecn)), flow, [])
      <==> flow.ipTos == 4 * dscp.n + ecn.n
  {
    PlainAnswers(lib, flow);
    hide Answer, Plain;
  }

  /** An ICMP flow carries type and code in its destination port. */
  lemma IcmpFields(lib: Library, flow: Flow, type_: U64, code: U64)
    requires type_ < TWO_TO_THE_32 && code < 256
    ensures Answer(lib, Plain(Icmp(IcmpType(type_))), flow, []) && Answer(lib, Plain(Icmp(IcmpCode(code))), flow, [])
      <==> flow.proto == 1 && flow.dstPort == 256 * type_ + code
  {
    PlainAnswers(lib, flow);
    hide Answer, Plain;
  }

  /** Attributes that are compared for equality, and the libraries' answers. */
  lemma Attributes(lib: Library, flow: Flow, n: U32, a: Bytes, code: string)
    ensures Answer(lib, Plain(Router(a)), flow, []) == lib.sameAddress(flow.samplerAddress, a)
    ensures Answer(lib, Plain(NextHop(a)), flow, []) == lib.sameAddress(flow.nextHop, a)
    ensures Answer(lib, Plain(NextHopAsn(n)), flow, []) <==> flow.nextHopAs == n
    ensures Answer(lib, Plain(RemoteCountry(code)), flow, []) == lib.containsUpper(flow.remoteCountry, code)
    ensures Answer(lib, Plain(FlowDirection(true)), flow, []) <==> flow.flowDirection == 0
    ensures Answer(lib, Plain(FlowDirection(false)), flow, []) <==> flow.flowDirection == 1
    ensures Answer(lib, Plain(Normalized), flow, []) <==> flow.normalized == 1
  {
    PlainAnswers(lib, flow);
    hide Answer, Plain;
  }

  /** Numbers and their names. */
  lemma Codes(lib: Library, flow: Flow, v: Literal)
    requires v.n < TWO_TO_THE_32
    ensures Answer(lib, Plain(Etype(v)), flow, []) <==> flow.etype == v.n
    ensures Answer(lib, Plain(Proto(v)), flow, []) <==> flow.proto == v.n
    ensures Answer(lib, Plain(Rpki(Some(v.n))), flow, []) <==> flow.validationStatus == v.n
    ensures !Answer(lib, Plain(Rpki(None)), flow, [])
  {
    PlainAnswers(lib, flow);
    hide Answer, Plain;
    assert Low32(v.n) == v.n;
    hide Low32;
  }

  function Bit(x: nat, i: nat): nat {
    if i == 0 then x % 2 else Bit(x / 2, i - 1)
  }

  lemma BitAt(x: nat, i: nat)
    ensures Bit(x, 0) == x % 2 && Bit(x, i + 1) == Bit(x / 2, i)
  {
  }

  lemma {:induction false} HasBitsIff(value: nat, mask: nat)
    ensures HasBits(value, mask) <==> forall i: nat :: Bit(mask, i) == 1 ==> Bit(value, i) == 1
    decreases mask
  {
    if mask == 0 {
      forall i: nat
        ensures Bit(mask, i) == 0
      {
        BitsOfZero(i);
      }
    } else {
      hide Bit;
      HasBitsIff(value / 2, mask / 2);
      BitAt(mask, 0);
      BitAt(value, 0);
      if HasBits(value, mask) {
        forall i: nat | Bit(mask, i) == 1
          ensures Bit(value, i) == 1
        {
          if i > 0 {
            BitAt(mask, i - 1);
            BitAt(value, i - 1);
          }
        }
      } else if mask % 2 == 1 ==> value % 2 == 1 {
        var i: nat :| Bit(mask / 2, i) == 1 && Bit(value / 2, i) != 1;
        BitAt(mask, i);
        BitAt(value, i);
      }
    }
  }

  lemma {:induction false} BitsOfZero(i: nat)
    ensures Bit(0, i) == 0
  {
    if i > 0 { BitsOfZero(i - 1); }
  }

  /** A value is compared as a whole and a key bit by bit; flags only on TCP flows. */
  lemma FlagFields(lib: Library, flow: Flow, n: U32)
    ensures Answer(lib, Plain(Status(Value(n))), flow, []) <==> flow.forwardingStatus == n
    ensures Answer(lib, Plain(Status(Key(n))), flow, [])
      <==> forall i: nat :: Bit(n, i) == 1 ==> Bit(flow.forwardingStatus, i) == 1
    ensures Answer(lib, Plain(TcpFlags(Value(n))), flow, []) <==> flow.proto == 6 && flow.tcpFlags == n
    ensures Answer(lib, Plain(TcpFlags(Key(n))), flow, [])
      <==> flow.proto == 6 && forall i: nat :: Bit(n, i) == 1 ==> Bit(flow.tcpFlags, i) == 1
  {
    hide HasBits, Bit, Answer, Plain;
    FlagAnswers(lib, flow, n);
    HasBitsIff(flow.forwardingStatus, n);
    HasBitsIff(flow.tcpFlags, n);
  }

  lemma FlagAnswers(lib: Library, flow: Flow, n: U32)
    ensures Answer(lib, Plain(Status(Value(n))), flow, []) <==> flow.forwardingStatus == n
    ensures Answer(lib, Plain(Status(Key(n))), flow, []) == HasBits(flow.forwardingStatus, n)
    ensures Answer(lib, Plain(TcpFlags(Value(n))), flow, []) <==> flow.proto == 6 && flow.tcpFlags == n
    ensures Answer(lib, Plain(TcpFlags(Key(n))), flow, []) == (flow.proto == 6 && HasBits(flow.tcpFlags, n))
  {
    PlainAnswers(lib, flow);
    hide Answer, Plain, HasBits;
    assert Low32(n) == n;
    hide Low32;
  }

  /** The numbers that a list is compared as. */
  function Lows(numbers: seq<U64>): (lows: seq<U32>)
    ensures |lows| == |numbers|
  {
    seq(|numbers|, k requires 0 <= k < |numbers| => Low32(numbers[k]))
  }

  /** A list that is not longer than the flow's path is accepted if and only if it is a contiguous part of it;
      for every other flow the annotation found decides. */
  lemma PassesThroughFields(lib: Library, flow: Flow, numbers: seq<U64>, leftover: bool)
    ensures flow.asPath != [] && |numbers| <= |flow.asPath| ==>
      (Answer(lib, Plain(PassesThrough(numbers)), flow, [leftover])
      <==> exists front, back :: flow.asPath == front + Lows(numbers) + back)
    ensures flow.asPath == [] || |numbers| > |flow.asPath| ==>
      Answer(lib, Plain(PassesThrough(numbers)), flow, [leftover]) == leftover
  {
    OccursIff(numbers, flow.asPath);
    hide Occurs, Lows;
  }

  lemma OccursIff(numbers: seq<U64>, path: seq<U32>)
    ensures Occurs(numbers, path) <==> exists front, back :: path == front + Lows(numbers) + back
  {
    hide OccursAt;
    if exists front, back :: path == front + Lows(numbers) + back {
      var front, back :| path == front + Lows(numbers) + back;
      PartOccurs(numbers, front, back);
    }
    if Occurs(numbers, path) {
      var i: nat :| OccursAt(numbers, path, i);
      OccursAsPart(numbers, path, i);
      var front, back := path[..i], path[i + |numbers|..];
      assert path == front + Lows(numbers) + back;
    }
  }

  lemma PartOccurs(numbers: seq<U64>, front: seq<U32>, back: seq<U32>)
    ensures OccursAt(numbers, front + Lows(numbers) + back, |front|)
  {
    hide Low32;
  }

  lemma OccursAsPart(numbers: seq<U64>, path: seq<U32>, i: nat)
    requires OccursAt(numbers, path, i)
    ensures i + |numbers| <= |path| && path == path[..i] + Lows(numbers) + path[i + |numbers|..]
  {
    hide Low32;
  }

  // ---------------------------------------------------------------------------------------------
  // Composed filters

  /** A conjunction accepts what both of its sides accept, a disjunction what one of them does, a negation what
      its statement does not, and the empty filter everything. */
  lemma Connectives(lib: Library, l: Stmt, r: Expr, flow: Flow, left: seq<bool>, right: seq<bool>)
    requires |left| == StmtSlots(l) && |right| == Slots(r)
    ensures Answer(lib, Join(l, And, r), flow, left + right)
      <==> Answer(lib, Single(l), flow, left) && Answer(lib, r, flow, right)
    ensures Answer(lib, Join(l, Or, r), flow, left + right)
      <==> Answer(lib, Single(l), flow, left) || Answer(lib, r, flow, right)
    ensures Answer(lib, Single(l.(negated := true)), flow, left)
      != Answer(lib, Single(l.(negated := false)), flow, left)
    ensures Answer(lib, Single(Stmt(false, SubExpr(r))), flow, right) == Answer(lib, r, flow, right)
    ensures Answer(lib, Empty, flow, [])
  {
    assert (left + right)[..StmtSlots(l)] == left && (left + right)[StmtSlots(l)..] == right;
  }

  /** The flows have the same source. */
  predicate SameSource(f: Flow, g: Flow) {
    && f.srcAddr == g.srcAddr && f.inIf == g.inIf && f.srcIfName == g.srcIfName && f.srcIfDesc == g.srcIfDesc
    && f.srcIfSpeed == g.srcIfSpeed && f.srcPort == g.srcPort && f.srcAs == g.srcAs && f.srcNet == g.srcNet
    && f.srcCid == g.srcCid && f.ingressVrf == g.ingressVrf
  }

  predicate SameDestination(f: Flow, g: Flow) {
    && f.dstAddr == g.dstAddr && f.outIf == g.outIf && f.dstIfName == g.dstIfName && f.dstIfDesc == g.dstIfDesc
    && f.dstIfSpeed == g.dstIfSpeed && f.dstPort == g.dstPort && f.dstAs == g.dstAs && f.dstNet == g.dstNet
    && f.dstCid == g.dstCid && f.egressVrf == g.egressVrf
  }

  /** Every match of the filter is a directional one with this keyword. */
  predicate AllMatches(e: Expr, d: Direction) {
    match e
    case Empty => true
    case Single(l) => StmtAllMatches(l, d)
    case Join(l, _, r) => StmtAllMatches(l, d) && AllMatches(r, d)
  }

  predicate StmtAllMatches(s: Stmt, d: Direction) {
    match s.body
    case Directional(k, _) => k == d
    case Regular(_) => false
    case SubExpr(e) => AllMatches(e, d)
  }

  /** A filter of src matches, however composed, sees nothing of a flow but its source; of dst matches, nothing
      but its destination. */
  lemma {:induction false} KeywordSees(lib: Library, e: Expr, d: Direction, f: Flow, g: Flow, left: seq<bool>)
    requires |left| == Slots(e) && AllMatches(e, d)
    requires (d == Src && SameSource(f, g)) || (d == Dst && SameDestination(f, g))
    ensures Answer(lib, e, f, left) == Answer(lib, e, g, left)
    decreases e
  {
    match e
    case Empty =>
    case Single(l) => StmtKeywordSees(lib, l, d, f, g, left);
    case Join(l, _, r) =>
      StmtKeywordSees(lib, l, d, f, g, left[..StmtSlots(l)]);
      KeywordSees(lib, r, d, f, g, left[StmtSlots(l)..]);
  }

  lemma {:induction false} StmtKeywordSees(lib: Library, s: Stmt, d: Direction, f: Flow, g: Flow, left: seq<bool>)
    requires |left| == StmtSlots(s) && StmtAllMatches(s, d)
    requires (d == Src && SameSource(f, g)) || (d == Dst && SameDestination(f, g))
    ensures StmtAnswer(lib, s, f, left) == StmtAnswer(lib, s, g, left)
    decreases s
  {
    match s.body
    case Directional(k, m) => MatchSees(lib, m, d, f, g);
    case SubExpr(e) => KeywordSees(lib, e, d, f, g, left);
  }

  lemma MatchSees(lib: Library, m: DirectionalMatch, d: Direction, f: Flow, g: Flow)
    requires (d == Src && SameSource(f, g)) || (d == Dst && SameDestination(f, g))
    ensures DirectionalMeaning(lib, d, m, f) == DirectionalMeaning(lib, d, m, g)
  {
    match m
    case Interface(SnmpId(_)) =>
    case Interface(Name(_)) =>
    case Interface(Description(_)) =>
    case Interface(Speed(_)) =>
    case _ =>
  }
}
