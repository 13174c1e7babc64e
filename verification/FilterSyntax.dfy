/** The abstract syntax of flow filters: what the visitor reads from a parsed filter,
    as plain values. Numbers are 64-bit words; the source truncates them to 32 bits
    where it compares them with a 32-bit field. */
module FilterSyntax {
  import opened Words

  /** A range has both bounds, or it has a number with an optional unary operator. */
  datatype Range = Range(lower: Option<U64>, upper: Option<U64>, unary: Option<string>, number: Option<U64>)
  {
    predicate WellFormed() {
      (lower.Some? && upper.Some?) || number.Some?
    }

    /** Lower exceeds Upper: no value lies in the range and the visitor may report an error. */
    predicate Bad() {
      lower.Some? && upper.Some? && lower.value > upper.value
    }
  }

  datatype Literal = Value(n: U64) | Key(n: U64)
  datatype IcmpField = IcmpType(n: U64) | IcmpCode(n: U64)
  datatype InterfaceField = SnmpId(n: U64) | Name(name: string) | Description(text: string) | Speed(range: Range)

  /** Matches that do not depend on a direction keyword. */
  datatype RegularMatch =
    | Router(address: Bytes)
    | NextHop(address: Bytes)
    | NextHopAsn(asn: U32)
    | ByteCount(range: Range)
    | PacketCount(range: Range)
    | RemoteCountry(code: string)
    | FlowDirection(incoming: bool)
    | Normalized
    | Duration(range: Range)
    | Etype(etype: Literal)
    | Proto(proto: Literal)
    | Status(status: Literal)
    | TcpFlags(flags: Literal)
    | IpTos(range: Range)
    | LocalPref(range: Range)
    | Med(range: Range)
    | Dscp(dscp: Literal)
    | Ecn(ecn: Literal)
    | SamplingRate(range: Range)
    | Icmp(icmp: IcmpField)
    | Bps(range: Range)
    | Pps(range: Range)
    | PassesThrough(numbers: seq<U64>)
    | Rpki(key: Option<U64>)
  {
    predicate HasRange() {
      ByteCount? || PacketCount? || Duration? || IpTos? || LocalPref? || Med? || SamplingRate? || Bps? || Pps?
    }

    predicate WellFormed() {
      HasRange() ==> this.range.WellFormed()
    }

    /** The visitor computes an error for a bad bps range but does not return it
        (visitor.go, BpsRangeMatch); every other bad range stops the walk. */
    predicate Rejected() {
      HasRange() && !Bps? && this.range.Bad()
    }
  }

  /** Matches that have a source and a destination side. */
  datatype DirectionalMatch =
    | Address(address: Bytes, mask: Option<U64>)
    | Interface(field: InterfaceField)
    | Port(range: Range)
    | Asn(range: Range)
    | Netsize(range: Range)
    | Cid(range: Range)
    | Vrf(range: Range)
  {
    predicate WellFormed() {
      match this
      case Address(_, _) => true
      case Interface(f) => f.Speed? ==> f.range.WellFormed()
      case _ => this.range.WellFormed()
    }

    predicate Rejected() {
      match this
      case Address(_, _) => false
      case Interface(f) => f.Speed? && f.range.Bad()
      case _ => this.range.Bad()
    }
  }

  datatype Direction = Either | Src | Dst

  datatype Conjunction = And | Or

  datatype Expr =
    | Empty
    | Single(left: Stmt)
    | Join(left: Stmt, conjunction: Conjunction, right: Expr)

  datatype Stmt = Stmt(negated: bool, body: Body)

  datatype Body =
    | Directional(direction: Direction, dmatch: DirectionalMatch)
    | Regular(rmatch: RegularMatch)
    | SubExpr(expr: Expr)

  /** The fields of an enriched flow that a filter can refer to. */
  datatype Flow = Flow(
    srcAddr: Bytes, dstAddr: Bytes, samplerAddress: Bytes, nextHop: Bytes,
    srcAs: U32, dstAs: U32, nextHopAs: U32, asPath: seq<U32>,
    timeFlowStart: U64, timeFlowEnd: U64, bytes: U64, packets: U64, samplingRate: U64,
    cid: U32, srcCid: U32, dstCid: U32,
    ipTos: U32, etype: U32, proto: U32, flowDirection: U32, tcpFlags: U32, forwardingStatus: U32,
    srcPort: U32, dstPort: U32, inIf: U32, outIf: U32,
    srcIfName: string, dstIfName: string, srcIfDesc: string, dstIfDesc: string,
    srcIfSpeed: U32, dstIfSpeed: U32,
    localPref: U32, med: U32, srcNet: U32, dstNet: U32,
    ingressVrf: U32, egressVrf: U32,
    normalized: U32, validationStatus: U32, remoteCountry: string)

  /** Library calls on addresses and strings, which are not part of this model. */
  datatype Library = Library(
    networkContains: (Bytes, U64, Bytes) -> bool, // net.IPNet.Contains, given network, prefix length and address
    sameAddress: (Bytes, Bytes) -> bool,          // net.IP.Equal
    containsFolded: (string, string) -> bool,     // strings.Contains on lower-cased arguments
    containsUpper: (string, string) -> bool)      // strings.Contains with an upper-cased needle

  /** Some range in the tree makes the visitor report an error. */
  predicate Rejected(e: Expr) {
    match e
    case Empty => false
    case Single(l) => StmtRejected(l)
    case Join(l, _, r) => StmtRejected(l) || Rejected(r)
  }

  predicate StmtRejected(s: Stmt) {
    match s.body
    case Directional(_, m) => m.Rejected()
    case Regular(m) => m.Rejected()
    case SubExpr(e) => Rejected(e)
  }

  /** The number of passes-through matches, the only nodes that can keep an old annotation. */
  function Slots(e: Expr): nat {
    match e
    case Empty => 0
    case Single(l) => StmtSlots(l)
    case Join(l, _, r) => StmtSlots(l) + Slots(r)
  }

  function StmtSlots(s: Stmt): nat {
    match s.body
    case Directional(_, _) => 0
    case Regular(m) => if m.PassesThrough? then 1 else 0
    case SubExpr(e) => Slots(e)
  }
}
