/** The visitor of segments/filter/flowfilter/visitor.go: it walks a parsed filter in post-order and
    writes its results into the nodes. The syntax of a node never changes after parsing (const
    fields); its annotations (var fields) are overwritten by every walk, and one tree serves all flows. */
module FilterVisitor {
  import opened Words
  import opened FilterSyntax
  import opened FilterMeaning

  class RegularMatchNode {
    const syntax: RegularMatch
    var evalResult: bool

    constructor (syntax: RegularMatch)
      ensures this.syntax == syntax && !evalResult
    {
      this.syntax := syntax;
      evalResult := false;
    }
  }

  class RegularMatchGroup {
    const child: RegularMatchNode
    var evalResult: bool

    constructor (child: RegularMatchNode)
      ensures this.child == child && !evalResult
    {
      this.child := child;
      evalResult := false;
    }

    ghost function Nodes(): set<object> { {this, child} }

    ghost function Tree(): Body { Regular(child.syntax) }

    ghost predicate Valid() { child.syntax.WellFormed() }

    ghost function Leftovers(): seq<bool>
      reads child
    {
      if child.syntax.PassesThrough? then [child.evalResult] else []
    }
  }

  class IfSpeedMatchNode {
    const range: Range
    var evalResultSrc: bool
    var evalResultDst: bool

    constructor (range: Range)
      ensures this.range == range
    {
      this.range := range;
    }
  }

  class DirectionalMatchNode {
    const syntax: DirectionalMatch
    const speed: IfSpeedMatchNode? // the child of an interface speed match
    var evalResult: bool
    var evalResultSrc: bool
    var evalResultDst: bool

    constructor (syntax: DirectionalMatch, speed: IfSpeedMatchNode?)
      ensures this.syntax == syntax && this.speed == speed
    {
      this.syntax := syntax;
      this.speed := speed;
    }

    ghost predicate Valid() {
      && syntax.WellFormed()
      && ((syntax.Interface? && syntax.field.Speed?) <==> speed != null)
      && (speed != null ==> speed.range == syntax.field.range)
    }

    ghost function Nodes(): set<object> { {this} + if speed == null then {} else {speed} }
  }

  class DirectionalMatchGroup {
    const direction: Option<string>
    const child: DirectionalMatchNode
    var evalResult: bool

    constructor (direction: Option<string>, child: DirectionalMatchNode)
      ensures this.direction == direction && this.child == child
    {
      this.direction := direction;
      this.child := child;
    }

    ghost predicate Valid() {
      direction in {None, Some("src"), Some("dst")} && child.Valid()
    }

    ghost function Nodes(): set<object> { {this} + child.Nodes() }

    ghost function Tree(): Body {
      var side := if direction == Some("src") then Src else if direction == Some("dst") then Dst else Either;
      Directional(side, child.syntax)
    }
  }

  class Statement {
    const negated: Option<bool>
    const directionalMatch: DirectionalMatchGroup?
    const regularMatch: RegularMatchGroup?
    const subExpression: Expression?
    ghost const tree: Stmt
    ghost const nodes: set<object>
    var evalResult: bool

    constructor (negated: Option<bool>, directionalMatch: DirectionalMatchGroup?, regularMatch: RegularMatchGroup?,
                 subExpression: Expression?)
      requires directionalMatch != null ==> directionalMatch.Valid() && regularMatch == null && subExpression == null
      requires regularMatch != null ==> regularMatch.Valid() && subExpression == null
      requires subExpression != null ==> subExpression.Valid()
      requires directionalMatch != null || regularMatch != null || subExpression != null
      ensures Valid() && fresh(this) && this.negated == negated && this.directionalMatch == directionalMatch
      ensures this.regularMatch == regularMatch && this.subExpression == subExpression
    {
      this.negated := negated;
      this.directionalMatch := directionalMatch;
      this.regularMatch := regularMatch;
      this.subExpression := subExpression;
      tree := Stmt(negated == Some(true),
        if directionalMatch != null then directionalMatch.Tree()
        else if regularMatch != null then regularMatch.Tree()
        else SubExpr(subExpression.tree));
      nodes := {this} +
        if directionalMatch != null then directionalMatch.Nodes()
        else if regularMatch != null then regularMatch.Nodes()
        else subExpression.nodes;
    }

    /** Exactly one alternative is set. */
    ghost predicate Valid()
      decreases tree
    {
      && tree.negated == (negated == Some(true))
      && (directionalMatch != null ==>
          && regularMatch == null && subExpression == null
          && directionalMatch.Valid() && tree.body == directionalMatch.Tree()
          && nodes == {this} + directionalMatch.Nodes())
      && (regularMatch != null ==>
          && subExpression == null
          && regularMatch.Valid() && tree.body == regularMatch.Tree()
          && nodes == {this} + regularMatch.Nodes())
      && (subExpression != null ==>
          && tree.body == SubExpr(subExpression.tree) && subExpression.Valid()
          && this !in subExpression.nodes && nodes == {this} + subExpression.nodes)
      && (directionalMatch != null || regularMatch != null || subExpression != null)
    }

    ghost function Leftovers(): (left: seq<bool>)
      requires Valid()
      reads nodes - {this}
      ensures |left| == StmtSlots(tree)
      decreases tree
    {
      if directionalMatch != null then []
      else if regularMatch != null then regularMatch.Leftovers()
      else subExpression.Leftovers()
    }
  }

  class Expression {
    const left: Statement?
    const conjunction: Option<string>
    const right: Expression?
    ghost const tree: Expr
    ghost const nodes: set<object>
    var evalResult: bool

    constructor (left: Statement?, conjunction: Option<string>, right: Expression?)
      requires left == null ==> conjunction == None
      requires left != null ==> left.Valid()
      requires conjunction == None ==> right == null
      requires conjunction.Some? ==> right != null && conjunction.value in {"and", "or"}
      requires right != null ==> right.Valid() && left.nodes !! right.nodes
      ensures Valid() && fresh(this) && this.left == left && this.conjunction == conjunction && this.right == right
    {
      this.left := left;
      this.conjunction := conjunction;
      this.right := right;
      tree := if left == null then Empty
              else if right == null then Single(left.tree)
              else Join(left.tree, if conjunction == Some("and") then And else Or, right.tree);
      nodes := {this} + (if left == null then {} else left.nodes) + (if right == null then {} else right.nodes);
    }

    ghost predicate Valid()
      decreases tree
    {
      && this in nodes
      && (left == null ==> tree == Empty && conjunction == None && right == null && nodes == {this})
      && (left != null && conjunction == None ==>
          && right == null && tree == Single(left.tree) && left.Valid()
          && this !in left.nodes && nodes == {this} + left.nodes)
      && (left != null && conjunction.Some? ==>
          && right != null && conjunction.value in {"and", "or"}
          && tree == Join(left.tree, if conjunction == Some("and") then And else Or, right.tree)
          && left.Valid() && right.Valid() && left.nodes !! right.nodes
          && this !in left.nodes && this !in right.nodes
          && nodes == {this} + left.nodes + right.nodes)
    }

    /** The annotations of the passes-through matches below this node, in visiting order. */
    ghost function Leftovers(): (leftovers: seq<bool>)
      requires Valid()
      reads nodes - {this}
      ensures |leftovers| == Slots(tree)
      decreases tree
    {
      if left == null then []
      else if conjunction == None then left.Leftovers()
      else left.Leftovers() + right.Leftovers()
    }
  }

  /** processNumericRange: whether the value lies in the range, and whether the range is bad. */
  function ProcessNumericRange(node: Range, compare: U64): (result: (bool, bool))
    requires node.WellFormed()
    ensures result.0 == InRange(node, compare)
    ensures result.1 == node.Bad()
  {
    if node.lower.Some? && node.upper.Some? then
      (node.lower.value <= compare && compare <= node.upper.value, node.lower.value > node.upper.value)
    else
      var unary := if node.unary.Some? then node.unary.value else "";
      if unary == "<" then (compare < node.number.value, false)
      else if unary == ">" then (compare > node.number.value, false)
      else (compare == node.number.value, false)
  }

  class Filter {
    const lib: Library
    var flowmsg: Flow

    constructor (lib: Library, flowmsg: Flow)
      ensures this.lib == lib
    {
      this.lib := lib;
      this.flowmsg := flowmsg;
    }

    /** Runs the visitor over the tree for one flow. Without a rejected range the result is the filter's
        answer for the leftovers found in the tree, and the tree holds the next leftovers afterwards. */
    method CheckFlow(expr: Expression, flow: Flow) returns (result: bool, err: bool)
      requires expr.Valid() && this !in expr.nodes
      modifies `flowmsg, expr.nodes
      ensures flowmsg == flow
      ensures err == Rejected(expr.tree)
      ensures !err ==> result == Answer(lib, expr.tree, flow, old(expr.Leftovers()))
      ensures !err ==> expr.Leftovers() == Next(lib, expr.tree, flow, old(expr.Leftovers()))
      ensures err ==> result == old(expr.evalResult)
      ensures result == expr.evalResult
    {
      flowmsg := flow;
      err := VisitExpression(expr);
      result := expr.evalResult;
    }

    method VisitExpression(node: Expression) returns (err: bool)
      requires node.Valid() && this !in node.nodes
      modifies node.nodes
      decreases node.tree
      ensures err == Rejected(node.tree)
      ensures !err ==> node.evalResult == Answer(lib, node.tree, flowmsg, old(node.Leftovers()))
      ensures !err ==> node.Leftovers() == Next(lib, node.tree, flowmsg, old(node.Leftovers()))
      ensures err ==> node.evalResult == old(node.evalResult)
    {
      err := VisitChildren(node);
      if err { return; }
      if node.left == null {
        node.evalResult := true;
      } else if node.conjunction == None {
        node.evalResult := node.left.evalResult;
      } else if node.conjunction == Some("and") {
        node.evalResult := node.left.evalResult && node.right.evalResult;
      } else if node.conjunction == Some("or") {
        node.evalResult := node.left.evalResult || node.right.evalResult;
      }
    }

    /** The descent into the children of an expression; the expression itself is not written. */
    method VisitChildren(node: Expression) returns (err: bool)
      requires node.Valid() && this !in node.nodes
      modifies node.nodes - {node}
      decreases node.tree, 0
      ensures err == Rejected(node.tree)
      ensures !err && node.left != null && node.right == null ==>
        node.left.evalResult == StmtAnswer(lib, node.left.tree, flowmsg, old(node.Leftovers()))
      ensures !err && node.right != null ==>
        && node.left.evalResult
           == StmtAnswer(lib, node.left.tree, flowmsg, old(node.Leftovers())[..StmtSlots(node.left.tree)])
        && node.right.evalResult
           == Answer(lib, node.right.tree, flowmsg, old(node.Leftovers())[StmtSlots(node.left.tree)..])
      ensures !err ==> node.Leftovers() == Next(lib, node.tree, flowmsg, old(node.Leftovers()))
    {
      if node.left == null { return false; }
      ghost var before := node.Leftovers();
      ghost var leftBefore := node.left.Leftovers();
      err := VisitStatement(node.left);
      if err || node.right == null { return; }
      ghost var rightBefore := node.right.Leftovers();
      assert before[..StmtSlots(node.left.tree)] == leftBefore && before[StmtSlots(node.left.tree)..] == rightBefore;
      err := VisitExpression(node.right);
    }

    method VisitStatement(node: Statement) returns (err: bool)
      requires node.Valid() && this !in node.nodes
      modifies node.nodes
      decreases node.tree
      ensures err == StmtRejected(node.tree)
      ensures !err ==> node.evalResult == StmtAnswer(lib, node.tree, flowmsg, old(node.Leftovers()))
      ensures !err ==> node.Leftovers() == StmtNext(lib, node.tree, flowmsg, old(node.Leftovers()))
    {
      if node.directionalMatch != null {
        err := VisitDirectionalMatchGroup(node.directionalMatch);
      } else if node.regularMatch != null {
        err := VisitRegularMatchGroup(node.regularMatch);
      } else {
        err := VisitExpression(node.subExpression);
      }
      if err { return; }
      if node.directionalMatch != null {
        node.evalResult := node.directionalMatch.evalResult;
      } else if node.regularMatch != null {
        node.evalResult := node.regularMatch.evalResult;
      } else if node.subExpression != null {
        node.evalResult := node.subExpression.evalResult;
      }
      if node.negated != None && node.negated.value {
        node.evalResult := !node.evalResult;
      }
    }

    method VisitRegularMatchGroup(node: RegularMatchGroup) returns (err: bool)
      requires node.Valid()
      modifies node.Nodes()
      ensures err == node.child.syntax.Rejected()
      ensures !err ==> node.evalResult == RegularAnswer(lib, node.child.syntax, flowmsg, old(node.child.evalResult))
      ensures !err ==> node.child.evalResult == node.evalResult
    {
      err := VisitRegularMatch(node.child);
      if err { return; }
      node.evalResult := node.child.evalResult;
    }

    method VisitDirectionalMatchGroup(node: DirectionalMatchGroup) returns (err: bool)
      requires node.Valid()
      modifies node.Nodes()
      ensures err == node.child.syntax.Rejected()
      ensures !err ==> node.evalResult == DirectionalMeaning(lib, node.Tree().direction, node.child.syntax, flowmsg)
    {
      err := VisitDirectionalMatch(node.child);
      if err { return; }
      if node.direction == None {
        if node.child.syntax.Cid? {
          node.evalResult := node.child.evalResult || node.child.evalResultSrc || node.child.evalResultDst;
        } else {
          node.evalResult := node.child.evalResultSrc || node.child.evalResultDst;
        }
      } else if node.direction == Some("src") {
        node.evalResult := node.child.evalResultSrc;
      } else if node.direction == Some("dst") {
        node.evalResult := node.child.evalResultDst;
      }
    }

    method VisitIfSpeedMatch(node: IfSpeedMatchNode) returns (err: bool)
      requires node.range.WellFormed()
      modifies node
      ensures err == node.range.Bad()
      ensures node.evalResultSrc == InRange(node.range, flowmsg.srcIfSpeed / 1000)
      ensures node.evalResultDst == InRange(node.range, flowmsg.dstIfSpeed / 1000)
    {
      node.evalResultSrc := ProcessNumericRange(node.range, flowmsg.srcIfSpeed / 1000).0;
      var r := ProcessNumericRange(node.range, flowmsg.dstIfSpeed / 1000);
      node.evalResultDst := r.0;
      err := r.1;
    }

    method VisitDirectionalMatch(node: DirectionalMatchNode) returns (err: bool)
      requires node.Valid()
      modifies node.Nodes()
      ensures err == node.syntax.Rejected()
      ensures !err ==> node.evalResultSrc == SideMeaning(lib, node.syntax, flowmsg, Src)
      ensures !err ==> node.evalResultDst == SideMeaning(lib, node.syntax, flowmsg, Dst)
      ensures !err && node.syntax.Cid? ==> node.evalResult == InRange(node.syntax.range, flowmsg.cid)
    {
      if node.speed != null {
        err := VisitIfSpeedMatch(node.speed);
        if err { return; }
      }
      match node.syntax {
        case Address(a, mask) =>
          if mask != None {
            node.evalResultSrc := lib.networkContains(a, mask.value, flowmsg.srcAddr);
            node.evalResultDst := lib.networkContains(a, mask.value, flowmsg.dstAddr);
          } else {
            node.evalResultSrc := lib.sameAddress(flowmsg.srcAddr, a);
            node.evalResultDst := lib.sameAddress(flowmsg.dstAddr, a);
          }
          err := false;
        case Interface(SnmpId(n)) =>
          node.evalResultSrc := Low32(n) == flowmsg.inIf;
          node.evalResultDst := Low32(n) == flowmsg.outIf;
          err := false;
        case Interface(Name(s)) =>
          node.evalResultSrc := lib.containsFolded(flowmsg.srcIfName, s);
          node.evalResultDst := lib.containsFolded(flowmsg.dstIfName, s);
          err := false;
        case Interface(Description(s)) =>
          node.evalResultSrc := lib.containsFolded(flowmsg.srcIfDesc, s);
          node.evalResultDst := lib.containsFolded(flowmsg.dstIfDesc, s);
          err := false;
        case Interface(Speed(_)) =>
          node.evalResultSrc := node.speed.evalResultSrc;
          node.evalResultDst := node.speed.evalResultDst;
          err := false;
        case Port(r) =>
          err := SetSides(node, r, flowmsg.srcPort, flowmsg.dstPort);
        case Asn(r) =>
          err := SetSides(node, r, flowmsg.srcAs, flowmsg.dstAs);
        case Netsize(r) =>
          err := SetSides(node, r, flowmsg.srcNet, flowmsg.dstNet);
        case Cid(r) =>
          node.evalResult := ProcessNumericRange(r, flowmsg.cid).0;
          err := SetSides(node, r, flowmsg.srcCid, flowmsg.dstCid);
        case Vrf(r) =>
          err := SetSides(node, r, flowmsg.ingressVrf, flowmsg.egressVrf);
      }
    }

    /** The two range comparisons shared by the directional range matches; both report the same error. */
    method SetSides(node: DirectionalMatchNode, r: Range, src: U64, dst: U64) returns (err: bool)
      requires r.WellFormed()
      modifies node`evalResultSrc, node`evalResultDst
      ensures node.evalResultSrc == InRange(r, src) && node.evalResultDst == InRange(r, dst)
      ensures err == r.Bad()
    {
      node.evalResultSrc := ProcessNumericRange(r, src).0;
      var d := ProcessNumericRange(r, dst);
      node.evalResultDst := d.0;
      err := d.1;
    }

    method VisitRegularMatch(node: RegularMatchNode) returns (err: bool)
      requires node.syntax.WellFormed()
      modifies node
      ensures err == node.syntax.Rejected()
      ensures !err ==> node.evalResult == RegularAnswer(lib, node.syntax, flowmsg, old(node.evalResult))
    {
      if node.syntax.HasRange() {
        err := VisitRegularRange(node);
      } else if node.syntax.PassesThrough? {
        VisitPassesThrough(node, node.syntax.numbers);
        err := false;
      } else {
        VisitComparison(node);
        err := false;
      }
    }

    /** The flow quantity that a range match looks at; a duration of zero counts as one. */
    method Measure(syntax: RegularMatch) returns (compare: U64)
      requires syntax.HasRange()
      ensures compare == Measured(syntax, flowmsg)
    {
      match syntax {
        case ByteCount(_) => compare := flowmsg.bytes;
        case PacketCount(_) => compare := flowmsg.packets;
        case Duration(_) => compare := Sub64(flowmsg.timeFlowEnd, flowmsg.timeFlowStart);
        case IpTos(_) => compare := flowmsg.ipTos;
        case LocalPref(_) => compare := flowmsg.localPref;
        case Med(_) => compare := flowmsg.med;
        case SamplingRate(_) => compare := flowmsg.samplingRate;
        case Bps(_) => compare := Rate(Mul64(flowmsg.bytes, 8));
        case Pps(_) => compare := Rate(flowmsg.packets);
      }
    }

    method Rate(amount: U64) returns (rate: U64)
      ensures rate == Div64(amount, RateSeconds(flowmsg))
    {
      var duration := Sub64(flowmsg.timeFlowEnd, flowmsg.timeFlowStart);
      if duration == 0 { duration := duration + 1; }
      rate := Div64(amount, duration);
    }

    method VisitRegularRange(node: RegularMatchNode) returns (err: bool)
      requires node.syntax.HasRange() && node.syntax.WellFormed()
      modifies node
      ensures err == node.syntax.Rejected()
      ensures node.evalResult == RegularMeaning(lib, node.syntax, flowmsg)
    {
      var compare := Measure(node.syntax);
      var result := ProcessNumericRange(node.syntax.range, compare);
      node.evalResult := result.0;
      err := if node.syntax.Bps? then false else result.1; // a bad bps range is not reported
    }

    method VisitComparison(node: RegularMatchNode)
      requires !node.syntax.HasRange() && !node.syntax.PassesThrough?
      modifies node
      ensures node.evalResult == RegularMeaning(lib, node.syntax, flowmsg)
    {
      match node.syntax {
        case Router(a) => node.evalResult := lib.sameAddress(flowmsg.samplerAddress, a);
        case NextHop(a) => node.evalResult := lib.sameAddress(flowmsg.nextHop, a);
        case NextHopAsn(asn) => node.evalResult := flowmsg.nextHopAs == asn;
        case RemoteCountry(code) => node.evalResult := lib.containsUpper(flowmsg.remoteCountry, code);
        case FlowDirection(incoming) =>
          if incoming {
            node.evalResult := flowmsg.flowDirection == 0;
          } else {
            node.evalResult := flowmsg.flowDirection == 1;
          }
        case Normalized => node.evalResult := flowmsg.normalized == 1;
        case Etype(v) => node.evalResult := flowmsg.etype == Low32(v.n);
        case Proto(v) => node.evalResult := flowmsg.proto == Low32(v.n);
        case Status(v) =>
          if v.Value? {
            node.evalResult := flowmsg.forwardingStatus == Low32(v.n);
          } else {
            node.evalResult := HasBits(flowmsg.forwardingStatus, Low32(v.n));
          }
        case TcpFlags(v) =>
          if flowmsg.proto != 6 {
            node.evalResult := false;
          } else if v.Value? {
            node.evalResult := flowmsg.tcpFlags == Low32(v.n);
          } else {
            node.evalResult := HasBits(flowmsg.tcpFlags, Low32(v.n));
          }
        case Dscp(v) => node.evalResult := flowmsg.ipTos / 4 == Low32(v.n);
        case Ecn(v) => node.evalResult := flowmsg.ipTos % 4 == Low32(v.n);
        case Icmp(f) =>
          if flowmsg.proto != 1 {
            node.evalResult := false;
          } else if f.IcmpType? {
            node.evalResult := Low32(f.n) == flowmsg.dstPort / 256;
          } else {
            node.evalResult := Low32(f.n) == flowmsg.dstPort % 256;
          }
        case Rpki(key) =>
          if key == None {
            node.evalResult := false;
          } else {
            node.evalResult := flowmsg.validationStatus == Low32(key.value);
          }
      }
    }

    /** Whether a list equals the start of a slice that is at least as long. */
    method SliceEq(a: seq<U64>, b: seq<U32>) returns (eq: bool)
      requires |a| <= |b|
      ensures eq == forall k :: 0 <= k < |a| ==> Low32(a[k]) == b[k]
    {
      for i := 0 to |a|
        invariant forall k :: 0 <= k < i ==> Low32(a[k]) == b[k]
      {
        if Low32(a[i]) != b[i] { return false; }
      }
      return true;
    }

    /** The loop writes nothing when the path is empty or shorter than the list. */
    method VisitPassesThrough(node: RegularMatchNode, numbers: seq<U64>)
      modifies node
      ensures node.evalResult ==
        if Writes(numbers, flowmsg.asPath) then Occurs(numbers, flowmsg.asPath) else old(node.evalResult)
    {
      var path := flowmsg.asPath;
      var i := 0;
      while i < |path|
        invariant 0 <= i <= |path|
        invariant i > 0 ==> Writes(numbers, path) && !node.evalResult
        invariant i == 0 ==> node.evalResult == old(node.evalResult)
        invariant forall j: nat :: j < i ==> !OccursAt(numbers, path, j)
      {
        if i + |numbers| > |path| { break; }
        var eq := SliceEq(numbers, path[i..i + |numbers|]);
        if eq {
          assert OccursAt(numbers, path, i);
          node.evalResult := true;
          return;
        }
        assert !OccursAt(numbers, path, i);
        node.evalResult := false;
        i := i + 1;
      }
      if Occurs(numbers, path) && Writes(numbers, path) {
        var j: nat :| OccursAt(numbers, path, j);
        assert numbers == [] ==> OccursAt(numbers, path, 0);
      }
    }
  }
}
