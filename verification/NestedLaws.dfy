/** Where the bytes of a message are counted: what a definition's database receives under each key, in terms of the
    addresses of the accepted messages. */
module NestedLaws {
  import opened Words
  import opened FilterSyntax
  import opened FilterVisitor
  import opened NestedMetrics

  datatype Total = Total(count: nat, bytes: nat, packets: nat)

  function Add(x: Total, y: Total): Total {
    Total(x.count + y.count, x.bytes + y.bytes, x.packets + y.packets)
  }

  function Nothing(): Total {
    Total(0, 0, 0)
  }

  /** What a list of appends holds under one key, forwarded or not. */
  function Tally(appends: seq<Append>, key: string, forwarded: bool): Total {
    if appends == [] then Nothing()
    else Add(Tally(appends[..|appends| - 1], key, forwarded), Worth(appends[|appends| - 1], key, forwarded))
  }

  function Worth(a: Append, key: string, forwarded: bool): Total {
    if a.key == key && a.forwarded == forwarded then Total(1, a.bytes, a.packets) else Nothing()
  }

  /** The part that a printed address, or a pair of them, plays in a message. */
  datatype Role = Source(text: string) | Destination(text: string) | Pair(from: string, to: string)

  predicate Plays(role: Role, msg: Flow, show: Printer) {
    match role
    case Source(text) => show(msg.srcAddr) == text
    case Destination(text) => show(msg.dstAddr) == text
    case Pair(from, to) => show(msg.srcAddr) == from && show(msg.dstAddr) == to
  }

  /** The contribution of a message: forwarding status 64 to 127 is forwarded. */
  function Share(role: Role, msg: Flow, show: Printer, forwarded: bool): Total {
    if Plays(role, msg, show) && (msg.forwardingStatus / 64 == 1) == forwarded then Total(1, msg.bytes, msg.packets)
    else Nothing()
  }

  /** The accepted messages in which the role is played, added up. */
  ghost function Traffic(
    input: seq<Flow>, log: seq<Verdicts>, filters: seq<Expression>, role: Role, show: Printer, forwarded: bool): Total
    requires |input| == |log|
  {
    if input == [] then Nothing()
    else
      var n := |input| - 1;
      Add(Traffic(input[..n], log[..n], filters, role, show, forwarded),
          if AcceptedByAll(filters, log[n]) then Share(role, input[n], show, forwarded) else Nothing())
  }

  lemma TallySnoc(x: seq<Append>, a: Append, key: string, forwarded: bool)
    ensures Tally(x + [a], key, forwarded) == Add(Tally(x, key, forwarded), Worth(a, key, forwarded))
  {
    hide Add, Worth;
    var all := x + [a];
    assert all[..|all| - 1] == x && all[|all| - 1] == a;
  }

  lemma Associative(x: Total, y: Total, z: Total)
    ensures Add(Add(x, y), z) == Add(x, Add(y, z))
  {
  }

  lemma TallyNothing(x: Total, key: string, forwarded: bool)
    ensures Tally([], key, forwarded) == Nothing() && Add(x, Nothing()) == x
  {
  }

  lemma {:induction false} TallyJoin(x: seq<Append>, y: seq<Append>, key: string, forwarded: bool)
    ensures Tally(x + y, key, forwarded) == Add(Tally(x, key, forwarded), Tally(y, key, forwarded))
  {
    hide Tally, Add, Worth, Nothing;
    if y == [] {
      assert x + y == x;
      TallyNothing(Tally(x, key, forwarded), key, forwarded);
    } else {
      var front, last := y[..|y| - 1], y[|y| - 1];
      TallyJoin(x, front, key, forwarded);
      assert x + y == (x + front) + [last] && y == front + [last];
      TallySnoc(x + front, last, key, forwarded);
      TallySnoc(front, last, key, forwarded);
      Associative(Tally(x, key, forwarded), Tally(front, key, forwarded), Worth(last, key, forwarded));
    }
  }

  lemma SamePrefix(p: string, x: string, y: string)
    ensures p + x == p + y <==> x == y
  {
    assert (p + x)[|p|..] == x && (p + y)[|p|..] == y;
  }

  /** The key of a printed address in a definition's database. */
  function KeyOf(m: Metric, text: string): string {
    m.trafficType + ": " + text
  }

  lemma SameKey(m: Metric, x: string, y: string)
    ensures KeyOf(m, x) == KeyOf(m, y) <==> x == y
  {
    SamePrefix(m.trafficType + ": ", x, y);
  }

  lemma OwnAppend(trafficType: string, address: string, msg: Flow)
    ensures OwnAppends(trafficType, [address], msg)
      == [Append(trafficType + ": " + address, msg.bytes, msg.packets, IsForwarded(msg))]
  {
    var none := [address][..0];
    assert none == [] && OwnAppends(trafficType, none, msg) == [];
  }

  lemma OneTally(own: Append, key: string, forwarded: bool)
    ensures Tally([own], key, forwarded) == Worth(own, key, forwarded)
  {
    assert [own][..0] == [];
    hide Worth;
  }

  /** A single append for an address. */
  lemma OneAppend(m: Metric, address: string, msg: Flow, text: string, forwarded: bool)
    ensures Tally(OwnAppends(m.trafficType, [address], msg), KeyOf(m, text), forwarded)
      == if address == text && (msg.forwardingStatus / 64 == 1) == forwarded
         then Total(1, msg.bytes, msg.packets) else Nothing()
  {
    hide Tally, OwnAppends;
    SameKey(m, address, text);
    var own := Append(KeyOf(m, address), msg.bytes, msg.packets, IsForwarded(msg));
    OwnAppend(m.trafficType, address, msg);
    assert OwnAppends(m.trafficType, [address], msg) == [own];
    hide KeyOf;
    OneTally(own, KeyOf(m, text), forwarded);
  }

  lemma TwoAppends(trafficType: string, x: string, y: string, msg: Flow)
    ensures OwnAppends(trafficType, [x, y], msg)
      == OwnAppends(trafficType, [x], msg) + OwnAppends(trafficType, [y], msg)
  {
    assert [x, y][..1] == [x] && [x][..0] == [] && [y][..0] == [];
  }

  /** Which addresses a definition selects. */
  datatype Kind = OfSource | OfDestination | OfBoth | OfConnection | OfNone

  function KindOf(relevantAddress: string): Kind {
    match relevantAddress
    case "source" => OfSource
    case "destination" => OfDestination
    case "both" => OfBoth
    case "connection" => OfConnection
    case _ => OfNone
  }

  /** What an accepted message adds under the key of an address. */
  function Selected(kind: Kind, text: string, msg: Flow, show: Printer, forwarded: bool): Total {
    match kind
    case OfSource => Share(Source(text), msg, show, forwarded)
    case OfDestination => Share(Destination(text), msg, show, forwarded)
    case OfBoth => Add(Share(Source(text), msg, show, forwarded), Share(Destination(text), msg, show, forwarded))
    case _ => Nothing()
  }

  lemma SelectedAppends(m: Metric, msg: Flow, show: Printer)
    requires m.trafficType != ""
    ensures var s, d := show(msg.srcAddr), show(msg.dstAddr);
      Counted(m, msg, show) == match KindOf(m.relevantAddress)
        case OfSource => OwnAppends(m.trafficType, [s], msg)
        case OfDestination => OwnAppends(m.trafficType, [d], msg)
        case OfBoth => OwnAppends(m.trafficType, [s, d], msg)
        case OfConnection => OwnAppends(m.trafficType, [s + " -> " + d], msg)
        case OfNone => OwnAppends(m.trafficType, [], msg)
  {
    hide OwnAppends;
  }

  lemma MessageCounts(m: Metric, text: string, msg: Flow, show: Printer, forwarded: bool)
    requires m.trafficType != "" && KindOf(m.relevantAddress) != OfConnection
    ensures Tally(Counted(m, msg, show), KeyOf(m, text), forwarded)
      == Selected(KindOf(m.relevantAddress), text, msg, show, forwarded)
  {
    hide Tally, OwnAppends, KeyOf, KindOf, Counted, Add;
    var s, d := show(msg.srcAddr), show(msg.dstAddr);
    SelectedAppends(m, msg, show);
    OneAppend(m, s, msg, text, forwarded);
    OneAppend(m, d, msg, text, forwarded);
    TwoAppends(m.trafficType, s, d, msg);
    TallyJoin(OwnAppends(m.trafficType, [s], msg), OwnAppends(m.trafficType, [d], msg), KeyOf(m, text), forwarded);
    NoAppends(m.trafficType, msg, KeyOf(m, text), forwarded);
  }

  lemma NoAppends(trafficType: string, msg: Flow, key: string, forwarded: bool)
    ensures OwnAppends(trafficType, [], msg) == [] && Tally([], key, forwarded) == Nothing()
  {
  }

  /** Printed addresses contain no space, so a printed pair can be taken apart. */
  ghost predicate Spaceless(show: Printer) {
    forall a :: ' ' !in show(a)
  }

  lemma PairsApart(x: string, y: string, from: string, to: string)
    requires ' ' !in x && ' ' !in from
    ensures x + " -> " + y == from + " -> " + to <==> x == from && y == to
  {
    var s, t := x + " -> " + y, from + " -> " + to;
    if s == t {
      assert s[|x|] == ' ' && t[|from|] == ' ';
      assert |x| == |from|;
      assert s[..|x|] == x && t[..|from|] == from;
      assert s[|x| + 4..] == y && t[|from| + 4..] == to;
    }
  }

  lemma ConnectionCounts(m: Metric, from: string, to: string, msg: Flow, show: Printer, forwarded: bool)
    requires m.trafficType != "" && KindOf(m.relevantAddress) == OfConnection && Spaceless(show) && ' ' !in from
    ensures Tally(Counted(m, msg, show), KeyOf(m, from + " -> " + to), forwarded)
      == Share(Pair(from, to), msg, show, forwarded)
  {
    hide Tally, OwnAppends, KeyOf, Counted, KindOf;
    SelectedAppends(m, msg, show);
    var s, d := show(msg.srcAddr), show(msg.dstAddr);
    PairsApart(s, d, from, to);
    OneAppend(m, s + " -> " + d, msg, from + " -> " + to, forwarded);
  }

  // ---------------------------------------------------------------------------------------------
  // Whole runs

  lemma ReceivedLast(e: Entry, input: seq<Flow>, log: seq<Verdicts>, show: Printer, key: string, forwarded: bool)
    requires |input| == |log| > 0
    ensures var n := |input| - 1;
      Tally(Received(e, input, log, show), key, forwarded)
      == if AcceptedByAll(e.Filters(), log[n])
         then Add(Tally(Received(e, input[..n], log[..n], show), key, forwarded),
                  Tally(Counted(e.metric, input[n], show), key, forwarded))
         else Tally(Received(e, input[..n], log[..n], show), key, forwarded)
  {
    var n := |input| - 1;
    hide AcceptedByAll, Counted;
    var last := if AcceptedByAll(e.Filters(), log[n]) then Counted(e.metric, input[n], show) else [];
    TallyJoin(Received(e, input[..n], log[..n], show), last, key, forwarded);
  }

  lemma TrafficLast(
    input: seq<Flow>, log: seq<Verdicts>, filters: seq<Expression>, role: Role, show: Printer, forwarded: bool)
    requires |input| == |log| > 0
    ensures var n := |input| - 1;
      Traffic(input, log, filters, role, show, forwarded)
      == if AcceptedByAll(filters, log[n])
         then Add(Traffic(input[..n], log[..n], filters, role, show, forwarded), Share(role, input[n], show, forwarded))
         else Traffic(input[..n], log[..n], filters, role, show, forwarded)
  {
    hide AcceptedByAll, Share;
  }

  lemma AddTwice(a: Total, b: Total, c: Total, d: Total)
    ensures Add(Add(a, b), Add(c, d)) == Add(Add(a, c), Add(b, d))
  {
  }

  /** The total that a definition of this kind holds for an address. */
  predicate KindLaw(kind: Kind, total: Total, sources: Total, destinations: Total) {
    match kind
    case OfSource => total == sources
    case OfDestination => total == destinations
    case OfBoth => total == Add(sources, destinations)
    case _ => total == Nothing()
  }

  lemma KindStart(kind: Kind, zero: Total)
    requires zero == Nothing()
    ensures KindLaw(kind, zero, zero, zero)
  {
  }

  lemma KindStep(kind: Kind, total: Total, sources: Total, destinations: Total, text: string, msg: Flow, show: Printer,
                 forwarded: bool)
    requires KindLaw(kind, total, sources, destinations)
    ensures KindLaw(kind, Add(total, Selected(kind, text, msg, show, forwarded)),
      Add(sources, Share(Source(text), msg, show, forwarded)),
      Add(destinations, Share(Destination(text), msg, show, forwarded)))
  {
    hide Share;
    AddTwice(sources, Share(Source(text), msg, show, forwarded),
      destinations, Share(Destination(text), msg, show, forwarded));
  }

  lemma {:induction false} KindsCounted(
    e: Entry, input: seq<Flow>, log: seq<Verdicts>, show: Printer, text: string, forwarded: bool)
    requires |input| == |log| && e.metric.trafficType != "" && KindOf(e.metric.relevantAddress) != OfConnection
    ensures KindLaw(KindOf(e.metric.relevantAddress),
      Tally(Received(e, input, log, show), KeyOf(e.metric, text), forwarded),
      Traffic(input, log, e.Filters(), Source(text), show, forwarded),
      Traffic(input, log, e.Filters(), Destination(text), show, forwarded))
  {
    if input == [] {
      hide KindLaw;
      KindStart(KindOf(e.metric.relevantAddress), Nothing());
      assert Received(e, input, log, show) == [];
    } else {
      hide Tally, Received, Counted, AcceptedByAll, KeyOf, Share, Entry.Filters, KindOf, Traffic, Add, Nothing, KindLaw,
        Selected;
      var n, filters, s, d := |input| - 1, e.Filters(), Source(text), Destination(text);
      KindsCounted(e, input[..n], log[..n], show, text, forwarded);
      ReceivedLast(e, input, log, show, KeyOf(e.metric, text), forwarded);
      MessageCounts(e.metric, text, input[n], show, forwarded);
      TrafficLast(input, log, filters, s, show, forwarded);
      TrafficLast(input, log, filters, d, show, forwarded);
      KindStep(KindOf(e.metric.relevantAddress),
        Tally(Received(e, input[..n], log[..n], show), KeyOf(e.metric, text), forwarded),
        Traffic(input[..n], log[..n], filters, s, show, forwarded),
        Traffic(input[..n], log[..n], filters, d, show, forwarded), text, input[n], show, forwarded);
    }
  }

  /** Over a whole run a "source" definition counts under each printed address exactly the messages, bytes and packets
      of the accepted messages from that address; a "destination" definition of those to it; and "both" of the
      two together, a message from an address to itself twice. */
  lemma AddressesCounted(
    e: Entry, input: seq<Flow>, log: seq<Verdicts>, show: Printer, text: string, forwarded: bool)
    requires |input| == |log| && e.metric.trafficType != ""
    ensures var total := Tally(Received(e, input, log, show), KeyOf(e.metric, text), forwarded);
      var sources := Traffic(input, log, e.Filters(), Source(text), show, forwarded);
      var destinations := Traffic(input, log, e.Filters(), Destination(text), show, forwarded);
      && (e.metric.relevantAddress == "source" ==> total == sources)
      && (e.metric.relevantAddress == "destination" ==> total == destinations)
      && (e.metric.relevantAddress == "both" ==> total == Add(sources, destinations))
  {
    hide Tally, Received, KeyOf, Traffic;
    if KindOf(e.metric.relevantAddress) != OfConnection {
      KindsCounted(e, input, log, show, text, forwarded);
    }
  }

  lemma {:induction false} PairsCounted(
    e: Entry, input: seq<Flow>, log: seq<Verdicts>, show: Printer, from: string, to: string, forwarded: bool)
    requires |input| == |log| && e.metric.trafficType != "" && KindOf(e.metric.relevantAddress) == OfConnection
    requires Spaceless(show) && ' ' !in from
    ensures Tally(Received(e, input, log, show), KeyOf(e.metric, from + " -> " + to), forwarded)
      == Traffic(input, log, e.Filters(), Pair(from, to), show, forwarded)
  {
    if input != [] {
      hide Tally, Received, Counted, AcceptedByAll, KeyOf, Share, Entry.Filters, KindOf;
      var n := |input| - 1;
      PairsCounted(e, input[..n], log[..n], show, from, to, forwarded);
      ReceivedLast(e, input, log, show, KeyOf(e.metric, from + " -> " + to), forwarded);
      ConnectionCounts(e.metric, from, to, input[n], show, forwarded);
    } else {
      assert Received(e, input, log, show) == [];
    }
  }

  /** A "connection" definition counts under each printed pair the accepted messages from its first address to its
      second. */
  lemma ConnectionsCounted(
    e: Entry, input: seq<Flow>, log: seq<Verdicts>, show: Printer, from: string, to: string, forwarded: bool)
    requires |input| == |log| && e.metric.trafficType != "" && e.metric.relevantAddress == "connection"
    requires Spaceless(show) && ' ' !in from
    ensures Tally(Received(e, input, log, show), KeyOf(e.metric, from + " -> " + to), forwarded)
      == Traffic(input, log, e.Filters(), Pair(from, to), show, forwarded)
  {
    hide Tally, Received, KeyOf, Traffic;
    PairsCounted(e, input, log, show, from, to, forwarded);
  }

  /** A definition without a traffic type counts nothing: it only gates its subdefinitions. */
  lemma {:induction false} UntypedCountsNothing(e: Entry, input: seq<Flow>, log: seq<Verdicts>, show: Printer)
    requires |input| == |log| && e.metric.trafficType == ""
    ensures Received(e, input, log, show) == []
  {
    if input != [] {
      UntypedCountsNothing(e, input[..|input| - 1], log[..|input| - 1], show);
    }
  }

  /** If different addresses are printed differently, the roles are those of the addresses themselves. */
  lemma RolesOfAddresses(msg: Flow, show: Printer, a: Bytes, b: Bytes)
    requires forall x, y :: show(x) == show(y) ==> x == y
    ensures Plays(Source(show(a)), msg, show) <==> msg.srcAddr == a
    ensures Plays(Destination(show(a)), msg, show) <==> msg.dstAddr == a
    ensures Plays(Pair(show(a), show(b)), msg, show) <==> msg.srcAddr == a && msg.dstAddr == b
  {
  }
}
