/** List columns on disk: sqlite.go prints a list as a bracketed text and replay.go parses it back. */
module ListText {
  import opened Words

  // ---------------------------------------------------------------------------------------------
  // Words and white space

  predicate IsSpace(c: char) {
    var n := c as int;
    9 <= n <= 13 || n == 0x20 || n == 0x85 || n == 0xA0 || n == 0x1680 || 0x2000 <= n <= 0x200A
    || n == 0x2028 || n == 0x2029 || n == 0x202F || n == 0x205F || n == 0x3000
  }

  predicate IsWord(w: string) {
    w != "" && forall c :: c in w ==> !IsSpace(c)
  }

  /** strings.Fields: the maximal runs of characters that are not white space. */
  function Fields(s: string): (fields: seq<string>)
    ensures s != "" && !IsSpace(s[|s| - 1]) ==> fields != []
  {
    if s == "" then []
    else
      var front, c := s[..|s| - 1], s[|s| - 1];
      var before := Fields(front);
      if IsSpace(c) then before
      else if front == "" || IsSpace(front[|front| - 1]) then before + [[c]]
      else before[..|before| - 1] + [before[|before| - 1] + [c]]
  }

  /** The words with one space between each two. */
  function Join(words: seq<string>): string {
    if words == [] then ""
    else if |words| == 1 then words[0]
    else Join(words[..|words| - 1]) + " " + words[|words| - 1]
  }

  /** fmt.Sprint of a list. */
  function Brackets(words: seq<string>): string {
    "[" + Join(words) + "]"
  }

  lemma FieldsSnoc(s: string, c: char)
    ensures IsSpace(c) ==> Fields(s + [c]) == Fields(s)
    ensures !IsSpace(c) && (s == "" || IsSpace(s[|s| - 1])) ==> Fields(s + [c]) == Fields(s) + [[c]]
    ensures !IsSpace(c) && s != "" && !IsSpace(s[|s| - 1]) ==>
      var before := Fields(s); Fields(s + [c]) == before[..|before| - 1] + [before[|before| - 1] + [c]]
  {
    assert (s + [c])[..|s|] == s;
    hide IsSpace;
  }

  /** A word after white space is a field of its own. */
  lemma {:induction false} FieldsWord(s: string, w: string)
    requires IsWord(w) && (s == "" || IsSpace(s[|s| - 1]))
    ensures Fields(s + w) == Fields(s) + [w]
  {
    hide Fields, IsSpace;
    var front, c := w[..|w| - 1], w[|w| - 1];
    assert s + w == (s + front) + [c] && w == front + [c];
    FieldsSnoc(s + front, c);
    if front == "" {
      assert s + front == s;
    } else {
      FieldsWord(s, front);
    }
  }

  lemma FieldsAfterSpace(s: string, w: string)
    requires IsWord(w)
    ensures Fields(s + " " + w) == Fields(s) + [w]
  {
    hide Fields;
    FieldsSnoc(s, ' ');
    FieldsWord(s + " ", w);
  }

  lemma FieldsOne(w: string)
    requires IsWord(w)
    ensures Fields(w) == [w]
  {
    FieldsWord("", w);
    assert "" + w == w;
  }

  lemma {:induction false} FieldsOfJoin(words: seq<string>)
    requires forall w :: w in words ==> IsWord(w)
    ensures Fields(Join(words)) == words
  {
    if |words| == 1 {
      hide Fields, IsWord;
      FieldsOne(words[0]);
    } else if |words| > 1 {
      var front, last := words[..|words| - 1], words[|words| - 1];
      assert Join(words) == Join(front) + " " + last && words == front + [last];
      hide Fields, IsWord, Join;
      FieldsOfJoin(front);
      FieldsAfterSpace(Join(front), last);
    }
  }

  // ---------------------------------------------------------------------------------------------
  // Parsing

  /** All entries handled, or nothing if the handler rejects one. */
  function Handled<T>(entries: seq<string>, handler: string -> Option<T>): Option<seq<T>> {
    if entries == [] then Some([])
    else
      var before := Handled(entries[..|entries| - 1], handler);
      var last := handler(entries[|entries| - 1]);
      if before.Some? && last.Some? then Some(before.value + [last.value]) else None
  }

  predicate HasBrackets(s: string) {
    |s| > 0 && s[0] == '[' && s[|s| - 1] == ']'
  }

  function Parsed<T>(s: string, handler: string -> Option<T>): Option<seq<T>> {
    if HasBrackets(s) then Handled(Fields(s[1..|s| - 1]), handler) else None
  }

  lemma {:induction false} HandledNone<T>(entries: seq<string>, handler: string -> Option<T>, i: nat)
    requires i < |entries| && handler(entries[i]) == None
    ensures Handled(entries, handler) == None
  {
    if i < |entries| - 1 {
      HandledNone(entries[..|entries| - 1], handler, i);
    }
  }

  lemma {:induction false} HandledIff<T>(entries: seq<string>, handler: string -> Option<T>, xs: seq<T>)
    ensures Handled(entries, handler) == Some(xs)
      <==> |entries| == |xs| && forall i :: 0 <= i < |xs| ==> handler(entries[i]) == Some(xs[i])
  {
    if entries != [] {
      var front := entries[..|entries| - 1];
      if xs != [] {
        HandledIff(front, handler, xs[..|xs| - 1]);
        assert xs == xs[..|xs| - 1] + [xs[|xs| - 1]];
      }
    }
  }

  /** A text is read as a list if and only if it is one in brackets and the handler accepts each of its fields, as
      that list. */
  lemma ParsedIff<T>(s: string, handler: string -> Option<T>, xs: seq<T>)
    ensures Parsed(s, handler) == Some(xs)
      <==> exists inner ::
        && s == "[" + inner + "]" && |Fields(inner)| == |xs|
        && forall i :: 0 <= i < |xs| ==> handler(Fields(inner)[i]) == Some(xs[i])
  {
    hide Fields, Handled;
    if HasBrackets(s) {
      var inner := s[1..|s| - 1];
      assert s == "[" + inner + "]";
      HandledIff(Fields(inner), handler, xs);
      forall other | s == "[" + other + "]"
        ensures other == inner
      {
        assert s[1..|s| - 1] == other;
      }
    } else {
      forall inner
        ensures s != "[" + inner + "]"
      {
        assert HasBrackets("[" + inner + "]");
      }
    }
  }

  /** parseSlice: stops at the first entry that the handler rejects. */
  method ParseSlice<T>(s: string, handler: string -> Option<T>) returns (result: Option<seq<T>>)
    ensures result == Parsed(s, handler)
  {
    if !HasBrackets(s) {
      return None;
    }
    var entries := Fields(s[1..|s| - 1]);
    var values: seq<T> := [];
    for i := 0 to |entries|
      invariant Handled(entries[..i], handler) == Some(values)
    {
      var val := handler(entries[i]);
      if val == None {
        HandledNone(entries, handler, i);
        return None;
      }
      assert entries[..i + 1][..i] == entries[..i];
      values := values + [val.value];
    }
    assert entries[..|entries|] == entries;
    return Some(values);
  }

  function Shown<T>(xs: seq<T>, show: T -> string): (words: seq<string>)
    ensures |words| == |xs| && forall i :: 0 <= i < |xs| ==> words[i] == show(xs[i])
  {
    seq(|xs|, i requires 0 <= i < |xs| => show(xs[i]))
  }

  /** What is read back is what the handler makes of each printed element. */
  lemma ParsedBrackets<T>(words: seq<string>, handler: string -> Option<T>)
    requires forall w :: w in words ==> IsWord(w)
    ensures Parsed(Brackets(words), handler) == Handled(words, handler)
  {
    var s := Brackets(words);
    assert s[1..|s| - 1] == Join(words);
    FieldsOfJoin(words);
  }

  lemma {:induction false} HandledIffInverted<T>(xs: seq<T>, show: T -> string, handler: string -> Option<T>)
    ensures Handled(Shown(xs, show), handler) == Some(xs)
      <==> forall i :: 0 <= i < |xs| ==> handler(show(xs[i])) == Some(xs[i])
  {
    if xs != [] {
      var front := xs[..|xs| - 1];
      HandledIffInverted(front, show, handler);
      assert Shown(xs, show)[..|xs| - 1] == Shown(front, show);
      assert xs == front + [xs[|xs| - 1]];
      assert forall i :: 0 <= i < |front| ==> front[i] == xs[i];
    }
  }

  /** The round trip: a list whose elements print as words comes back if and only if the handler inverts
      the printer on each of its elements. */
  lemma RoundTripIffInverted<T>(xs: seq<T>, show: T -> string, handler: string -> Option<T>)
    requires forall i :: 0 <= i < |xs| ==> IsWord(show(xs[i]))
    ensures Parsed(Brackets(Shown(xs, show)), handler) == Some(xs)
      <==> forall i :: 0 <= i < |xs| ==> handler(show(xs[i])) == Some(xs[i])
  {
    ParsedBrackets(Shown(xs, show), handler);
    HandledIffInverted(xs, show, handler);
  }

  // ---------------------------------------------------------------------------------------------
  // Unsigned numbers

  predicate IsDigit(c: char) {
    '0' <= c <= '9'
  }

  function DigitValue(c: char): nat
    requires IsDigit(c)
  {
    c as int - '0' as int
  }

  function Decimal(n: nat): (text: string)
    ensures text != "" && forall c :: c in text ==> IsDigit(c)
  {
    var last := [('0' as int + n % 10) as char];
    if n < 10 then last else Decimal(n / 10) + last
  }

  function Number(text: string): nat
    requires forall c :: c in text ==> IsDigit(c)
  {
    if text == "" then 0 else Number(text[..|text| - 1]) * 10 + DigitValue(text[|text| - 1])
  }

  /** strconv.ParseUint(text, 10, 32). */
  function ParseUint32(text: string): Option<U32> {
    if text == "" || exists c :: c in text && !IsDigit(c) then None
    else if Number(text) < TWO_TO_THE_32 then Some(Number(text))
    else None
  }

  lemma {:induction false} NumberOfDecimal(n: nat)
    ensures Number(Decimal(n)) == n
  {
    if n >= 10 {
      NumberOfDecimal(n / 10);
      assert Decimal(n)[..|Decimal(n)| - 1] == Decimal(n / 10);
    }
  }

  /** Every list of 32-bit numbers comes back as it was. */
  lemma Uint32ListsComeBack(xs: seq<U32>)
    ensures Parsed(Brackets(Shown(xs, (x: U32) => Decimal(x))), ParseUint32) == Some(xs)
  {
    forall i | 0 <= i < |xs|
      ensures IsWord(Decimal(xs[i])) && ParseUint32(Decimal(xs[i])) == Some(xs[i])
    {
      NumberOfDecimal(xs[i]);
    }
    RoundTripIffInverted(xs, (x: U32) => Decimal(x), ParseUint32);
  }

  // ---------------------------------------------------------------------------------------------
  // Protocol layers

  predicate Defined(layer: int) {
    0 <= layer <= 13 || layer == 99
  }

  function Name(layer: int): string
    requires Defined(layer)
  {
    match layer
    case 0 => "Ethernet"
    case 1 => "IPv4"
    case 2 => "IPv6"
    case 3 => "TCP"
    case 4 => "UDP"
    case 5 => "MPLS"
    case 6 => "Dot1Q"
    case 7 => "ICMP"
    case 8 => "ICMPv6"
    case 9 => "GRE"
    case 10 => "IPv6HeaderRouting"
    case 11 => "IPv6HeaderFragment"
    case 12 => "Geneve"
    case 13 => "Teredo"
    case _ => "Custom"
  }

  /** The String method of the enumeration: values without a name print as numbers. */
  function ShowLayer(layer: int): string {
    if Defined(layer) then Name(layer) else if layer < 0 then "-" + Decimal(-layer) else Decimal(layer)
  }

  /** The lookup in the map from names to values; a missing name reads as zero. */
  function LayerOf(name: string): int {
    match name
    case "Ethernet" => 0
    case "IPv4" => 1
    case "IPv6" => 2
    case "TCP" => 3
    case "UDP" => 4
    case "MPLS" => 5
    case "Dot1Q" => 6
    case "ICMP" => 7
    case "ICMPv6" => 8
    case "GRE" => 9
    case "IPv6HeaderRouting" => 10
    case "IPv6HeaderFragment" => 11
    case "Geneve" => 12
    case "Teredo" => 13
    case "Custom" => 99
    case _ => 0
  }

  function ReadLayer(name: string): Option<int> {
    Some(LayerOf(name))
  }

  /** The names in the order of their values. */
  function Names(): seq<string> {
    ["Ethernet", "IPv4", "IPv6", "TCP", "UDP", "MPLS", "Dot1Q", "ICMP", "ICMPv6", "GRE", "IPv6HeaderRouting",
     "IPv6HeaderFragment", "Geneve", "Teredo"]
  }

  lemma NamesInOrder(layer: int)
    requires 0 <= layer < |Names()|
    ensures Name(layer) == Names()[layer] && LayerOf(Names()[layer]) == layer
  {
  }

  lemma NamesComeBack(layer: int)
    requires Defined(layer)
    ensures LayerOf(Name(layer)) == layer
  {
  }

  lemma LowNameIsWord(layer: int)
    requires 0 <= layer <= 9
    ensures IsWord(Name(layer))
  {
  }

  lemma WordsJoin(a: string, b: string)
    requires IsWord(a) && IsWord(b)
    ensures IsWord(a + b)
  {
  }

  lemma HeaderNameIsWord(layer: int)
    requires 10 <= layer <= 11
    ensures IsWord(Name(layer))
  {
    hide IsWord;
    NamePartsAreWords();
    var part := if layer == 10 then "Routing" else "Fragment";
    WordsJoin("IPv6Header", part);
    assert Name(layer) == "IPv6Header" + part;
  }

  lemma NamePartsAreWords()
    ensures IsWord("IPv6Header") && IsWord("Routing") && IsWord("Fragment")
  {
  }

  lemma HighNameIsWord(layer: int)
    requires 12 <= layer && Defined(layer)
    ensures IsWord(Name(layer))
  {
  }

  lemma ShownIsWord(layer: int)
    ensures IsWord(ShowLayer(layer))
  {
    if 0 <= layer <= 9 {
      LowNameIsWord(layer);
    } else if layer == 10 || layer == 11 {
      HeaderNameIsWord(layer);
    } else if Defined(layer) {
      HighNameIsWord(layer);
    }
  }

  /** Printed numbers are no layer names. */
  lemma UndefinedReadsAsZero(layer: int)
    requires !Defined(layer)
    ensures LayerOf(ShowLayer(layer)) == 0
  {
    assert IsDigit(ShowLayer(layer)[0]) || ShowLayer(layer)[0] == '-';
  }

  /** A list of layers comes back as it was if and only if every layer in it has a name. */
  lemma LayerListsComeBackIffDefined(xs: seq<int>)
    ensures Parsed(Brackets(Shown(xs, ShowLayer)), ReadLayer) == Some(xs)
      <==> forall i :: 0 <= i < |xs| ==> Defined(xs[i])
  {
    forall i | 0 <= i < |xs|
      ensures IsWord(ShowLayer(xs[i])) && (ReadLayer(ShowLayer(xs[i])) == Some(xs[i]) <==> Defined(xs[i]))
    {
      ShownIsWord(xs[i]);
      if Defined(xs[i]) {
        NamesComeBack(xs[i]);
      } else {
        UndefinedReadsAsZero(xs[i]);
      }
    }
    hide ReadLayer, ShowLayer, Parsed, Brackets, IsWord;
    RoundTripIffInverted(xs, ShowLayer, ReadLayer);
  }

  // ---------------------------------------------------------------------------------------------
  // Rows of the database

  datatype Value = Address(bytes: Bytes) | Text(text: string) | Numbers(numbers: seq<U32>) | Layers(layers: seq<int>)

  /** Formatting of one column; showIP prints an address, "<nil>" for an empty one. */
  function Formatted(v: Value, showIP: Bytes -> string): string {
    match v
    case Address(b) => if showIP(b) == "<nil>" then "" else showIP(b)
    case Text(t) => t
    case Numbers(ns) => Brackets(Shown(ns, (x: U32) => Decimal(x)))
    case Layers(ls) => Brackets(Shown(ls, ShowLayer))
  }

  /** Every column holds its formatted field, and a column of numbers parses back to them. */
  ghost predicate RowOf(flow: seq<Value>, row: seq<string>, showIP: Bytes -> string) {
    && |row| == |flow|
    && (forall j :: 0 <= j < |flow| ==> row[j] == Formatted(flow[j], showIP))
    && forall j :: 0 <= j < |flow| && flow[j].Numbers? ==> Parsed(row[j], ParseUint32) == Some(flow[j].numbers)
  }

  /** What a row says about the flow: texts and addresses as they are printed, a missing address as nothing, numbers
      that parse back, and layers that parse back if and only if every one has a name. */
  lemma RowReadsBack(flow: seq<Value>, row: seq<string>, showIP: Bytes -> string, j: nat)
    requires RowOf(flow, row, showIP) && j < |flow|
    ensures flow[j].Text? ==> row[j] == flow[j].text
    ensures flow[j].Address? && showIP(flow[j].bytes) == "<nil>" ==> row[j] == ""
    ensures flow[j].Address? && showIP(flow[j].bytes) != "<nil>" ==> row[j] == showIP(flow[j].bytes)
    ensures flow[j].Numbers? ==> Parsed(row[j], ParseUint32) == Some(flow[j].numbers)
    ensures flow[j].Layers? ==>
      (Parsed(row[j], ReadLayer) == Some(flow[j].layers)
      <==> forall i :: 0 <= i < |flow[j].layers| ==> Defined(flow[j].layers[i]))
  {
    hide Parsed, Brackets, Shown, ParseUint32, ReadLayer, Defined;
    if flow[j].Layers? {
      LayerListsComeBackIffDefined(flow[j].layers);
    }
  }

  /** bulkInsert: one row per flow, one text per field. */
  method BulkInsert(flows: seq<seq<Value>>, showIP: Bytes -> string) returns (rows: seq<seq<string>>)
    ensures |rows| == |flows| && forall i :: 0 <= i < |flows| ==> RowOf(flows[i], rows[i], showIP)
  {
    rows := [];
    for i := 0 to |flows|
      invariant |rows| == i
      invariant forall k :: 0 <= k < i ==> RowOf(flows[k], rows[k], showIP)
    {
      var values := FormatRow(flows[i], showIP);
      rows := rows + [values];
    }
  }

  method FormatRow(flow: seq<Value>, showIP: Bytes -> string) returns (values: seq<string>)
    ensures RowOf(flow, values, showIP)
  {
    hide Parsed, Brackets, Shown, ParseUint32;
    values := [];
    for j := 0 to |flow|
      invariant |values| == j
      invariant forall k :: 0 <= k < j ==> values[k] == Formatted(flow[k], showIP)
      invariant forall k :: 0 <= k < j && flow[k].Numbers? ==> Parsed(values[k], ParseUint32) == Some(flow[k].numbers)
    {
      match flow[j] {
        case Address(b) =>
          var ipstring := showIP(b);
          if ipstring == "<nil>" {
            ipstring := "";
          }
          values := values + [ipstring];
        case Text(t) => values := values + [t];
        case Numbers(ns) =>
          Uint32ListsComeBack(ns);
          values := values + [Brackets(Shown(ns, (x: U32) => Decimal(x)))];
        case Layers(ls) => values := values + [Brackets(Shown(ls, ShowLayer))];
      }
    }
  }
}
