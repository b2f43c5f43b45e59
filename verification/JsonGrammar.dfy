/**
 The language the tokenizer reads, as trees: what a tree looks like as text
 (`Render`), and which token array stands for it (`Flat`). `IsRfc` singles out
 the trees whose text is JSON by sections 2 to 7 of RFC 8259.
 */
module JsonGrammar {
  import opened Common
  import opened JsonScan

  /** A value and the bytes skipped behind it. */
  datatype Item = Item(node: Node, trail: Text)

  datatype Node =
    | Prim(text: Text)
    | Str(raw: Text)
    | Group(kind: Kind, lead: Text, items: seq<Item>)

  /** A whole text: skipped bytes, one value, skipped bytes. */
  datatype Document = Document(lead: Text, root: Item)

  /** Bytes between two quotes that the tokenizer takes for one string. */
  predicate IsBody(raw: Text) {
    raw == [] ||
    if raw[0] != '\\' then raw[0] >= ' ' && raw[0] != '"' && IsBody(raw[1..])
    else |raw| >= 2 &&
         if IsSimpleEscape(raw[1]) then IsBody(raw[2..])
         else raw[1] == 'u' && HexFour(raw, 2) && IsBody(raw[6..])
  }

  predicate AllSkipped(text: Text) { forall i :: 0 <= i < |text| ==> IsSkipped(text[i]) }

  /** A primitive runs up to the next delimiter, so a colon may not follow it directly. */
  predicate Separated(item: Item, last: bool) {
    item.node.Prim? ==> if item.trail == [] then last else item.trail[0] != ':'
  }

  predicate ValidItem(item: Item, last: bool) {
    ValidNode(item.node) && AllSkipped(item.trail) && Separated(item, last)
  }

  predicate ValidNode(n: Node) {
    match n
    case Prim(text) => text != [] && forall i :: 0 <= i < |text| ==> IsPrimitiveByte(text[i])
    case Str(raw) => IsBody(raw)
    case Group(kind, lead, items) =>
      && (kind == Object || kind == Array)
      && (kind == Object ==> |items| % 2 == 0)
      && AllSkipped(lead)
      && forall i :: 0 <= i < |items| ==> ValidItem(items[i], i == |items| - 1)
  }

  function OpenByte(kind: Kind): Byte { if kind == Object then '{' else '[' }

  function CloseByte(kind: Kind): Byte { if kind == Object then '}' else ']' }

  function Render(n: Node): (r: Text)
    ensures |r| >= 1 || n.Prim?
    decreases n, 0
  {
    match n
    case Prim(text) => text
    case Str(raw) => "\"" + raw + "\""
    case Group(kind, lead, items) => [OpenByte(kind)] + lead + RenderItems(items) + [CloseByte(kind)]
  }

  function RenderItem(item: Item): Text
    decreases item, 1
  {
    Render(item.node) + item.trail
  }

  function RenderItems(items: seq<Item>): Text
    decreases items, 2
  {
    if items == [] then [] else RenderItem(items[0]) + RenderItems(items[1..])
  }

  function RenderDocument(d: Document): Text { d.lead + RenderItem(d.root) }

  /** Number of tokens of a value. */
  function Size(n: Node): (r: nat)
    ensures r >= 1
    decreases n, 0
  {
    if n.Group? then 1 + SizeItems(n.items) else 1
  }

  function SizeItems(items: seq<Item>): nat
    decreases items, 2
  {
    if items == [] then 0 else Size(items[0].node) + SizeItems(items[1..])
  }

  /** Number of containers nested in a value, itself included. */
  predicate DepthAtMost(n: Node, bound: int)
    decreases n
  {
    if n.Group? then
      bound >= 1 && forall i :: 0 <= i < |n.items| ==> DepthAtMost(n.items[i].node, bound - 1)
    else bound >= 0
  }

  /** The tokens of a value whose text starts at `pos`, the first one at `index`. */
  function Flat(n: Node, pos: nat, index: nat, parent: int): (r: seq<Token>)
    ensures |r| == Size(n)
    decreases n, 0
  {
    match n
    case Prim(text) => [Token(Primitive, pos, pos + |text|, parent, 0)]
    case Str(raw) => [Token(String, pos + 1, pos + 1 + |raw|, parent, 0)]
    case Group(kind, lead, items) =>
      [Token(kind, pos, pos + |Render(n)|, parent, |items|)]
      + FlatItems(items, pos + 1 + |lead|, index + 1, index)
  }

  function FlatItems(items: seq<Item>, pos: nat, index: nat, parent: int): (r: seq<Token>)
    ensures |r| == SizeItems(items)
    decreases items, 2
  {
    if items == [] then []
    else
      Flat(items[0].node, pos, index, parent)
      + FlatItems(items[1..], pos + |RenderItem(items[0])|, index + Size(items[0].node), parent)
  }

  function FlatDocument(d: Document): seq<Token> { Flat(d.root.node, |d.lead|, 0, -1) }

  predicate ValidDocument(d: Document) { AllSkipped(d.lead) && ValidItem(d.root, true) }

  /** The tokenizer's own limits. */
  predicate Fits(d: Document, cap: nat) {
    DepthAtMost(d.root.node, MAX_DEPTH) && Size(d.root.node) <= cap && |RenderDocument(d)| <= INT32_MAX
  }

  // ----- RFC 8259

  predicate AllSpace(text: Text) { forall i :: 0 <= i < |text| ==> IsSpace(text[i]) }

  /** White space around exactly one separator, or around none. */
  predicate RfcTrail(trail: Text, separator: Text) {
    exists i :: 0 <= i <= |trail| - |separator| && RfcTrailAt(trail, separator, i)
  }

  predicate RfcTrailAt(trail: Text, separator: Text, i: nat)
    requires i + |separator| <= |trail|
  {
    AllSpace(trail[..i]) && trail[i..i + |separator|] == separator && AllSpace(trail[i + |separator|..])
  }

  predicate RfcBody(raw: Text) {
    raw == [] ||
    if raw[0] != '\\' then raw[0] >= ' ' && raw[0] != '"' && RfcBody(raw[1..])
    else |raw| >= 2 &&
         if raw[1] in "\"\\/bfnrt" then RfcBody(raw[2..])
         else raw[1] == 'u' && HexFour(raw, 2) && RfcBody(raw[6..])
  }

  predicate Digits(text: Text) { text != [] && forall i :: 0 <= i < |text| ==> '0' <= text[i] <= '9' }

  /** Section 6: `number = [ minus ] int [ frac ] [ exp ]`. */
  datatype Number = Number(minus: bool, whole: Text, frac: Option<Text>, exp: Option<Exponent>)

  datatype Exponent = Exponent(e: Byte, sign: Text, digits: Text)

  predicate ValidNumber(n: Number) {
    && Digits(n.whole) && (n.whole[0] == '0' ==> |n.whole| == 1)
    && (n.frac.Some? ==> Digits(n.frac.value))
    && (n.exp.Some? ==> n.exp.value.e in "eE" && n.exp.value.sign in ["", "+", "-"] && Digits(n.exp.value.digits))
  }

  function RenderNumber(n: Number): Text {
    (if n.minus then "-" else "") + n.whole
    + (if n.frac.Some? then "." + n.frac.value else "")
    + (if n.exp.Some? then [n.exp.value.e] + n.exp.value.sign + n.exp.value.digits else "")
  }

  ghost predicate RfcPrimitive(text: Text) {
    text in ["true", "false", "null"] || exists n: Number :: ValidNumber(n) && text == RenderNumber(n)
  }

  ghost predicate IsRfc(n: Node) {
    match n
    case Prim(text) => RfcPrimitive(text)
    case Str(raw) => RfcBody(raw)
    case Group(kind, lead, items) =>
      && (kind == Object || kind == Array)
      && (kind == Object ==> |items| % 2 == 0)
      && AllSpace(lead)
      && (forall i :: 0 <= i < |items| ==> IsRfc(items[i].node))
      && (forall i :: 0 <= i < |items| ==> RfcTrail(items[i].trail, RfcSeparator(kind, i, |items|)))
      && (kind == Object ==> forall i :: 0 <= i < |items| && i % 2 == 0 ==> items[i].node.Str?)
  }

  function RfcSeparator(kind: Kind, i: nat, count: nat): Text {
    if kind == Object && i % 2 == 0 then ":" else if i == count - 1 then "" else ","
  }

  /** The first item split off. */
  lemma Unfolded(items: seq<Item>, pos: nat, index: nat, parent: int)
    requires items != []
    ensures RenderItem(items[0]) == Render(items[0].node) + items[0].trail
    ensures RenderItems(items) == RenderItem(items[0]) + RenderItems(items[1..])
    ensures SizeItems(items) == Size(items[0].node) + SizeItems(items[1..])
    ensures items[1..] == [] ==> RenderItems(items[1..]) == [] && SizeItems(items[1..]) == 0
    ensures items[1..] != [] ==> SizeItems(items[1..]) >= 1
    ensures FlatItems(items, pos, index, parent) ==
            Flat(items[0].node, pos, index, parent)
            + FlatItems(items[1..], pos + |RenderItem(items[0])|, index + Size(items[0].node), parent)
  {
    var rest := items[1..];
    if rest != [] { assert SizeItems(rest) >= Size(rest[0].node) >= 1; }
  }

  lemma {:induction false} RfcBodyIsBody(raw: Text)
    requires RfcBody(raw)
    ensures IsBody(raw)
  {
    if raw != [] {
      if raw[0] != '\\' { RfcBodyIsBody(raw[1..]); }
      else if raw[1] in "\"\\/bfnrt" { RfcBodyIsBody(raw[2..]); }
      else { RfcBodyIsBody(raw[6..]); }
    }
  }

  lemma NumberBytes(n: Number)
    requires ValidNumber(n)
    ensures RenderNumber(n) != []
    ensures forall i :: 0 <= i < |RenderNumber(n)| ==> IsPrimitiveByte(RenderNumber(n)[i])
  {
  }

  lemma RfcTrailSkipped(trail: Text, separator: Text)
    requires RfcTrail(trail, separator) && AllSkipped(separator)
    ensures AllSkipped(trail)
    ensures separator == "," ==> trail != [] && trail[0] != ':'
    ensures separator == "" && trail != [] ==> trail[0] != ':'
  {
    var i :| 0 <= i <= |trail| - |separator| && RfcTrailAt(trail, separator, i);
    assert trail == trail[..i] + trail[i..i + |separator|] + trail[i + |separator|..];
  }

  lemma RfcPrimitiveBytes(text: Text)
    requires RfcPrimitive(text)
    ensures text != [] && forall i :: 0 <= i < |text| ==> IsPrimitiveByte(text[i])
  {
    if text !in ["true", "false", "null"] {
      var number: Number :| ValidNumber(number) && text == RenderNumber(number);
      NumberBytes(number);
    }
  }

  lemma SeparatorSkipped(kind: Kind, i: nat, count: nat)
    ensures AllSkipped(RfcSeparator(kind, i, count))
  {
  }

  /** Only a string is followed by a colon, and only the last item by nothing. */
  lemma RfcItemSeparated(item: Item, kind: Kind, i: nat, count: nat)
    requires i < count && RfcTrail(item.trail, RfcSeparator(kind, i, count))
    requires kind == Object && i % 2 == 0 ==> item.node.Str?
    requires kind == Object ==> count % 2 == 0
    ensures AllSkipped(item.trail) && Separated(item, i == count - 1)
  {
    hide RfcTrail, AllSkipped;
    SeparatorSkipped(kind, i, count);
    RfcTrailSkipped(item.trail, RfcSeparator(kind, i, count));
  }

  /** Every tree of JSON text is one the tokenizer's grammar has. */
  lemma {:induction false} RfcIsValid(n: Node)
    requires IsRfc(n)
    ensures ValidNode(n)
  {
    hide RfcPrimitive, RfcBody, IsBody, RfcTrail, RfcSeparator, Separated;
    match n
    case Prim(text) => RfcPrimitiveBytes(text);
    case Str(raw) => RfcBodyIsBody(raw);
    case Group(kind, lead, items) =>
      forall i | 0 <= i < |items|
        ensures ValidItem(items[i], i == |items| - 1)
      {
        RfcIsValid(items[i].node);
        RfcItemSeparated(items[i], kind, i, |items|);
      }
  }
}
