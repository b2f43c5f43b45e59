/**
 The request printer of system-shell/src/provision_client.c, and the round trip
 through the tokenizer: what is put into a request can be read back out of it.
 */
module Provision {
  import opened Common
  import opened Buffers
  import opened JsonScan
  import opened JsonGrammar
  import opened JsonComplete
  import opened JsonLookup
  import opened JsonValues

  function EscapeByte(c: Byte): (r: Text)
    ensures 1 <= |r| <= 6
  {
    if c == '"' || c == '\\' then ['\\', c]
    else if c < ' ' then ['\\', 'u', '0', '0', HEX[c as int / 16], HEX[c as int % 16]]
    else [c]
  }

  function Escape(text: Text): Text {
    if text == [] then [] else EscapeByte(text[0]) + Escape(text[1..])
  }

  function Quote(raw: Text): Text { "\"" + raw + "\"" }

  datatype Field = Field(name: Text, value: Text)

  function FieldText(field: Field): Text { ",\"" + field.name + "\":" + Quote(Escape(field.value)) }

  function FieldsText(fields: seq<Field>): Text {
    if fields == [] then [] else FieldText(fields[0]) + FieldsText(fields[1..])
  }

  /** `%llu` */
  function Digits10(n: nat): (r: Text)
    ensures Digits(r)
    decreases n
  {
    if n < 10 then [('0' as int + n) as char] else Digits10(n / 10) + [('0' as int + n % 10) as char]
  }

  function Prefix(id: nat, name: Text): Text {
    "{\"protocol_version\":1,\"request_id\":" + Digits10(id) + ",\"command\":{\"name\":" + Quote(name)
  }

  function Message(id: nat, name: Text, fields: seq<Field>): Text {
    Prefix(id, name) + FieldsText(fields) + "}}\n"
  }

  // ----- the printer

  method AppendJsonString(request: ByteBuffer, input: Text) returns (ok: bool)
    requires request.Valid() && NulFree(input)
    modifies request`length, request.bytes
    ensures request.Valid()
    ensures ok <==> |old(request.Contents())| + |Quote(Escape(input))| <= request.bytes.Length
    ensures ok ==> request.Contents() == old(request.Contents()) + Quote(Escape(input))
  {
    hide EscapeByte;
    ok := request.AppendBytes("\"");
    if !ok { return false; }
    ghost var start, done := request.Contents(), [];
    var index := 0;
    assert input[0..] == input && [] + Escape(input) == Escape(input) && start + [] == start;
    while index < |input|
      invariant 0 <= index <= |input| && request.Valid()
      invariant request.Contents() == start + done
      invariant Escape(input) == done + Escape(input[index..])
    {
      assert input[index..][1..] == input[index + 1..];
      Regroup(start, done, EscapeByte(input[index]), Escape(input[index + 1..]));
      ok := request.AppendBytes(EscapeByte(input[index]));
      if !ok { return false; }
      done := done + EscapeByte(input[index]);
      index := index + 1;
    }
    assert done == Escape(input);
    Regroup(old(request.Contents()), "\"", done, "\"");
    ok := request.AppendBytes("\"");
  }

  lemma Regroup(a: Text, b: Text, c: Text, d: Text)
    ensures b + (c + d) == b + c + d
    ensures a + b + c == a + (b + c)
    ensures a + b + c + d == a + (b + c + d)
  {
  }

  method BeginCommand(request: ByteBuffer, id: nat, name: Text) returns (ok: bool)
    requires request.Valid() && request.Contents() == [] && id < UINT64_SIZE
    modifies request`length, request.bytes
    ensures request.Valid()
    ensures ok <==> |Prefix(id, name)| < request.bytes.Length
    ensures request.Contents() == if ok then Prefix(id, name) else []
  {
    var text := Prefix(id, name);
    if |text| >= request.bytes.Length { return false; }
    ok := request.AppendBytes(text);
    assert [] + text == text;
  }

  method AppendMember(request: ByteBuffer, name: Text, value: Text) returns (ok: bool)
    requires request.Valid() && NulFree(value)
    modifies request`length, request.bytes
    ensures request.Valid()
    ensures ok <==> |old(request.Contents())| + |FieldText(Field(name, value))| <= request.bytes.Length
    ensures ok ==> request.Contents() == old(request.Contents()) + FieldText(Field(name, value))
  {
    hide Quote, Escape;
    ghost var before, quoted := request.Contents(), Quote(Escape(value));
    Regroup(before, ",\"", name, "\":");
    assert before + (",\"" + name + "\":") + quoted == before + (",\"" + name + "\":" + quoted);
    ok := request.AppendBytes(",\"");
    if ok { ok := request.AppendBytes(name); }
    if ok { ok := request.AppendBytes("\":"); }
    if ok { ok := AppendJsonString(request, value); }
  }

  method FinishCommand(request: ByteBuffer) returns (ok: bool)
    requires request.Valid()
    modifies request`length, request.bytes
    ensures request.Valid()
    ensures ok <==> |old(request.Contents())| + 3 <= request.bytes.Length
    ensures ok ==> request.Contents() == old(request.Contents()) + "}}\n"
  {
    ok := request.AppendBytes("}}\n");
  }

  /** A whole request: it is built exactly when it fits, and is then the message text. */
  method BuildRequest(capacity: nat, id: nat, name: Text, fields: seq<Field>) returns (ok: bool, request: ByteBuffer)
    requires id < UINT64_SIZE && forall i :: 0 <= i < |fields| ==> NulFree(fields[i].value)
    ensures request.Valid()
    ensures ok <==> |Message(id, name, fields)| <= capacity
    ensures ok ==> request.Contents() == Message(id, name, fields)
  {
    hide FieldText, Prefix;
    request := new ByteBuffer(capacity);
    ok := BeginCommand(request, id, name);
    if !ok { return; }
    ghost var start, done := Prefix(id, name), [];
    var index := 0;
    assert fields[0..] == fields && [] + FieldsText(fields) == FieldsText(fields) && start + [] == start;
    while index < |fields|
      invariant 0 <= index <= |fields| && request.Valid() && fresh(request) && fresh(request.bytes)
      invariant request.bytes.Length == capacity && request.Contents() == start + done
      invariant FieldsText(fields) == done + FieldsText(fields[index..])
    {
      assert fields[index..][1..] == fields[index + 1..];
      Regroup(start, done, FieldText(fields[index]), FieldsText(fields[index + 1..]));
      ok := AppendMember(request, fields[index].name, fields[index].value);
      if !ok { return; }
      done := done + FieldText(fields[index]);
      index := index + 1;
    }
    assert done == FieldsText(fields);
    ok := FinishCommand(request);
  }

  // ----- escaping undone

  lemma ControlByteDecodes(c: Byte, rest: Text)
    requires c != '\0' && c < ' '
    ensures var raw := EscapeByte(c) + rest;
            |EscapeByte(c)| == 6 && raw[0] == '\\' && raw[1] == 'u' && HexFour(raw, 2) && CodePoint(raw, 2) == c as int
  {
    var high, low := c as int / 16, c as int % 16;
    HexDigit(high);
    HexDigit(low);
    hide HexValue, IsHex;
    HexDigit(0);
    var raw := EscapeByte(c) + rest;
    assert raw[2] == '0' && raw[3] == '0' && raw[4] == HEX[high] && raw[5] == HEX[low];
  }

  lemma EscapedByteDecodes(c: Byte, rest: Text)
    requires c != '\0' && IsBody(rest)
    ensures IsBody(EscapeByte(c) + rest)
    ensures Piece(EscapeByte(c) + rest) == |EscapeByte(c)|
    ensures DecodePiece(EscapeByte(c) + rest) == Some([c])
  {
    var raw := EscapeByte(c) + rest;
    assert raw[|EscapeByte(c)|..] == rest;
    if c < ' ' {
      ControlByteDecodes(c, rest);
      hide EscapeByte, HexFour, CodePoint;
      assert IsBody(raw);
    }
  }

  /** Escaping a C string gives a string body, and reading it back gives the same bytes. */
  lemma {:induction false} EscapeUnescapes(text: Text)
    requires NulFree(text)
    ensures IsBody(Escape(text)) && Unescape(Escape(text)) == Some(text)
  {
    if text != [] {
      hide IsBody, Piece, DecodePiece;
      var rest := Escape(text[1..]);
      EscapeUnescapes(text[1..]);
      EscapedByteDecodes(text[0], rest);
      assert (EscapeByte(text[0]) + rest)[|EscapeByte(text[0])|..] == rest;
      assert text == [text[0]] + text[1..];
    }
  }

  predicate Printable(text: Text) { forall i :: 0 <= i < |text| ==> text[i] >= ' ' }

  lemma {:induction false} EscapePrintable(text: Text)
    ensures Printable(Escape(text))
  {
    if text != [] {
      EscapePrintable(text[1..]);
      EscapedBytePrintable(text[0]);
      hide EscapeByte;
    }
  }

  lemma EscapedBytePrintable(c: Byte)
    ensures Printable(EscapeByte(c))
  {
    if c < ' ' {
      HexDigit(c as int / 16);
      HexDigit(c as int % 16);
    }
  }

  /** A name that needs no escaping. */
  predicate PlainName(name: Text) {
    forall i :: 0 <= i < |name| ==> name[i] >= ' ' && name[i] != '"' && name[i] != '\\'
  }

  /** Such a name is its own escaped form. */
  lemma {:induction false} EscapePlain(text: Text)
    requires PlainName(text)
    ensures Escape(text) == text
  {
    if text != [] {
      EscapePlain(text[1..]);
      assert text == [text[0]] + text[1..];
    }
  }

  lemma {:induction false} PlainIsBody(name: Text)
    requires PlainName(name)
    ensures IsBody(name)
  {
    if name != [] { PlainIsBody(name[1..]); }
  }

  // ----- the tree of a request

  /** A string value, then the members behind it. */
  function ValueItems(raw: Text, fields: seq<Field>): (r: seq<Item>)
    ensures |r| == 1 + 2 * |fields|
    decreases |fields|
  {
    if fields == [] then [Item(Str(raw), [])]
    else [Item(Str(raw), ","), Item(Str(fields[0].name), ":")] + ValueItems(Escape(fields[0].value), fields[1..])
  }

  function CommandNode(name: Text, fields: seq<Field>): Node {
    Group(Object, [], [Item(Str("name"), ":")] + ValueItems(name, fields))
  }

  function RootItems(id: nat, name: Text, fields: seq<Field>): seq<Item> {
    [Item(Str("protocol_version"), ":"), Item(Prim("1"), ","),
     Item(Str("request_id"), ":"), Item(Prim(Digits10(id)), ","),
     Item(Str("command"), ":"), Item(CommandNode(name, fields), [])]
  }

  function RequestTree(id: nat, name: Text, fields: seq<Field>): Document {
    Document([], Item(Group(Object, [], RootItems(id, name, fields)), "\n"))
  }

  predicate ValidFields(name: Text, fields: seq<Field>) {
    PlainName(name) && forall i :: 0 <= i < |fields| ==> PlainName(fields[i].name) && NulFree(fields[i].value)
  }

  lemma {:induction false} ValueItemsText(raw: Text, fields: seq<Field>)
    ensures RenderItems(ValueItems(raw, fields)) == Quote(raw) + FieldsText(fields)
    decreases |fields|
  {
    var items := ValueItems(raw, fields);
    if fields == [] {
      assert items == [Item(Str(raw), [])] && items[1..] == [];
      assert RenderItems(items) == RenderItem(items[0]) + [];
    } else {
      hide Escape, FieldText, Quote;
      var field, more := fields[0], ValueItems(Escape(fields[0].value), fields[1..]);
      ValueItemsText(Escape(field.value), fields[1..]);
      RenderTwo(items[0], items[1], more);
      RenderString(raw, ",");
      RenderString(field.name, ":");
      FieldParts(field);
      FieldRegroup(Quote(raw), ",", Quote(field.name) + ":", Quote(Escape(field.value)), FieldsText(fields[1..]));
    }
  }

  lemma RenderString(raw: Text, trail: Text)
    ensures RenderItem(Item(Str(raw), trail)) == Quote(raw) + trail
  {
  }

  lemma FieldParts(field: Field)
    ensures FieldText(field) == "," + (Quote(field.name) + ":" + Quote(Escape(field.value)))
  {
    hide Escape;
    assert ",\"" + field.name + "\":" == "," + (Quote(field.name) + ":");
  }

  lemma FieldRegroup(a: Text, b: Text, c: Text, d: Text, e: Text)
    ensures a + b + (c + (d + e)) == a + ((b + (c + d)) + e)
  {
    assert c + (d + e) == c + d + e;
    assert a + b + ((c + d) + e) == a + (b + (c + d) + e);
  }

  lemma RenderTwo(a: Item, b: Item, more: seq<Item>)
    ensures RenderItems([a, b] + more) == RenderItem(a) + (RenderItem(b) + RenderItems(more))
  {
    hide RenderItem;
    var items := [a, b] + more;
    assert items[1..][1..] == more && items[1..][0] == b;
  }

  predicate StringItems(items: seq<Item>) {
    SizeItems(items) == |items| &&
    forall i :: 0 <= i < |items| ==> ValidItem(items[i], i == |items| - 1) && items[i].node.Str?
  }

  /** A string in front of string items. */
  lemma StringItemsCons(raw: Text, trail: Text, more: seq<Item>)
    requires IsBody(raw) && AllSkipped(trail) && StringItems(more)
    ensures StringItems([Item(Str(raw), trail)] + more)
  {
    hide IsBody;
    var items := [Item(Str(raw), trail)] + more;
    assert items[1..] == more && Size(items[0].node) == 1;
    assert SizeItems(items) == Size(items[0].node) + SizeItems(items[1..]);
    forall i | 0 <= i < |items| ensures ValidItem(items[i], i == |items| - 1) && items[i].node.Str? {
      if i > 0 { assert items[i] == more[i - 1]; }
    }
  }

  lemma {:induction false} ValueItemsValid(raw: Text, fields: seq<Field>)
    requires IsBody(raw) && ValidFields("", fields)
    ensures StringItems(ValueItems(raw, fields))
    decreases |fields|
  {
    hide Escape, Unescape, IsBody, StringItems, ValueItems;
    ValueItemsUnfold(raw, fields);
    if fields == [] {
      NoStringItems();
      StringItemsCons(raw, [], []);
    } else {
      var more := ValueItems(Escape(fields[0].value), fields[1..]);
      EscapeUnescapes(fields[0].value);
      PlainIsBody(fields[0].name);
      ValueItemsValid(Escape(fields[0].value), fields[1..]);
      StringItemsCons(fields[0].name, ":", more);
      StringItemsCons(raw, ",", [Item(Str(fields[0].name), ":")] + more);
    }
  }

  lemma ValueItemsUnfold(raw: Text, fields: seq<Field>)
    ensures ValueItems(raw, fields) ==
            if fields == [] then [Item(Str(raw), [])] + []
            else [Item(Str(raw), ",")]
                 + ([Item(Str(fields[0].name), ":")] + ValueItems(Escape(fields[0].value), fields[1..]))
  {
    hide Escape;
  }

  lemma NoStringItems()
    ensures StringItems([])
  {
  }

  lemma CommandText(name: Text, fields: seq<Field>)
    ensures Render(CommandNode(name, fields)) == "{\"name\":" + Quote(name) + FieldsText(fields) + "}"
  {
    hide Quote, FieldsText;
    var items := [Item(Str("name"), ":")] + ValueItems(name, fields);
    ValueItemsText(name, fields);
    RenderString("name", ":");
    assert items[1..] == ValueItems(name, fields);
    NameLiteral();
    var body := Quote("name") + ":" + (Quote(name) + FieldsText(fields));
    assert RenderItems(items) == body;
    assert "{" + [] + body + "}" == "{" + (Quote("name") + ":") + Quote(name) + FieldsText(fields) + "}";
  }

  lemma NameLiteral()
    ensures "{" + (Quote("name") + ":") == "{\"name\":"
  {
  }

  lemma HeaderLiterals()
    ensures "{" + (Quote("protocol_version") + ":") + "1," + (Quote("request_id") + ":")
            == "{\"protocol_version\":1,\"request_id\":"
    ensures "," + (Quote("command") + ":") + "{\"name\":" == ",\"command\":{\"name\":"
  {
    VersionLiteral();
    IdLiteral();
    assert "{\"protocol_version\":1," + "\"request_id\":" == "{\"protocol_version\":1,\"request_id\":";
  }

  lemma VersionLiteral()
    ensures "{" + (Quote("protocol_version") + ":") + "1," == "{\"protocol_version\":1,"
  {
  }

  lemma IdLiteral()
    ensures Quote("request_id") + ":" == "\"request_id\":"
  {
  }

  lemma RootText(id: nat, name: Text, fields: seq<Field>)
    ensures var command := Render(CommandNode(name, fields));
            RenderItems(RootItems(id, name, fields)) ==
            (Quote("protocol_version") + ":")
            + ("1," + ((Quote("request_id") + ":")
                       + ((Digits10(id) + ",") + ((Quote("command") + ":") + command))))
  {
    hide Render, Quote, Digits10, CommandNode;
    var items := RootItems(id, name, fields);
    RenderString("protocol_version", ":");
    RenderString("request_id", ":");
    RenderString("command", ":");
    RenderNumberText("1");
    RenderNumberText(Digits10(id));
    RenderSix(items);
    assert Render(items[5].node) + [] + [] == Render(items[5].node);
  }

  lemma RenderNumberText(text: Text)
    ensures RenderItem(Item(Prim(text), ",")) == text + ","
  {
  }

  lemma RenderSix(items: seq<Item>)
    requires |items| == 6
    ensures RenderItems(items) ==
            RenderItem(items[0]) + (RenderItem(items[1]) + (RenderItem(items[2])
            + (RenderItem(items[3]) + (RenderItem(items[4]) + (RenderItem(items[5]) + [])))))
  {
    hide RenderItem;
    RenderTwo(items[0], items[1], items[2..]);
    RenderTwo(items[2], items[3], items[4..]);
    RenderTwo(items[4], items[5], []);
    assert items == [items[0], items[1]] + items[2..];
    assert items[2..] == [items[2], items[3]] + items[4..];
    assert items[4..] == [items[4], items[5]] + [];
  }

  lemma RequestText(id: nat, name: Text, fields: seq<Field>)
    ensures RenderDocument(RequestTree(id, name, fields)) == Message(id, name, fields)
  {
    hide Quote, FieldsText, Digits10, CommandNode, RenderItems;
    RootText(id, name, fields);
    CommandText(name, fields);
    HeaderLiterals();
    var items := RootItems(id, name, fields);
    assert Render(Group(Object, [], items)) == "{" + [] + RenderItems(items) + "}";
    assert RenderDocument(RequestTree(id, name, fields)) == [] + ("{" + [] + RenderItems(items) + "}" + "\n");
    MessageRegroup(Quote("protocol_version") + ":", Quote("request_id") + ":", Digits10(id), Quote("command") + ":",
                   Quote(name), FieldsText(fields));
  }

  lemma MessageRegroup(a: Text, b: Text, digits: Text, c: Text, name: Text, rest: Text)
    ensures [] + ("{" + [] + (a + ("1," + (b + ((digits + ",") + (c + ("{\"name\":" + name + rest + "}")))))) + "}" + "\n")
            == ("{" + a + "1," + b) + digits + ("," + c + "{\"name\":") + name + rest + "}}\n"
  {
    var head, tail := "{" + a + "1," + b, name + rest;
    assert a + ("1," + (b + ((digits + ",") + (c + ("{\"name\":" + name + rest + "}")))))
        == a + "1," + b + digits + ("," + c + "{\"name\":") + tail + "}";
    assert "{" + [] + (a + "1," + b + digits + ("," + c + "{\"name\":") + tail + "}")
        == head + digits + ("," + c + "{\"name\":") + tail + "}";
  }

  lemma CommandValid(name: Text, fields: seq<Field>)
    requires ValidFields(name, fields)
    ensures ValidNode(CommandNode(name, fields)) && DepthAtMost(CommandNode(name, fields), 1)
    ensures Size(CommandNode(name, fields)) == 3 + 2 * |fields|
  {
    hide IsBody, ValueItems;
    PlainIsBody(name);
    PlainIsBody("name");
    ValueItemsValid(name, fields);
    StringItemsCons("name", ":", ValueItems(name, fields));
    StringGroup([Item(Str("name"), ":")] + ValueItems(name, fields));
  }

  lemma StringGroup(items: seq<Item>)
    requires StringItems(items) && |items| % 2 == 0
    ensures ValidNode(Group(Object, [], items)) && DepthAtMost(Group(Object, [], items), 1)
    ensures Size(Group(Object, [], items)) == 1 + |items|
  {
    hide IsBody;
    forall i | 0 <= i < |items| ensures DepthAtMost(items[i].node, 0) && ValidItem(items[i], i == |items| - 1) {}
  }

  lemma StringItemValid(raw: Text, trail: Text, last: bool)
    requires PlainName(raw) && AllSkipped(trail)
    ensures ValidItem(Item(Str(raw), trail), last) && DepthAtMost(Str(raw), MAX_DEPTH - 1)
  {
    PlainIsBody(raw);
  }

  lemma NumberItemValid(text: Text, last: bool)
    requires Digits(text)
    ensures ValidItem(Item(Prim(text), ","), last) && DepthAtMost(Prim(text), MAX_DEPTH - 1)
  {
  }

  lemma RootItemsValid(id: nat, name: Text, fields: seq<Field>, i: nat)
    requires ValidFields(name, fields) && i < 6
    ensures var items := RootItems(id, name, fields);
            ValidItem(items[i], i == 5) && DepthAtMost(items[i].node, MAX_DEPTH - 1)
  {
    hide IsBody, CommandNode, Digits10, ValidNode, DepthAtMost;
    StringItemValid("protocol_version", ":", false);
    StringItemValid("request_id", ":", false);
    StringItemValid("command", ":", false);
    NumberItemValid("1", false);
    NumberItemValid(Digits10(id), false);
    CommandValid(name, fields);
    CommandIsGroup(name, fields);
    DeeperBound(CommandNode(name, fields), 1, MAX_DEPTH - 1);
  }

  lemma CommandIsGroup(name: Text, fields: seq<Field>)
    ensures CommandNode(name, fields).Group?
  {
  }

  lemma {:induction false} DeeperBound(n: Node, small: int, large: int)
    requires DepthAtMost(n, small) && small <= large
    ensures DepthAtMost(n, large)
    decreases n
  {
    if n.Group? {
      forall i | 0 <= i < |n.items| ensures DepthAtMost(n.items[i].node, large - 1) {
        DeeperBound(n.items[i].node, small - 1, large - 1);
      }
    }
  }

  lemma RequestSize(id: nat, name: Text, fields: seq<Field>)
    requires ValidFields(name, fields)
    ensures Size(RequestTree(id, name, fields).root.node) == 9 + 2 * |fields|
  {
    CommandValid(name, fields);
    hide CommandNode, ValidNode, DepthAtMost, IsBody;
    var items := RootItems(id, name, fields);
    SizeTwo(items[0], items[1], items[2..]);
    SizeTwo(items[2], items[3], items[4..]);
    SizeTwo(items[4], items[5], []);
    assert items == [items[0], items[1]] + items[2..];
    assert items[2..] == [items[2], items[3]] + items[4..];
    assert items[4..] == [items[4], items[5]] + [];
  }

  lemma SizeTwo(a: Item, b: Item, more: seq<Item>)
    ensures SizeItems([a, b] + more) == Size(a.node) + Size(b.node) + SizeItems(more)
  {
    hide Size;
    var items := [a, b] + more;
    assert items[1..][1..] == more && items[1..][0] == b;
  }

  /** A request tokenizes, to the tree it was built as. */
  lemma RequestParses(id: nat, name: Text, fields: seq<Field>, cap: nat)
    requires ValidFields(name, fields) && 9 + 2 * |fields| <= cap && |Message(id, name, fields)| <= INT32_MAX
    ensures ValidDocument(RequestTree(id, name, fields))
    ensures Parse(Message(id, name, fields), cap) == Some(FlatDocument(RequestTree(id, name, fields)))
  {
    hide Message, RenderDocument, RootItems, Parse, Size;
    var d := RequestTree(id, name, fields);
    forall i: nat | i < |RootItems(id, name, fields)|
      ensures var items := d.root.node.items;
              ValidItem(items[i], i == |items| - 1) && DepthAtMost(items[i].node, MAX_DEPTH - 1)
    {
      SixItems(id, name, fields);
      RootItemsValid(id, name, fields, i);
    }
    SixItems(id, name, fields);
    assert ValidNode(d.root.node);
    assert AllSkipped("\n");
    assert ValidItem(d.root, true);
    RequestText(id, name, fields);
    RequestSize(id, name, fields);
    ParseRendered(d, cap);
  }

  lemma SixItems(id: nat, name: Text, fields: seq<Field>)
    ensures |RootItems(id, name, fields)| == 6
  {
  }

  // ----- looking the fields up again

  predicate DistinctNames(fields: seq<Field>) {
    && (forall i :: 0 <= i < |fields| ==> fields[i].name != "name")
    && (forall i, j :: 0 <= i < j < |fields| ==> fields[i].name != fields[j].name)
  }

  lemma {:induction false} FindField(first: Item, raw: Text, fields: seq<Field>, index: nat, pos: nat, i: nat)
    requires i < |fields| && first.node.Str? && first.node.raw != fields[i].name
    requires forall j :: 0 <= j < i ==> fields[j].name != fields[i].name
    ensures var r := Member([first] + ValueItems(raw, fields), index, pos, fields[i].name);
            r.Some? && r.value.node == Str(Escape(fields[i].value))
    decreases |fields|
  {
    hide RenderItem, Escape;
    var items := [first] + ValueItems(raw, fields);
    var key := Item(Str(fields[0].name), ":");
    var next := [key] + ValueItems(Escape(fields[0].value), fields[1..]);
    assert items[2..] == next;
    var at := pos + |RenderItem(items[0])| + |RenderItem(items[1])|;
    if i == 0 {
      assert next[1].node == Str(Escape(fields[0].value)) by {
        if fields[1..] == [] {} else {}
      }
    } else {
      assert fields[1..][i - 1] == fields[i];
      FindField(key, Escape(fields[0].value), fields[1..], index + 1 + Size(items[1].node), at, i - 1);
    }
  }

  lemma FindCommand(id: nat, name: Text, fields: seq<Field>, index: nat, pos: nat)
    ensures var r := Member(RootItems(id, name, fields), index, pos, "command");
            r.Some? && r.value.node == CommandNode(name, fields)
  {
    hide RenderItem, CommandNode;
    var items := RootItems(id, name, fields);
    var at := pos + |RenderItem(items[0])| + |RenderItem(items[1])|;
    assert Member(items, index, pos, "command") == Member(items[2..], index + 1 + Size(items[1].node), at, "command");
    var index' := index + 1 + Size(items[1].node);
    var at' := at + |RenderItem(items[2])| + |RenderItem(items[3])|;
    assert Member(items[2..], index', at, "command")
        == Member(items[2..][2..], index' + 1 + Size(items[3].node), at', "command");
    assert items[2..][2..] == items[4..];
  }

  /** Looking up a field under `command` finds a string whose decoded bytes are `value`. */
  ghost predicate ReadsBack(doc: Text, cap: nat, name: Text, value: Text) {
    Parse(doc, cap).Some? &&
    var tokens := Parse(doc, cap).value;
    var t := GetPath(doc, tokens, 0, [Key("command"), Key(name)]);
    && 0 <= t < |tokens| && tokens[t].kind == String
    && 0 <= tokens[t].start <= tokens[t].end <= |doc|
    && IsBody(doc[tokens[t].start..tokens[t].end])
    && Unescape(doc[tokens[t].start..tokens[t].end]) == Some(value)
  }

  /** A lookup under `command` that lands on an escaped value in the tree reads the value back. */
  lemma ValueReadsBack(id: nat, name: Text, fields: seq<Field>, cap: nat, key: Text, value: Text)
    requires ValidFields(name, fields) && NulFree(value)
    requires 9 + 2 * |fields| <= cap && |Message(id, name, fields)| <= INT32_MAX
    requires var p := Walk(RootOf(RequestTree(id, name, fields)), [Key("command"), Key(key)]);
             p.Some? && p.value.node == Str(Escape(value))
    ensures ReadsBack(Message(id, name, fields), cap, key, value)
  {
    hide Message, RenderDocument, RootItems, Parse, GetPath, CommandNode, Flat, Member, Unescape, IsBody, ValidDocument;
    var d, doc := RequestTree(id, name, fields), Message(id, name, fields);
    var path := [Key("command"), Key(key)];
    RequestParses(id, name, fields, cap);
    RequestText(id, name, fields);
    PathsAgree(d, path);
    var p := Walk(RootOf(d), path).value;
    var tokens := FlatDocument(d);
    var above: int :| PlacedAt(doc, tokens, Some(p), above);
    FirstToken(doc, tokens, p.index, p.node, p.pos, above);
    assert StringEquals(doc, tokens[p.index], Escape(value));
    EscapeUnescapes(value);
  }

  /** Every field of a request can be read back. */
  lemma FieldReadsBack(id: nat, name: Text, fields: seq<Field>, cap: nat, i: nat)
    requires ValidFields(name, fields) && DistinctNames(fields) && i < |fields|
    requires 9 + 2 * |fields| <= cap && |Message(id, name, fields)| <= INT32_MAX
    ensures ReadsBack(Message(id, name, fields), cap, fields[i].name, fields[i].value)
  {
    hide Message, RequestTree, Walk, ReadsBack;
    WalkToField(id, name, fields, i);
    ValueReadsBack(id, name, fields, cap, fields[i].name, fields[i].value);
  }

  /** So can the command's own name. */
  lemma NameReadsBack(id: nat, name: Text, fields: seq<Field>, cap: nat)
    requires ValidFields(name, fields)
    requires 9 + 2 * |fields| <= cap && |Message(id, name, fields)| <= INT32_MAX
    ensures ReadsBack(Message(id, name, fields), cap, "name", name)
  {
    hide Message, RequestTree, Walk, ReadsBack;
    WalkToName(id, name, fields);
    EscapePlain(name);
    ValueReadsBack(id, name, fields, cap, "name", name);
  }

  lemma WalkToName(id: nat, name: Text, fields: seq<Field>)
    ensures var p := Walk(RootOf(RequestTree(id, name, fields)), [Key("command"), Key("name")]);
            p.Some? && p.value.node == Str(name)
  {
    hide RootItems, Member;
    var root, path := RootOf(RequestTree(id, name, fields)), [Key("command"), Key("name")];
    FindCommand(id, name, fields, root.index + 1, root.pos + 1);
    var command := Child(root, path[0]).value;
    FindName(name, fields, command.index + 1, command.pos + 1);
    var field := Child(command, path[1]).value;
    assert path[1..] == [path[1]] && path[1..][1..] == [];
    assert Walk(field, []) == Some(field);
    assert Walk(command, path[1..]) == Some(field);
  }

  lemma FindName(name: Text, fields: seq<Field>, index: nat, pos: nat)
    ensures var r := Member([Item(Str("name"), ":")] + ValueItems(name, fields), index, pos, "name");
            r.Some? && r.value.node == Str(name)
  {
    hide RenderItem;
    assert ValueItems(name, fields)[0].node == Str(name);
  }

  // ----- the request number

  /** Printing a number and reading it as `cp0_json_get_u64` does gives the number. */
  lemma {:induction false} DigitsRead(n: nat)
    ensures Decimal(Digits10(n)) == n
  {
    if n >= 10 {
      DigitsRead(n / 10);
      assert Digits10(n)[..|Digits10(n)| - 1] == Digits10(n / 10);
    } else {
      assert Digits10(n)[..0] == [];
    }
  }

  lemma PrimToken(doc: Text, tokens: seq<Token>, index: nat, n: Node, pos: nat, parent: int)
    requires At(doc, tokens, index, n, pos, parent) && n.Prim?
    ensures var token := tokens[index];
            && token.kind == Primitive && token.start == pos && token.end == pos + |n.text| <= |doc|
            && doc[token.start..token.end] == n.text
  {
    assert tokens[index] == tokens[index..index + Size(n)][0];
  }

  lemma FindId(id: nat, name: Text, fields: seq<Field>, index: nat, pos: nat)
    ensures var r := Member(RootItems(id, name, fields), index, pos, "request_id");
            r.Some? && r.value.node == Prim(Digits10(id))
  {
    hide RenderItem, CommandNode, Digits10;
    var items := RootItems(id, name, fields);
    var at := pos + |RenderItem(items[0])| + |RenderItem(items[1])|;
    assert Member(items, index, pos, "request_id") == Member(items[2..], index + 1 + Size(items[1].node), at, "request_id");
  }

  /** Looking up `request_id` finds a number of that value. */
  ghost predicate NumberedAs(doc: Text, cap: nat, id: nat) {
    Parse(doc, cap).Some? &&
    var tokens := Parse(doc, cap).value;
    var t := GetPath(doc, tokens, 0, [Key("request_id")]);
    && 0 <= t < |tokens| && tokens[t].kind == Primitive && 0 <= tokens[t].start < tokens[t].end <= |doc|
    && Digits(doc[tokens[t].start..tokens[t].end]) && Decimal(doc[tokens[t].start..tokens[t].end]) == id
  }

  /** The number of a request can be read back. */
  lemma IdReadsBack(id: nat, name: Text, fields: seq<Field>, cap: nat)
    requires ValidFields(name, fields) && 9 + 2 * |fields| <= cap && |Message(id, name, fields)| <= INT32_MAX
    ensures NumberedAs(Message(id, name, fields), cap, id)
  {
    hide Message, RenderDocument, RootItems, Parse, GetPath, CommandNode, Flat, Member, ValidDocument, Digits10, Decimal;
    var d, doc, path := RequestTree(id, name, fields), Message(id, name, fields), [Key("request_id")];
    RequestParses(id, name, fields, cap);
    RequestText(id, name, fields);
    PathsAgree(d, path);
    var root := RootOf(d);
    FindId(id, name, fields, root.index + 1, root.pos + 1);
    var p := Child(root, path[0]).value;
    assert path[1..] == [] && Walk(p, []) == Some(p) && Walk(root, path) == Some(p);
    var tokens := FlatDocument(d);
    var above: int :| PlacedAt(doc, tokens, Some(p), above);
    PrimToken(doc, tokens, p.index, p.node, p.pos, above);
    DigitsRead(id);
  }

  lemma WalkToField(id: nat, name: Text, fields: seq<Field>, i: nat)
    requires DistinctNames(fields) && i < |fields|
    ensures var p := Walk(RootOf(RequestTree(id, name, fields)), [Key("command"), Key(fields[i].name)]);
            p.Some? && p.value.node == Str(Escape(fields[i].value))
  {
    hide Member, RootItems, ValueItems, Escape;
    var root, path := RootOf(RequestTree(id, name, fields)), [Key("command"), Key(fields[i].name)];
    FindCommand(id, name, fields, root.index + 1, root.pos + 1);
    var command := Child(root, path[0]).value;
    FindField(Item(Str("name"), ":"), name, fields, command.index + 1, command.pos + 1, i);
    var field := Child(command, path[1]).value;
    assert path[1..] == [path[1]] && path[1..][1..] == [];
    assert Walk(field, []) == Some(field);
    assert Walk(command, path[1..]) == Some(field);
  }

  // ----- framing

  lemma FieldPrintable(field: Field)
    requires PlainName(field.name)
    ensures Printable(FieldText(field))
  {
    EscapePrintable(field.value);
    hide Escape;
  }

  lemma {:induction false} FieldsPrintable(fields: seq<Field>)
    requires ValidFields("", fields)
    ensures Printable(FieldsText(fields))
  {
    if fields != [] {
      hide FieldText;
      FieldPrintable(fields[0]);
      FieldsPrintable(fields[1..]);
    }
  }

  /** A request is one line: its only newline is its last byte. */
  lemma RequestIsOneLine(id: nat, name: Text, fields: seq<Field>, k: nat)
    requires ValidFields(name, fields) && k < |Message(id, name, fields)|
    ensures Message(id, name, fields)[k] == '\n' <==> k == |Message(id, name, fields)| - 1
  {
    hide FieldsText, Digits10;
    FieldsPrintable(fields);
    assert Printable(Prefix(id, name)) by { PrefixPrintable(id, name); }
    hide Prefix;
    var body := Prefix(id, name) + FieldsText(fields) + "}}";
    assert Printable(body);
    assert Message(id, name, fields) == body + "\n";
  }

  lemma PrefixPrintable(id: nat, name: Text)
    requires PlainName(name)
    ensures Printable(Prefix(id, name))
  {
    hide Digits10;
    assert Printable(Digits10(id)) && Printable(Quote(name));
    OpeningPrintable();
    hide Quote;
  }

  lemma OpeningPrintable()
    ensures Printable("{\"protocol_version\":1,\"request_id\":") && Printable(",\"command\":{\"name\":")
  {
  }
}
