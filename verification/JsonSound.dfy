/**
 The converse of `JsonComplete`: every text the tokenizer accepts is a text of
 the grammar, and the token array is that of its tree. The proof follows the
 scan with the partial tree read so far.
 */
module JsonSound {
  import opened Common
  import opened JsonScan
  import opened JsonGrammar
  import opened JsonComplete

  /** A text read so far: the values at the outermost level, then the open containers. */
  datatype Partial =
    | Outermost(lead: Text, items: seq<Item>)
    | Within(outer: Partial, kind: Kind, lead: Text, items: seq<Item>)

  /** The text before the first value of the innermost level. */
  function LeadOf(p: Partial): Text
    decreases p, 0
  {
    match p
    case Outermost(lead, _) => lead
    case Within(outer, kind, lead, _) => TextOf(outer) + [OpenByte(kind)] + lead
  }

  function TextOf(p: Partial): Text
    decreases p, 1
  {
    LeadOf(p) + RenderItems(p.items)
  }

  function StackOf(p: Partial): seq<nat>
    decreases p, 0
  {
    if p.Outermost? then [] else StackOf(p.outer) + [|TokensOf(p.outer)|]
  }

  /** The tokens before those of the innermost level's values; the last one is its container's. */
  function HeadOf(p: Partial): seq<Token>
    decreases p, 0
  {
    match p
    case Outermost(_, _) => []
    case Within(outer, kind, lead, items) =>
      Bump(TokensOf(outer), StackOf(outer))
      + [Token(kind, |TextOf(outer)|, -1, Top(StackOf(outer)), |items|)]
  }

  function TokensOf(p: Partial): seq<Token>
    decreases p, 1
  {
    HeadOf(p) + FlatItems(p.items, |LeadOf(p)|, |HeadOf(p)|, |HeadOf(p)| - 1)
  }

  predicate ValidItems(items: seq<Item>, bound: int) {
    forall i :: 0 <= i < |items| ==>
      ValidNode(items[i].node) && AllSkipped(items[i].trail) && DepthAtMost(items[i].node, bound)
      && Separated(items[i], i == |items| - 1)
  }

  predicate ValidPartial(p: Partial) {
    && AllSkipped(p.lead) && ValidItems(p.items, MAX_DEPTH - |StackOf(p)|)
    && match p
       case Outermost(_, items) => |items| <= 1
       case Within(outer, kind, _, _) =>
         (kind == Object || kind == Array) && ValidPartial(outer)
         && (outer.Outermost? ==> outer.items == [])
         && (outer.items != [] ==> Separated(outer.items[|outer.items| - 1], false))
  }

  /** The scan state `st` has read exactly the text and tokens of `p`. */
  predicate Content(doc: Text, st: State, p: Partial) {
    st.pos <= |doc| && doc[..st.pos] == TextOf(p) && st.tokens == TokensOf(p) && st.stack == StackOf(p)
  }

  /** A primitive that ends where the scan is, is followed by a delimiter. */
  predicate Parted(doc: Text, st: State, p: Partial) {
    p.items != [] && p.items[|p.items| - 1].node.Prim? && p.items[|p.items| - 1].trail == []
    ==> Delimited(doc, st.pos)
  }

  predicate Reads(doc: Text, st: State, p: Partial) {
    Content(doc, st, p) && |st.stack| <= MAX_DEPTH && ValidPartial(p) && Parted(doc, st, p)
  }

  lemma {:induction false} ValidStack(p: Partial)
    ensures forall i :: 0 <= i < |StackOf(p)| ==> StackOf(p)[i] < |TokensOf(p)|
  {
    if p.Within? { ValidStack(p.outer); }
  }

  // ----- values are appended at the end of the innermost level

  lemma {:induction false} RenderAppend(items: seq<Item>, item: Item)
    ensures RenderItems(items + [item]) == RenderItems(items) + RenderItem(item)
    decreases |items|
  {
    if items == [] {
      assert RenderItem(item) + [] == RenderItem(item);
    } else {
      assert (items + [item])[1..] == items[1..] + [item];
      RenderAppend(items[1..], item);
    }
  }

  lemma NoSize()
    ensures SizeItems([]) == 0
  {
  }

  lemma {:induction false} FlatAppend(items: seq<Item>, item: Item, pos: nat, index: nat, parent: int)
    ensures FlatItems(items + [item], pos, index, parent) ==
            FlatItems(items, pos, index, parent)
            + Flat(item.node, pos + |RenderItems(items)|, index + SizeItems(items), parent)
    decreases |items|
  {
    hide Flat, FlatItems, RenderItems, SizeItems, Render, Size;
    Unfolded(items + [item], pos, index, parent);
    if items == [] {
      assert (items + [item])[1..] == [];
      JsonComplete.NoItems(pos, index, parent);
      JsonComplete.NoItems(pos + |RenderItem(item)|, index + Size(item.node), parent);
      NoSize();
    } else {
      Unfolded(items, pos, index, parent);
      assert (items + [item])[1..] == items[1..] + [item];
      FlatAppend(items[1..], item, pos + |RenderItem(items[0])|, index + Size(items[0].node), parent);
    }
  }

  function Append(p: Partial, item: Item): Partial { p.(items := p.items + [item]) }

  lemma AppendText(p: Partial, node: Node)
    ensures TextOf(Append(p, Item(node, []))) == TextOf(p) + Render(node)
  {
    hide Render, RenderItems, LeadOf, StackOf;
    var item := Item(node, []);
    RenderAppend(p.items, item);
    assert RenderItem(item) == Render(node);
    SameLevel(p, item);
  }

  lemma AppendTokens(p: Partial, node: Node)
    ensures StackOf(Append(p, Item(node, []))) == StackOf(p)
    ensures TokensOf(Append(p, Item(node, []))) ==
            Bump(TokensOf(p), StackOf(p)) + Flat(node, |TextOf(p)|, |TokensOf(p)|, Top(StackOf(p)))
  {
    hide Flat, FlatItems, SizeItems, Render, RenderItems, HeadOf, LeadOf, Bump, TokensOf, TextOf, StackOf;
    var item := Item(node, []);
    var next := Append(p, item);
    var head, lead := HeadOf(p), LeadOf(p);
    var flat := FlatItems(p.items, |lead|, |head|, |head| - 1);
    var more := Flat(node, |lead| + |RenderItems(p.items)|, |head| + |flat|, |head| - 1);
    TopToken(p);
    SameLevel(p, item);
    Unfold(p);
    Unfold(next);
    HeadCounts(p, item);
    FlatAppend(p.items, item, |lead|, |head|, |head| - 1);
    assert HeadOf(next) + (flat + more) == (HeadOf(next) + flat) + more;
  }

  lemma Unfold(p: Partial)
    ensures |TextOf(p)| == |LeadOf(p)| + |RenderItems(p.items)|
    ensures TokensOf(p) == HeadOf(p) + FlatItems(p.items, |LeadOf(p)|, |HeadOf(p)|, |HeadOf(p)| - 1)
  {
    hide FlatItems, RenderItems, HeadOf, LeadOf;
  }

  lemma SameLevel(p: Partial, item: Item)
    ensures LeadOf(Append(p, item)) == LeadOf(p) && StackOf(Append(p, item)) == StackOf(p)
  {
  }

  lemma HeadCounts(p: Partial, item: Item)
    ensures |HeadOf(Append(p, item))| == |HeadOf(p)|
    ensures HeadOf(Append(p, item)) + FlatItems(p.items, |LeadOf(p)|, |HeadOf(p)|, |HeadOf(p)| - 1)
            == Bump(TokensOf(p), StackOf(p))
  {
    hide FlatItems, RenderItems;
    var flat := FlatItems(p.items, |LeadOf(p)|, |HeadOf(p)|, |HeadOf(p)| - 1);
    if p.Within? {
      AppendCounts(Bump(TokensOf(p.outer), StackOf(p.outer)),
                   Token(p.kind, |TextOf(p.outer)|, -1, Top(StackOf(p.outer)), |p.items|), flat, StackOf(p));
    }
  }

  lemma AppendCounts(before: seq<Token>, token: Token, flat: seq<Token>, stack: seq<nat>)
    requires Top(stack) == |before|
    ensures Bump(before + [token] + flat, stack) == before + [token.(children := token.children + 1)] + flat
  {
  }

  lemma AppendValid(p: Partial, node: Node)
    requires ValidPartial(p) && ValidNode(node) && DepthAtMost(node, MAX_DEPTH - |StackOf(p)|)
    requires p.Outermost? ==> p.items == []
    requires p.items != [] ==> Separated(p.items[|p.items| - 1], false)
    ensures ValidPartial(Append(p, Item(node, [])))
  {
    hide ValidNode, DepthAtMost, StackOf, ValidItems;
    SameLevel(p, Item(node, []));
    ValidItemsAppend(p.items, MAX_DEPTH - |StackOf(p)|, node);
  }

  lemma ValidItemsAppend(items: seq<Item>, bound: int, node: Node)
    requires ValidItems(items, bound) && ValidNode(node) && DepthAtMost(node, bound)
    requires items != [] ==> Separated(items[|items| - 1], false)
    ensures ValidItems(items + [Item(node, [])], bound)
  {
    hide ValidNode, DepthAtMost;
    var next := items + [Item(node, [])];
    forall i | 0 <= i < |next|
      ensures Separated(next[i], i == |next| - 1)
    {
      if i < |items| { assert Separated(items[i], i == |items| - 1); }
    }
  }

  /** A node that the scan added to the innermost level. */
  lemma AppendNode(doc: Text, st: State, p: Partial, node: Node)
    requires Reads(doc, st, p) && OccursAt(doc, st.pos, Render(node))
    requires ValidNode(node) && DepthAtMost(node, MAX_DEPTH - |st.stack|)
    requires p.Outermost? ==> p.items == []
    requires p.items != [] ==> Separated(p.items[|p.items| - 1], false)
    requires node.Prim? ==> Delimited(doc, st.pos + |Render(node)|)
    ensures Reads(doc, After(st, node), Append(p, Item(node, [])))
  {
    hide TokensOf, StackOf, TextOf, Render, ValidPartial, Flat, Bump;
    AppendText(p, node);
    AppendTokens(p, node);
    AppendValid(p, node);
    assert doc[..st.pos + |Render(node)|] == doc[..st.pos] + doc[st.pos..st.pos + |Render(node)|];
  }

  // ----- skipped bytes go behind the last value

  function Skip(p: Partial, c: Byte): Partial {
    if p.items == [] then p.(lead := p.lead + [c])
    else
      var last := |p.items| - 1;
      p.(items := p.items[..last] + [p.items[last].(trail := p.items[last].trail + [c])])
  }

  lemma SkipItems(front: seq<Item>, item: Item, c: Byte, pos: nat, index: nat, parent: int)
    ensures var longer := item.(trail := item.trail + [c]);
            RenderItems(front + [longer]) == RenderItems(front + [item]) + [c]
            && FlatItems(front + [longer], pos, index, parent) == FlatItems(front + [item], pos, index, parent)
  {
    hide Render, Flat, RenderItems, FlatItems;
    var longer := item.(trail := item.trail + [c]);
    RenderAppend(front, item);
    RenderAppend(front, longer);
    assert RenderItem(longer) == RenderItem(item) + [c];
    FlatAppend(front, item, pos, index, parent);
    FlatAppend(front, longer, pos, index, parent);
  }

  lemma SkipReads(p: Partial, c: Byte)
    ensures TextOf(Skip(p, c)) == TextOf(p) + [c]
    ensures StackOf(Skip(p, c)) == StackOf(p)
    ensures TokensOf(Skip(p, c)) == TokensOf(p)
  {
    hide Render, Flat, Bump, RenderItems, FlatItems;
    var next := Skip(p, c);
    if p.items != [] {
      SkipBehindItem(p, c);
    } else {
      JsonComplete.NoItems(|LeadOf(p)|, |HeadOf(p)|, |HeadOf(p)| - 1);
      JsonComplete.NoItems(|LeadOf(next)|, |HeadOf(p)|, |HeadOf(p)| - 1);
      assert LeadOf(next) == LeadOf(p) + [c] && HeadOf(next) == HeadOf(p);
    }
  }

  lemma SkipKeepsHead(p: Partial, c: Byte)
    requires p.items != []
    ensures LeadOf(Skip(p, c)) == LeadOf(p) && HeadOf(Skip(p, c)) == HeadOf(p)
  {
    hide TokensOf, TextOf, StackOf, Bump;
  }

  lemma SkipBehindItem(p: Partial, c: Byte)
    requires p.items != []
    ensures TextOf(Skip(p, c)) == TextOf(p) + [c] && TokensOf(Skip(p, c)) == TokensOf(p)
  {
    hide LeadOf, HeadOf, RenderItems, FlatItems;
    var last := |p.items| - 1;
    var front, item := p.items[..last], p.items[last];
    assert p.items == front + [item];
    SkipKeepsHead(p, c);
    SkipItems(front, item, c, |LeadOf(p)|, |HeadOf(p)|, |HeadOf(p)| - 1);
  }

  lemma SkipValid(p: Partial, c: Byte)
    requires ValidPartial(p) && IsSkipped(c)
    requires p.items != [] && p.items[|p.items| - 1].node.Prim? && p.items[|p.items| - 1].trail == [] ==> c != ':'
    ensures ValidPartial(Skip(p, c))
  {
    hide ValidNode, DepthAtMost, TokensOf, StackOf, TextOf, ValidItems;
    SkipReads(p, c);
    if p.items == [] {
      NoItems(MAX_DEPTH - |StackOf(p)|);
    } else {
      ValidItemsSkip(p.items, MAX_DEPTH - |StackOf(p)|, c);
    }
  }

  lemma NoItems(bound: int)
    ensures ValidItems([], bound)
  {
  }

  lemma ValidItemsSkip(items: seq<Item>, bound: int, c: Byte)
    requires ValidItems(items, bound) && items != [] && IsSkipped(c)
    requires items[|items| - 1].node.Prim? && items[|items| - 1].trail == [] ==> c != ':'
    ensures var last := |items| - 1;
            ValidItems(items[..last] + [items[last].(trail := items[last].trail + [c])], bound)
  {
    hide ValidNode, DepthAtMost;
    var last := |items| - 1;
    var next := items[..last] + [items[last].(trail := items[last].trail + [c])];
    forall i | 0 <= i < |next|
      ensures ValidNode(next[i].node) && DepthAtMost(next[i].node, bound)
      ensures AllSkipped(next[i].trail) && Separated(next[i], i == |next| - 1)
    {
      assert Separated(items[i], i == |items| - 1);
    }
  }

  lemma SkipStep(doc: Text, st: State, p: Partial)
    requires Reads(doc, st, p) && st.pos < |doc| && IsSkipped(doc[st.pos])
    ensures Reads(doc, st.(pos := st.pos + 1), Skip(p, doc[st.pos]))
  {
    hide TokensOf, StackOf, TextOf, ValidPartial;
    SkipReads(p, doc[st.pos]);
    SkipValid(p, doc[st.pos]);
    assert doc[..st.pos + 1] == doc[..st.pos] + [doc[st.pos]];
  }

  // ----- what one string or primitive read

  lemma {:induction false} BodyOfString(doc: Text, pos: nat)
    requires pos <= |doc| && StringEnd(doc, pos).Some?
    ensures IsBody(doc[pos..StringEnd(doc, pos).value])
    decreases |doc| - pos
  {
    var end := StringEnd(doc, pos).value;
    var raw := doc[pos..end];
    if doc[pos] != '"' {
      var n := if doc[pos] != '\\' then 1 else if IsSimpleEscape(doc[pos + 1]) then 2 else 6;
      BodyOfString(doc, pos + n);
      assert raw[n..] == doc[pos + n..end];
    }
  }

  lemma {:induction false} TextOfPrimitive(doc: Text, pos: nat)
    requires pos <= |doc| && PrimitiveEnd(doc, pos).Some?
    ensures var end := PrimitiveEnd(doc, pos).value;
            Delimited(doc, end) && forall i :: pos <= i < end ==> IsPrimitiveByte(doc[i])
    decreases |doc| - pos
  {
    if pos < |doc| && !IsDelimiter(doc[pos]) { TextOfPrimitive(doc, pos + 1); }
  }

  /** In the middle of a text a primitive needs a delimiter behind it, and got one. */
  lemma Ready(doc: Text, st: State, p: Partial)
    requires Reads(doc, st, p) && st.pos < |doc| && !IsDelimiter(doc[st.pos])
    requires st.stack != [] || st.tokens == []
    ensures p.Outermost? ==> p.items == []
    ensures p.items != [] ==> Separated(p.items[|p.items| - 1], false)
  {
    if p.items != [] { assert Separated(p.items[|p.items| - 1], true); }
  }

  lemma QuotedText(doc: Text, pos: nat, end: nat)
    requires pos < end < |doc| && doc[pos] == '"' && doc[end] == '"'
    ensures doc[pos..end + 1] == Render(Str(doc[pos + 1..end]))
  {
    assert doc[pos..end + 1] == [doc[pos]] + doc[pos + 1..end] + [doc[end]];
  }

  lemma StepReadsString(doc: Text, cap: nat, st: State)
    requires ValidState(st) && st.pos < |doc| && doc[st.pos] == '"' && Step(doc, cap, st).Some?
    ensures StringEnd(doc, st.pos + 1).Some? && (st.stack != [] || st.tokens == [])
    ensures var end := StringEnd(doc, st.pos + 1).value;
            Step(doc, cap, st) == Some(After(st, Str(doc[st.pos + 1..end])))
  {
    hide Bump, PrimitiveEnd, StringEnd, Open, Close;
    if StringEnd(doc, st.pos + 1).Some? {
      QuotedText(doc, st.pos, StringEnd(doc, st.pos + 1).value);
    }
  }

  lemma StringStep(doc: Text, cap: nat, st: State, p: Partial) returns (node: Node)
    requires Reads(doc, st, p) && ValidState(st) && st.pos < |doc| && doc[st.pos] == '"'
    requires Step(doc, cap, st).Some?
    ensures Step(doc, cap, st) == Some(After(st, node))
    ensures Reads(doc, After(st, node), Append(p, Item(node, [])))
  {
    hide TokensOf, StackOf, TextOf, ValidPartial, Bump, Step, StringEnd, IsBody;
    StepReadsString(doc, cap, st);
    var end := StringEnd(doc, st.pos + 1).value;
    BodyOfString(doc, st.pos + 1);
    node := Str(doc[st.pos + 1..end]);
    QuotedText(doc, st.pos, end);
    Ready(doc, st, p);
    AppendNode(doc, st, p, node);
  }

  lemma PrimitiveStep(doc: Text, cap: nat, st: State, p: Partial) returns (node: Node)
    requires Reads(doc, st, p) && ValidState(st) && st.pos < |doc|
    requires !IsSkipped(doc[st.pos]) && doc[st.pos] !in "{}[]\""
    requires Step(doc, cap, st).Some?
    ensures Step(doc, cap, st) == Some(After(st, node))
    ensures Reads(doc, After(st, node), Append(p, Item(node, [])))
  {
    hide TokensOf, StackOf, TextOf, ValidPartial;
    var end := PrimitiveEnd(doc, st.pos).value;
    TextOfPrimitive(doc, st.pos);
    node := Prim(doc[st.pos..end]);
    Ready(doc, st, p);
    AppendNode(doc, st, p, node);
  }

  lemma OpenReads(p: Partial, kind: Kind)
    ensures TextOf(Within(p, kind, [], [])) == TextOf(p) + [OpenByte(kind)]
    ensures StackOf(Within(p, kind, [], [])) == StackOf(p) + [|TokensOf(p)|]
    ensures TokensOf(Within(p, kind, [], [])) ==
            Bump(TokensOf(p), StackOf(p)) + [Token(kind, |TextOf(p)|, -1, Top(StackOf(p)), 0)]
  {
  }

  lemma OpenStep(doc: Text, cap: nat, st: State, p: Partial, kind: Kind)
    requires Reads(doc, st, p) && ValidState(st) && st.pos < |doc| && doc[st.pos] == OpenByte(kind)
    requires (kind == Object || kind == Array) && Step(doc, cap, st).Some?
    ensures Reads(doc, Step(doc, cap, st).value, Within(p, kind, [], []))
  {
    hide TokensOf, StackOf, TextOf, Bump;
    OpenReads(p, kind);
    Ready(doc, st, p);
    assert doc[..st.pos + 1] == doc[..st.pos] + [doc[st.pos]];
  }

  // ----- closing a container

  lemma CloseStep(doc: Text, cap: nat, st: State, p: Partial)
    requires Reads(doc, st, p) && ValidState(st) && st.pos < |doc| && doc[st.pos] in "}]"
    requires Step(doc, cap, st).Some?
    ensures p.Within?
    ensures Reads(doc, Step(doc, cap, st).value, Append(p.outer, Item(Group(p.kind, p.lead, p.items), [])))
  {
    hide TextOf, ValidPartial, FlatItems, Bump;
    TopToken(p);
    assert doc[st.pos] == CloseByte(p.kind);
    var node := Group(p.kind, p.lead, p.items);
    ClosedState(doc, cap, st, p);
    ClosedText(doc, st, p);
    ClosedNode(p);
    ClosedOuter(p);
    AppendText(p.outer, node);
    AppendTokens(p.outer, node);
    AppendValid(p.outer, node);
  }

  lemma TopToken(p: Partial)
    ensures p.Outermost? <==> StackOf(p) == []
    ensures Top(StackOf(p)) == |HeadOf(p)| - 1 < |TokensOf(p)|
    ensures p.Within? ==> TokensOf(p)[|HeadOf(p)| - 1] == HeadOf(p)[|HeadOf(p)| - 1]
  {
  }

  lemma ClosedOuter(p: Partial)
    requires ValidPartial(p) && p.Within?
    ensures ValidPartial(p.outer)
    ensures p.outer.Outermost? ==> p.outer.items == []
    ensures p.outer.items != [] ==> Separated(p.outer.items[|p.outer.items| - 1], false)
  {
  }

  /** The state behind the closing byte. */
  lemma ClosedState(doc: Text, cap: nat, st: State, p: Partial)
    requires p.Within? && Content(doc, st, p) && ValidState(st) && st.pos < |doc|
    requires p.kind == Object || p.kind == Array
    requires doc[st.pos] == CloseByte(p.kind) && Step(doc, cap, st).Some?
    ensures p.kind == Object ==> |p.items| % 2 == 0
    ensures var node, outer := Group(p.kind, p.lead, p.items), p.outer;
            Step(doc, cap, st) == Some(State(
              st.pos + 1,
              Bump(TokensOf(outer), StackOf(outer)) + Flat(node, |TextOf(outer)|, |TokensOf(outer)|, Top(StackOf(outer))),
              StackOf(outer)))
  {
    hide FlatItems, Bump, StringEnd, PrimitiveEnd, TokensOf, StackOf, TextOf;
    var outer := p.outer;
    var before := Bump(TokensOf(outer), StackOf(outer));
    var token := OpenTokenOf(p);
    var flat := FlatItems(p.items, |TextOf(outer)| + 1 + |p.lead|, |TokensOf(outer)| + 1, |TokensOf(outer)|);
    TokensWithin(p);
    assert st.tokens == before + [token] + [] + flat;
    assert st.tokens[|before|] == token;
    CloseGroup(doc, cap, st, before, token, flat);
    assert st.stack[..|st.stack| - 1] == StackOf(outer);
    ClosedText(doc, st, p);
  }

  function OpenTokenOf(p: Partial): Token
    requires p.Within?
  {
    Token(p.kind, |TextOf(p.outer)|, -1, Top(StackOf(p.outer)), |p.items|)
  }

  lemma TokensWithin(p: Partial)
    requires p.Within?
    ensures StackOf(p) == StackOf(p.outer) + [|TokensOf(p.outer)|]
    ensures TokensOf(p) ==
            Bump(TokensOf(p.outer), StackOf(p.outer)) + [OpenTokenOf(p)]
            + FlatItems(p.items, |TextOf(p.outer)| + 1 + |p.lead|, |TokensOf(p.outer)| + 1, |TokensOf(p.outer)|)
  {
    hide FlatItems, Bump;
  }

  lemma ClosedText(doc: Text, st: State, p: Partial)
    requires p.Within? && st.pos < |doc| && doc[..st.pos] == TextOf(p) && doc[st.pos] == CloseByte(p.kind)
    ensures doc[..st.pos + 1] == TextOf(p.outer) + Render(Group(p.kind, p.lead, p.items))
    ensures st.pos + 1 == |TextOf(p.outer)| + |Render(Group(p.kind, p.lead, p.items))|
  {
    hide RenderItems;
    assert doc[..st.pos + 1] == doc[..st.pos] + [doc[st.pos]];
    assert Render(Group(p.kind, p.lead, p.items))
        == [OpenByte(p.kind)] + p.lead + RenderItems(p.items) + [CloseByte(p.kind)];
  }

  lemma ClosedNode(p: Partial)
    requires ValidPartial(p) && p.Within? && (p.kind == Object ==> |p.items| % 2 == 0)
    requires |StackOf(p)| <= MAX_DEPTH
    ensures var node := Group(p.kind, p.lead, p.items);
            ValidNode(node) && DepthAtMost(node, MAX_DEPTH - |StackOf(p.outer)|)
  {
    hide TokensOf;
    var bound := MAX_DEPTH - |StackOf(p)|;
    assert ValidItems(p.items, bound);
    forall i | 0 <= i < |p.items|
      ensures ValidItem(p.items[i], i == |p.items| - 1) && DepthAtMost(p.items[i].node, bound)
    {
    }
    assert MAX_DEPTH - |StackOf(p.outer)| == bound + 1;
  }

  // ----- whole scans

  lemma ReadStep(doc: Text, cap: nat, st: State, p: Partial) returns (next: Partial)
    requires Reads(doc, st, p) && ValidState(st) && st.pos < |doc| && |st.tokens| <= cap
    requires Step(doc, cap, st).Some?
    ensures Reads(doc, Step(doc, cap, st).value, next) && |Step(doc, cap, st).value.tokens| <= cap
  {
    hide TokensOf, StackOf, TextOf, ValidPartial, StringEnd, PrimitiveEnd;
    var c := doc[st.pos];
    if IsSkipped(c) {
      SkipStep(doc, st, p);
      next := Skip(p, c);
    } else if c == '{' || c == '[' {
      var kind := if c == '{' then Object else Array;
      OpenStep(doc, cap, st, p, kind);
      next := Within(p, kind, [], []);
    } else if c == '}' || c == ']' {
      CloseStep(doc, cap, st, p);
      next := Append(p.outer, Item(Group(p.kind, p.lead, p.items), []));
    } else {
      var node: Node;
      if c == '"' { node := StringStep(doc, cap, st, p); } else { node := PrimitiveStep(doc, cap, st, p); }
      next := Append(p, Item(node, []));
    }
  }

  lemma OneValue(p: Partial)
    requires p.Outermost? && |p.items| == 1
    ensures TextOf(p) == RenderDocument(Document(p.lead, p.items[0]))
    ensures TokensOf(p) == FlatDocument(Document(p.lead, p.items[0]))
  {
    hide Render, Flat;
    assert p.items == [] + [p.items[0]];
    RenderAppend([], p.items[0]);
    FlatAppend([], p.items[0], |p.lead|, 0, -1);
  }

  lemma {:induction false} ReadRun(doc: Text, cap: nat, st: State, p: Partial) returns (d: Document)
    requires Reads(doc, st, p) && ValidState(st) && |st.tokens| <= cap
    requires Run(doc, cap, st).Some?
    ensures ValidDocument(d) && RenderDocument(d) == doc
    ensures Run(doc, cap, st) == Some(FlatDocument(d))
    ensures DepthAtMost(d.root.node, MAX_DEPTH) && Size(d.root.node) <= cap
    decreases |doc| - st.pos
  {
    if st.pos == |doc| {
      TopToken(p);
      assert p.items == [] ==> TokensOf(p) == [];
      d := Document(p.lead, p.items[0]);
      OneValue(p);
      assert doc[..|doc|] == doc;
      assert Separated(p.items[0], true);
    } else {
      var next := ReadStep(doc, cap, st, p);
      d := ReadRun(doc, cap, Step(doc, cap, st).value, next);
    }
  }

  /** The tree of an accepted text. */
  lemma ParsedDocument(doc: Text, cap: nat) returns (d: Document)
    requires Parse(doc, cap).Some?
    ensures ValidDocument(d) && Fits(d, cap) && RenderDocument(d) == doc
    ensures Parse(doc, cap) == Some(FlatDocument(d))
  {
    assert doc[..0] == [] + [];
    assert Reads(doc, INITIAL, Outermost([], []));
    d := ReadRun(doc, cap, INITIAL, Outermost([], []));
  }

  ghost predicate Represents(d: Document, doc: Text, cap: nat, tokens: seq<Token>) {
    ValidDocument(d) && Fits(d, cap) && RenderDocument(d) == doc && FlatDocument(d) == tokens
  }

  /**
   The tokenizer decides the grammar: it accepts a text exactly when the text is
   that of a tree within the limits, and then writes the tokens of that tree.
   */
  lemma ParseDecides(doc: Text, cap: nat, tokens: seq<Token>)
    ensures Parse(doc, cap) == Some(tokens) <==> exists d: Document :: Represents(d, doc, cap, tokens)
  {
    if Parse(doc, cap) == Some(tokens) {
      var d := ParsedDocument(doc, cap);
      assert Represents(d, doc, cap, tokens);
    }
    forall d: Document | Represents(d, doc, cap, tokens)
      ensures Parse(doc, cap) == Some(tokens)
    {
      ParseRendered(d, cap);
    }
  }
}
