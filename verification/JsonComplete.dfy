/** The tokenizer reads every text of the grammar, and writes exactly its tokens. */
module JsonComplete {
  import opened Common
  import opened JsonScan
  import opened JsonGrammar

  lemma {:induction false} StringEndOfBody(doc: Text, pos: nat, raw: Text)
    requires IsBody(raw) && OccursAt(doc, pos, raw + "\"")
    ensures StringEnd(doc, pos) == Some(pos + |raw|)
    decreases |raw|
  {
    var slice := doc[pos..pos + |raw| + 1];
    assert forall i :: 0 <= i <= |raw| ==> slice[i] == (raw + "\"")[i];
    if raw != [] {
      var n := if raw[0] != '\\' then 1 else if IsSimpleEscape(raw[1]) then 2 else 6;
      assert raw == raw[..n] + raw[n..];
      assert raw + "\"" == raw[..n] + (raw[n..] + "\"");
      OccursSplit(doc, pos, raw[..n], raw[n..] + "\"");
      StringEndOfBody(doc, pos + n, raw[n..]);
    }
  }

  /** What may follow a primitive: a delimiter, or the end of the text. */
  predicate Delimited(doc: Text, pos: nat) {
    pos >= |doc| || IsDelimiter(doc[pos])
  }

  lemma {:induction false} PrimitiveEndOfText(doc: Text, pos: nat, text: Text)
    requires forall i :: 0 <= i < |text| ==> IsPrimitiveByte(text[i])
    requires OccursAt(doc, pos, text) && Delimited(doc, pos + |text|)
    ensures PrimitiveEnd(doc, pos) == Some(pos + |text|)
    decreases |text|
  {
    if text != [] {
      assert doc[pos] == doc[pos..pos + |text|][0];
      assert text == text[..1] + text[1..];
      OccursSplit(doc, pos, text[..1], text[1..]);
      PrimitiveEndOfText(doc, pos + 1, text[1..]);
    }
  }

  lemma {:induction false} RunSkips(doc: Text, cap: nat, st: State, text: Text)
    requires ValidState(st) && AllSkipped(text) && OccursAt(doc, st.pos, text)
    ensures Run(doc, cap, st) == Run(doc, cap, st.(pos := st.pos + |text|))
    decreases |text|
  {
    hide Run, Step;
    if text != [] {
      assert doc[st.pos] == doc[st.pos..st.pos + |text|][0];
      assert text == text[..1] + text[1..];
      OccursSplit(doc, st.pos, text[..1], text[1..]);
      StepSkip(doc, cap, st);
      RunStep(doc, cap, st, st.(pos := st.pos + 1));
      RunSkips(doc, cap, st.(pos := st.pos + 1), text[1..]);
    } else {
      assert st.(pos := st.pos + |text|) == st;
    }
  }

  lemma StepSkip(doc: Text, cap: nat, st: State)
    requires ValidState(st) && st.pos < |doc| && IsSkipped(doc[st.pos])
    ensures Step(doc, cap, st) == Some(st.(pos := st.pos + 1))
  {
  }

  /** The state the tokenizer is in once it has read `n`. */
  function After(st: State, n: Node): State {
    State(st.pos + |Render(n)|,
          Bump(st.tokens, st.stack) + Flat(n, st.pos, |st.tokens|, Top(st.stack)),
          st.stack)
  }

  lemma RunStep(doc: Text, cap: nat, st: State, next: State)
    requires ValidState(st) && st.pos < |doc| && Step(doc, cap, st) == Some(next)
    ensures ValidState(next) && next.pos <= |doc| && Run(doc, cap, st) == Run(doc, cap, next)
  {
  }

  lemma StepPrimitive(doc: Text, cap: nat, st: State, n: Node)
    requires ValidState(st) && n.Prim? && ValidNode(n) && OccursAt(doc, st.pos, n.text)
    requires st.stack != [] || st.tokens == []
    requires |st.tokens| < cap && Delimited(doc, st.pos + |n.text|)
    ensures Step(doc, cap, st) == Some(After(st, n))
  {
    assert doc[st.pos] == doc[st.pos..st.pos + |n.text|][0];
    PrimitiveEndOfText(doc, st.pos, n.text);
  }

  lemma StepString(doc: Text, cap: nat, st: State, n: Node)
    requires ValidState(st) && n.Str? && ValidNode(n) && OccursAt(doc, st.pos, Render(n))
    requires st.stack != [] || st.tokens == []
    requires |st.tokens| < cap
    ensures Step(doc, cap, st) == Some(After(st, n))
  {
    assert Render(n) == "\"" + (n.raw + "\"");
    assert doc[st.pos] == doc[st.pos..st.pos + |Render(n)|][0];
    OccursSplit(doc, st.pos, "\"", n.raw + "\"");
    StringEndOfBody(doc, st.pos + 1, n.raw);
  }

  lemma {:induction false} RunNode(doc: Text, cap: nat, st: State, n: Node)
    requires ValidState(st) && ValidNode(n) && OccursAt(doc, st.pos, Render(n))
    requires st.stack != [] || st.tokens == []
    requires |st.tokens| + Size(n) <= cap && DepthAtMost(n, MAX_DEPTH - |st.stack|)
    requires n.Prim? ==> Delimited(doc, st.pos + |Render(n)|)
    ensures ValidState(After(st, n)) && Run(doc, cap, st) == Run(doc, cap, After(st, n))
    decreases n, 0
  {
    hide Run, Step, Flat, FlatItems, RenderItems, OccursAt, Bump;
    match n
    case Prim(_) =>
      StepPrimitive(doc, cap, st, n);
      RunStep(doc, cap, st, After(st, n));
    case Str(_) =>
      StepString(doc, cap, st, n);
      RunStep(doc, cap, st, After(st, n));
    case Group(_, _, items) =>
      var entered := Entered(st, n);
      OccursGroup(doc, st.pos, n);
      StepOpen(doc, cap, st, n);
      RunStep(doc, cap, st, entered);
      RunSkips(doc, cap, entered, n.lead);
      var outer, token, stack := Bump(st.tokens, st.stack), OpenToken(st, n), entered.stack;
      var start := st.pos + 1 + |n.lead|;
      assert entered.tokens == outer + [token] + [];
      RunItems(doc, cap, start, outer, token, [], stack, items);
      RunClose(doc, cap, st, n);
  }

  function OpenToken(st: State, n: Node): Token
    requires n.Group?
  {
    Token(n.kind, st.pos, -1, Top(st.stack), 0)
  }

  /** The state right behind the opening byte of `n`. */
  function Entered(st: State, n: Node): State
    requires n.Group?
  {
    State(st.pos + 1, Bump(st.tokens, st.stack) + [OpenToken(st, n)], st.stack + [|st.tokens|])
  }

  lemma OccursGroup(doc: Text, pos: nat, n: Node)
    requires n.Group? && OccursAt(doc, pos, Render(n))
    ensures pos + |Render(n)| == pos + 1 + |n.lead| + |RenderItems(n.items)| + 1 <= |doc|
    ensures doc[pos] == OpenByte(n.kind)
    ensures OccursAt(doc, pos + 1, n.lead)
    ensures OccursAt(doc, pos + 1 + |n.lead|, RenderItems(n.items))
    ensures doc[pos + |Render(n)| - 1] == CloseByte(n.kind)
  {
    var open, body, close := [OpenByte(n.kind)], RenderItems(n.items), [CloseByte(n.kind)];
    assert Render(n) == open + (n.lead + (body + close));
    OccursSplit(doc, pos, open, n.lead + (body + close));
    OccursSplit(doc, pos + 1, n.lead, body + close);
    OccursSplit(doc, pos + 1 + |n.lead|, body, close);
    assert doc[pos] == doc[pos..pos + 1][0];
    var at := pos + 1 + |n.lead| + |body|;
    assert doc[at] == doc[at..at + 1][0];
  }

  lemma StepOpen(doc: Text, cap: nat, st: State, n: Node)
    requires ValidState(st) && n.Group? && (n.kind == Object || n.kind == Array)
    requires st.pos < |doc| && doc[st.pos] == OpenByte(n.kind)
    requires st.stack != [] || st.tokens == []
    requires |st.tokens| < cap && |st.stack| < MAX_DEPTH
    ensures ValidState(Entered(st, n)) && Step(doc, cap, st) == Some(Entered(st, n))
  {
  }

  /** The closing byte of `n`, once all its values are read. */
  lemma RunClose(doc: Text, cap: nat, st: State, n: Node)
    requires ValidState(st) && ValidState(After(st, n)) && n.Group? && ValidNode(n)
    requires st.pos + |Render(n)| <= |doc| && doc[st.pos + |Render(n)| - 1] == CloseByte(n.kind)
    requires |Render(n)| == 1 + |n.lead| + |RenderItems(n.items)| + 1
    ensures var outer := Bump(st.tokens, st.stack);
            var flat := FlatItems(n.items, st.pos + 1 + |n.lead|, |outer| + 1, |outer|);
            var before := State(st.pos + |Render(n)| - 1,
                                outer + [OpenToken(st, n).(children := |n.items|)] + [] + flat,
                                st.stack + [|outer|]);
            ValidState(before) && Run(doc, cap, before) == Run(doc, cap, After(st, n))
  {
    var outer := Bump(st.tokens, st.stack);
    var flat := FlatItems(n.items, st.pos + 1 + |n.lead|, |outer| + 1, |outer|);
    var token := OpenToken(st, n).(children := |n.items|);
    var before := State(st.pos + |Render(n)| - 1, outer + [token] + [] + flat, st.stack + [|outer|]);
    CloseGroup(doc, cap, before, outer, token, flat);
    assert before.stack[..|before.stack| - 1] == st.stack;
    RunStep(doc, cap, before, After(st, n));
  }

  lemma CloseGroup(doc: Text, cap: nat, st: State, outer: seq<Token>, token: Token, flat: seq<Token>)
    requires ValidState(st) && st.tokens == outer + [token] + [] + flat
    requires st.stack != [] && Top(st.stack) == |outer|
    requires st.pos < |doc| && (token.kind == Object || token.kind == Array)
    requires doc[st.pos] == CloseByte(token.kind) && (token.kind == Object ==> token.children % 2 == 0)
    ensures Step(doc, cap, st) ==
            Some(State(st.pos + 1, outer + ([token.(end := st.pos + 1)] + flat), st.stack[..|st.stack| - 1]))
  {
    assert st.tokens[|outer|] == token;
    assert st.tokens[|outer| := token.(end := st.pos + 1)] == outer + ([token.(end := st.pos + 1)] + flat);
  }

  lemma NoItems(pos: nat, index: nat, parent: int)
    ensures RenderItems([]) == [] && FlatItems([], pos, index, parent) == []
  {
  }

  /** Reading the values of a container whose token `token` already has some children counted. */
  lemma {:induction false} RunItems(doc: Text, cap: nat, pos: nat, outer: seq<Token>, token: Token,
                                    done: seq<Token>, stack: seq<nat>, items: seq<Item>)
    requires ValidState(State(pos, outer + [token] + done, stack))
    requires stack != [] && Top(stack) == |outer|
    requires forall i :: 0 <= i < |items| ==> ValidItem(items[i], i == |items| - 1)
    requires forall i :: 0 <= i < |items| ==> DepthAtMost(items[i].node, MAX_DEPTH - |stack|)
    requires |outer| + 1 + |done| + SizeItems(items) <= cap
    requires OccursAt(doc, pos, RenderItems(items)) && Delimited(doc, pos + |RenderItems(items)|)
    ensures Run(doc, cap, State(pos, outer + [token] + done, stack)) ==
            Run(doc, cap, State(pos + |RenderItems(items)|,
                                outer + [token.(children := token.children + |items|)] + done
                                + FlatItems(items, pos, |outer| + 1 + |done|, |outer|),
                                stack))
    decreases items, 2
  {
    hide Run, Step, RenderItems, FlatItems, SizeItems, Flat, Size, Render, ValidNode, DepthAtMost, OccursAt, Delimited;
    if items == [] {
      NoItems(pos, |outer| + 1 + |done|, |outer|);
      assert outer + [token] + done + [] == outer + [token] + done;
    } else {
      var item, rest := items[0], items[1..];
      assert forall i :: 0 <= i < |rest| ==> rest[i] == items[i + 1];
      Unfolded(items, pos, |outer| + 1 + |done|, |outer|);
      OccursSplit(doc, pos, RenderItem(item), RenderItems(rest));
      FollowedByDelimiter(doc, pos, items);
      RunItem(doc, cap, pos, outer, token, done, stack, item);
      var flat := Flat(item.node, pos, |outer| + 1 + |done|, |outer|);
      var counted := token.(children := token.children + 1);
      var next := pos + |RenderItem(item)|;
      RunItems(doc, cap, next, outer, counted, done + flat, stack, rest);
      Regroup(outer, counted.(children := token.children + |items|), done, flat,
              FlatItems(rest, next, |outer| + 1 + |done + flat|, |outer|));
    }
  }

  lemma {:induction false} RunItem(doc: Text, cap: nat, pos: nat, outer: seq<Token>, token: Token,
                                   done: seq<Token>, stack: seq<nat>, item: Item)
    requires ValidState(State(pos, outer + [token] + done, stack))
    requires stack != [] && Top(stack) == |outer|
    requires ValidNode(item.node) && AllSkipped(item.trail)
    requires DepthAtMost(item.node, MAX_DEPTH - |stack|)
    requires |outer| + 1 + |done| + Size(item.node) <= cap
    requires OccursAt(doc, pos, RenderItem(item))
    requires item.node.Prim? ==> Delimited(doc, pos + |Render(item.node)|)
    ensures var next := State(pos + |RenderItem(item)|,
                              outer + [token.(children := token.children + 1)]
                              + (done + Flat(item.node, pos, |outer| + 1 + |done|, |outer|)),
                              stack);
            ValidState(next) && Run(doc, cap, State(pos, outer + [token] + done, stack)) == Run(doc, cap, next)
    decreases item, 1
  {
    hide Run, Step;
    var st := State(pos, outer + [token] + done, stack);
    OccursSplit(doc, pos, Render(item.node), item.trail);
    RunNode(doc, cap, st, item.node);
    RunSkips(doc, cap, After(st, item.node), item.trail);
    AfterItem(pos, outer, token, done, stack, item);
  }

  lemma AfterItem(pos: nat, outer: seq<Token>, token: Token, done: seq<Token>, stack: seq<nat>, item: Item)
    requires stack != [] && Top(stack) == |outer|
    ensures var flat := Flat(item.node, pos, |outer| + 1 + |done|, |outer|);
            After(State(pos, outer + [token] + done, stack), item.node).tokens
            == outer + [token.(children := token.children + 1)] + (done + flat)
  {
    var counted := token.(children := token.children + 1);
    assert Bump(outer + [token] + done, stack) == outer + [counted] + done;
  }

  lemma Regroup(outer: seq<Token>, token: Token, done: seq<Token>, flat: seq<Token>, more: seq<Token>)
    ensures outer + [token] + (done + flat) + more == outer + [token] + done + (flat + more)
  {
  }

  lemma FollowedByDelimiter(doc: Text, pos: nat, items: seq<Item>)
    requires items != [] && ValidItem(items[0], |items| == 1)
    requires OccursAt(doc, pos, RenderItems(items)) && Delimited(doc, pos + |RenderItems(items)|)
    ensures items[0].node.Prim? ==> Delimited(doc, pos + |Render(items[0].node)|)
  {
    var item := items[0];
    OccursSplit(doc, pos, RenderItem(item), RenderItems(items[1..]));
    OccursSplit(doc, pos, Render(item.node), item.trail);
    if item.node.Prim? && item.trail != [] {
      var at := pos + |Render(item.node)|;
      assert doc[at] == doc[at..at + |item.trail|][0];
    }
  }

  /** Every text of the grammar within the limits is tokenized to its own tree. */
  lemma ParseRendered(d: Document, cap: nat)
    requires ValidDocument(d) && Fits(d, cap)
    ensures Parse(RenderDocument(d), cap) == Some(FlatDocument(d))
  {
    hide Step;
    var doc, n, trail := RenderDocument(d), d.root.node, d.root.trail;
    assert doc == d.lead + (Render(n) + trail);
    assert OccursAt(doc, 0, doc);
    OccursSplit(doc, 0, d.lead, Render(n) + trail);
    OccursSplit(doc, |d.lead|, Render(n), trail);
    RunSkips(doc, cap, INITIAL, d.lead);
    var st := State(|d.lead|, [], []);
    if n.Prim? && trail != [] {
      var at := |d.lead| + |Render(n)|;
      assert doc[at] == doc[at..at + |trail|][0];
    }
    RunNode(doc, cap, st, n);
    assert After(st, n).tokens == FlatDocument(d);
    RunSkips(doc, cap, After(st, n), trail);
  }

  /** In particular every JSON text of RFC 8259 within the limits. */
  lemma ParseRfc(d: Document, cap: nat)
    requires AllSpace(d.lead) && AllSpace(d.root.trail) && IsRfc(d.root.node) && Fits(d, cap)
    ensures Parse(RenderDocument(d), cap) == Some(FlatDocument(d))
  {
    RfcIsValid(d.root.node);
    ParseRendered(d, cap);
  }
}
