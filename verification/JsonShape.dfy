/**
 What every accepted text guarantees about its token array, stated on the array
 alone: it is one tree in pre-order, and comparing a start with an end decides
 descent.
 */
module JsonShape {
  import opened Common
  import opened JsonScan
  import opened JsonGrammar
  import opened JsonLookup
  import opened JsonSound
  import opened JsonValues

  predicate Inside(child: Token, container: Token) {
    container.start < child.start && child.end < container.end
  }

  /** Token `k` of a block: its text lies in `lo..hi`, and it is below `parent` or below an earlier token. */
  predicate Nested(tokens: seq<Token>, k: nat, lo: int, hi: int, index: nat, parent: int)
    requires k < |tokens|
  {
    var t := tokens[k];
    && lo <= t.start < hi && t.start <= t.end <= hi
    && (t.parent == parent || (index <= t.parent < index + k && Inside(t, tokens[t.parent - index])))
  }

  predicate Ascending(tokens: seq<Token>) {
    forall j, k :: 0 <= j < k < |tokens| ==> tokens[j].start < tokens[k].start
  }

  /** Tokens numbered from `index`, in order of their texts. */
  predicate Block(tokens: seq<Token>, lo: int, hi: int, index: nat, parent: int) {
    Ascending(tokens) && forall k :: 0 <= k < |tokens| ==> Nested(tokens, k, lo, hi, index, parent)
  }

  lemma BlockAppend(a: seq<Token>, b: seq<Token>, lo: int, mid: int, hi: int, index: nat, parent: int)
    requires lo <= mid <= hi && Block(a, lo, mid, index, parent) && Block(b, mid, hi, index + |a|, parent)
    ensures Block(a + b, lo, hi, index, parent)
  {
    var c := a + b;
    forall k | 0 <= k < |c| ensures Nested(c, k, lo, hi, index, parent) {
      if k < |a| {
        assert Nested(a, k, lo, mid, index, parent) && c[k] == a[k];
      } else {
        assert Nested(b, k - |a|, mid, hi, index + |a|, parent) && c[k] == b[k - |a|];
      }
    }
    forall j, k | 0 <= j < k < |c| ensures c[j].start < c[k].start {
      if j < |a| <= k {
        assert Nested(a, j, lo, mid, index, parent) && Nested(b, k - |a|, mid, hi, index + |a|, parent);
      }
    }
  }

  /** Tokens that name their own block's first token, or a later one, as parent. */
  predicate Rooted(tokens: seq<Token>, index: nat, parent: int) {
    tokens != [] && tokens[0].parent == parent
    && forall k :: 0 < k < |tokens| ==> index <= tokens[k].parent < index + k
  }

  lemma BlockBelow(token: Token, inner: seq<Token>, index: nat)
    requires token.start < token.end && Block(inner, token.start + 1, token.end - 1, index + 1, index)
    ensures Block([token] + inner, token.start, token.end, index, token.parent)
    ensures Rooted([token] + inner, index, token.parent)
  {
    var c := [token] + inner;
    forall k | 0 < k < |c|
      ensures Nested(c, k, token.start, token.end, index, token.parent) && index <= c[k].parent < index + k
    {
      assert c[k] == inner[k - 1] && Nested(inner, k - 1, token.start + 1, token.end - 1, index + 1, index);
    }
    forall j, k | 0 <= j < k < |c| ensures c[j].start < c[k].start {
      assert Nested(inner, k - 1, token.start + 1, token.end - 1, index + 1, index);
    }
  }

  lemma BlockWider(tokens: seq<Token>, lo: int, hi: int, lo': int, hi': int, index: nat, parent: int)
    requires Block(tokens, lo, hi, index, parent) && lo' <= lo && hi <= hi'
    ensures Block(tokens, lo', hi', index, parent)
  {
    forall k | 0 <= k < |tokens| ensures Nested(tokens, k, lo', hi', index, parent) {
      assert Nested(tokens, k, lo, hi, index, parent);
    }
  }

  lemma {:induction false} FlatBlock(n: Node, pos: nat, index: nat, parent: int)
    requires ValidNode(n)
    ensures Block(Flat(n, pos, index, parent), pos, pos + |Render(n)|, index, parent)
    ensures Rooted(Flat(n, pos, index, parent), index, parent)
    decreases n, 0
  {
    if n.Group? {
      hide Block, FlatItems, RenderItems, Rooted, ValidNode;
      GroupItems(n);
      var start := pos + 1 + |n.lead|;
      FlatItemsBlock(n.items, start, index + 1, index);
      var inner := FlatItems(n.items, start, index + 1, index);
      var token := Token(n.kind, pos, pos + |Render(n)|, parent, |n.items|);
      BlockWider(inner, start, start + |RenderItems(n.items)|, pos + 1, token.end - 1, index + 1, index);
      BlockBelow(token, inner, index);
    } else {
      assert Nested(Flat(n, pos, index, parent), 0, pos, pos + |Render(n)|, index, parent);
    }
  }

  lemma {:induction false} FlatItemsBlock(items: seq<Item>, pos: nat, index: nat, parent: int)
    requires AllValid(items)
    ensures Block(FlatItems(items, pos, index, parent), pos, pos + |RenderItems(items)|, index, parent)
    decreases items, 2
  {
    hide Block, Rooted, Flat, Render, RenderItem, RenderItems, Size, ValidNode;
    if items == [] {
      EmptyBlock(pos, pos + |RenderItems(items)|, index, parent);
    } else {
      var item, rest := items[0], items[1..];
      Unfolded(items, pos, index, parent);
      var next := pos + |RenderItem(item)|;
      FlatBlock(item.node, pos, index, parent);
      FlatItemsBlock(rest, next, index + Size(item.node), parent);
      BlockWider(Flat(item.node, pos, index, parent), pos, pos + |Render(item.node)|, pos, next, index, parent);
      BlockAppend(Flat(item.node, pos, index, parent), FlatItems(rest, next, index + Size(item.node), parent),
                  pos, next, next + |RenderItems(rest)|, index, parent);
    }
  }

  lemma EmptyBlock(lo: int, hi: int, index: nat, parent: int)
    ensures Block([], lo, hi, index, parent)
  {
  }

  // ----- children

  function ChildCount(tokens: seq<Token>, parent: int): nat {
    if tokens == [] then 0
    else ChildCount(tokens[..|tokens| - 1], parent) + (if tokens[|tokens| - 1].parent == parent then 1 else 0)
  }

  lemma {:induction false} CountAppend(a: seq<Token>, b: seq<Token>, parent: int)
    ensures ChildCount(a + b, parent) == ChildCount(a, parent) + ChildCount(b, parent)
    decreases |b|
  {
    if b == [] {
      assert a + b == a;
    } else {
      assert (a + b)[..|a + b| - 1] == a + b[..|b| - 1];
      CountAppend(a, b[..|b| - 1], parent);
    }
  }

  /** The `children` of token `p` if it is one of these, the first of which is token `index`. */
  function ChildrenOf(tokens: seq<Token>, index: nat, p: int): nat {
    if index <= p < index + |tokens| then tokens[p - index].children else 0
  }

  lemma ChildrenAppend(a: seq<Token>, b: seq<Token>, index: nat, p: int)
    ensures ChildrenOf(a + b, index, p) == ChildrenOf(a, index, p) + ChildrenOf(b, index + |a|, p)
  {
  }

  lemma {:induction false} FlatCounts(n: Node, pos: nat, index: nat, parent: int, p: int)
    requires parent < index
    ensures ChildCount(Flat(n, pos, index, parent), p) ==
            (if p == parent then 1 else 0) + ChildrenOf(Flat(n, pos, index, parent), index, p)
    decreases n, 0
  {
    var tokens := Flat(n, pos, index, parent);
    if n.Group? {
      hide ChildCount, FlatItems, SizeItems;
      var inner := FlatItems(n.items, pos + 1 + |n.lead|, index + 1, index);
      FlatItemsCounts(n.items, pos + 1 + |n.lead|, index + 1, index, p);
      CountAppend([tokens[0]], inner, p);
      SingleCount(tokens[0], p);
      ChildrenAppend([tokens[0]], inner, index, p);
    } else {
      SingleCount(tokens[0], p);
    }
  }

  lemma SingleCount(token: Token, p: int)
    ensures ChildCount([token], p) == if token.parent == p then 1 else 0
  {
    assert [token][..0] == [];
  }

  lemma NothingCounted(pos: nat, index: nat, parent: int, p: int)
    ensures ChildCount(FlatItems([], pos, index, parent), p) == ChildrenOf(FlatItems([], pos, index, parent), index, p) == 0
  {
  }

  lemma {:induction false} FlatItemsCounts(items: seq<Item>, pos: nat, index: nat, parent: int, p: int)
    requires parent < index
    ensures ChildCount(FlatItems(items, pos, index, parent), p) ==
            (if p == parent then |items| else 0) + ChildrenOf(FlatItems(items, pos, index, parent), index, p)
    decreases items, 2
  {
    hide ChildCount, ChildrenOf, Flat, FlatItems, Render, RenderItem, RenderItems, Size, SizeItems;
    if items == [] {
      NothingCounted(pos, index, parent, p);
    } else {
      var item, rest := items[0], items[1..];
      Unfolded(items, pos, index, parent);
      var next, size := pos + |RenderItem(item)|, Size(item.node);
      FlatCounts(item.node, pos, index, parent, p);
      FlatItemsCounts(rest, next, index + size, parent, p);
      var first, more := Flat(item.node, pos, index, parent), FlatItems(rest, next, index + size, parent);
      CountAppend(first, more, p);
      ChildrenAppend(first, more, index, p);
    }
  }

  // ----- every token is the head of a value

  lemma {:induction false} Owner(doc: Text, tokens: seq<Token>, index: nat, n: Node, pos: nat, parent: int, t: nat)
    returns (p: Place, above: int)
    requires At(doc, tokens, index, n, pos, parent) && ValidNode(n) && index <= t < index + Size(n)
    ensures p.index == t && ValidNode(p.node) && At(doc, tokens, t, p.node, p.pos, above)
    decreases n, 0
  {
    if t == index {
      p, above := Place(n, index, pos), parent;
    } else {
      GroupItems(n);
      AtGroup(doc, tokens, index, n, pos, parent);
      p, above := OwnerAmong(doc, tokens, index + 1, n.items, pos + 1 + |n.lead|, index, t);
    }
  }

  lemma {:induction false} OwnerAmong(doc: Text, tokens: seq<Token>, index: nat, items: seq<Item>, pos: nat,
                                      parent: int, t: nat)
    returns (p: Place, above: int)
    requires ItemsAt(doc, tokens, index, items, pos, parent) && AllValid(items)
    requires index <= t < index + SizeItems(items)
    ensures p.index == t && ValidNode(p.node) && At(doc, tokens, t, p.node, p.pos, above)
    decreases items, 2
  {
    hide At, ItemsAt;
    var size := Size(items[0].node);
    AtFirst(doc, tokens, index, items, pos, parent);
    if t < index + size {
      p, above := Owner(doc, tokens, index, items[0].node, pos, parent, t);
    } else {
      p, above := OwnerAmong(doc, tokens, index + size, items[1..], pos + |RenderItem(items[0])|, parent, t);
    }
  }

  // ----- the array as a whole

  /** `d` lies below `a`: its chain of parents meets `a`. */
  predicate Descends(tokens: seq<Token>, a: nat, d: int)
    decreases d
  {
    a < d < |tokens| && (tokens[d].parent == a || (tokens[d].parent < d && Descends(tokens, a, tokens[d].parent)))
  }

  /** One tree in pre-order. */
  predicate IsTree(tokens: seq<Token>) {
    && tokens != [] && tokens[0].parent == -1
    && (forall i :: 0 < i < |tokens| ==> 0 <= tokens[i].parent < i)
    && (forall i :: 0 < i < |tokens| ==> Inside(tokens[i], tokens[tokens[i].parent]))
    && (forall i :: 0 <= i < |tokens| ==> 0 <= tokens[i].start <= tokens[i].end)
    && (forall i, j :: 0 <= i < j < |tokens| ==> tokens[i].start < tokens[j].start)
    && (forall i :: 0 <= i < |tokens| ==> tokens[i].children == ChildCount(tokens, i))
  }

  lemma AcceptedIsTree(doc: Text, cap: nat)
    requires Parse(doc, cap).Some?
    ensures IsTree(Parse(doc, cap).value)
  {
    hide Parse;
    var d := ParsedDocument(doc, cap);
    FlatIsTree(d.root.node, |d.lead|);
  }

  lemma FlatIsTree(n: Node, pos: nat)
    requires ValidNode(n)
    ensures IsTree(Flat(n, pos, 0, -1))
  {
    hide Flat, ChildCount, ValidNode, Render;
    var tokens := Flat(n, pos, 0, -1);
    FlatBlock(n, pos, 0, -1);
    forall i | 0 <= i < |tokens| ensures tokens[i].children == ChildCount(tokens, i) {
      FlatCounts(n, pos, 0, -1, i);
    }
    forall i | 0 < i < |tokens| ensures 0 <= tokens[i].parent < i && Inside(tokens[i], tokens[tokens[i].parent]) {
      assert Nested(tokens, i, pos, pos + |Render(n)|, 0, -1);
    }
    forall i | 0 <= i < |tokens| ensures 0 <= tokens[i].start <= tokens[i].end {
      assert Nested(tokens, i, pos, pos + |Render(n)|, 0, -1);
    }
  }

  lemma {:induction false} DescendsEnds(tokens: seq<Token>, a: nat, d: nat)
    requires IsTree(tokens) && Descends(tokens, a, d)
    ensures tokens[d].end < tokens[a].end
    decreases d
  {
    assert Inside(tokens[d], tokens[tokens[d].parent]);
    if tokens[d].parent != a { DescendsEnds(tokens, a, tokens[d].parent); }
  }

  lemma {:induction false} BlockDescends(tokens: seq<Token>, a: nat, d: nat, stop: nat)
    requires IsTree(tokens) && a < d < stop <= |tokens|
    requires forall k :: a < k < stop ==> a <= tokens[k].parent
    ensures Descends(tokens, a, d)
    decreases d
  {
    if tokens[d].parent != a { BlockDescends(tokens, a, tokens[d].parent, stop); }
  }

  /** The tokens below `t` are exactly those from `t + 1` up to `after_subtree(t)`. */
  lemma SubtreeIsInterval(doc: Text, cap: nat, t: nat, j: nat)
    requires Parse(doc, cap).Some? && t < j < |Parse(doc, cap).value|
    ensures var tokens := Parse(doc, cap).value;
            && (Descends(tokens, t, j) <==> j < AfterSubtree(tokens, t))
            && (Descends(tokens, t, j) <==> tokens[j].start < tokens[t].end)
  {
    var tokens := Parse(doc, cap).value;
    AcceptedIsTree(doc, cap);
    var d := ParsedDocument(doc, cap);
    RootPlaced(d);
    hide Parse, At, Flat, Render, IsTree;
    var p, above := Owner(doc, tokens, 0, d.root.node, |d.lead|, -1, t);
    var stop := t + Size(p.node);
    AfterNode(doc, tokens, t, p.node, p.pos, above);
    StopsThere(doc, tokens, t, p, above);
    if j < stop { BlockDescends(tokens, t, j, stop); }
    if Descends(tokens, t, j) { StartsBefore(tokens, t, j); }
  }

  lemma StartsBefore(tokens: seq<Token>, t: nat, j: nat)
    requires IsTree(tokens) && Descends(tokens, t, j)
    ensures tokens[j].start < tokens[t].end
  {
    DescendsEnds(tokens, t, j);
  }

  lemma StopsThere(doc: Text, tokens: seq<Token>, t: nat, p: Place, above: int)
    requires p.index == t && ValidNode(p.node) && At(doc, tokens, t, p.node, p.pos, above) && IsTree(tokens)
    ensures forall k :: t < k < t + Size(p.node) ==> t <= tokens[k].parent && tokens[k].start < tokens[t].end
    ensures forall k :: t + Size(p.node) <= k < |tokens| ==> tokens[k].start >= tokens[t].end
  {
    hide Flat, Render, ValidNode, IsTree, Block;
    FlatBlock(p.node, p.pos, t, above);
    assert tokens[t] == tokens[t..t + Size(p.node)][0];
    forall k | t < k < t + Size(p.node)
      ensures t <= tokens[k].parent && tokens[k].start < tokens[t].end
    {
      BelowEnds(tokens, t, t + Size(p.node), k);
    }
    FirstEnds(doc, tokens, t, p, above);
  }

  lemma {:induction false} BelowEnds(tokens: seq<Token>, a: nat, stop: nat, k: nat)
    requires IsTree(tokens) && a < k < stop <= |tokens|
    requires Rooted(tokens[a..stop], a, tokens[a].parent)
    ensures a <= tokens[k].parent && tokens[k].start < tokens[a].end
  {
    hide ChildCount;
    forall i | a < i < stop ensures a <= tokens[i].parent { assert tokens[i] == tokens[a..stop][i - a]; }
    BlockDescends(tokens, a, k, stop);
    DescendsEnds(tokens, a, k);
  }

  lemma FirstEnds(doc: Text, tokens: seq<Token>, t: nat, p: Place, above: int)
    requires p.index == t && ValidNode(p.node) && At(doc, tokens, t, p.node, p.pos, above) && IsTree(tokens)
    ensures forall k :: t + Size(p.node) <= k < |tokens| ==> tokens[k].start >= tokens[t].end
  {
    hide ChildCount, ValidNode;
    var stop := t + Size(p.node);
    assert tokens[t] == tokens[t..stop][0];
    assert tokens[t].end <= p.pos + |Render(p.node)|;
    forall k | stop <= k < |tokens| ensures tokens[k].start >= tokens[t].end {
      assert tokens[stop].start <= tokens[k].start;
    }
  }

  /** Every string token of an accepted text holds a body `CopyString` can take. */
  lemma TokensScanned(doc: Text, cap: nat, t: nat)
    requires Parse(doc, cap).Some? && t < |Parse(doc, cap).value|
    ensures Scanned(doc, Parse(doc, cap).value[t])
  {
    hide Parse, At, Flat, Render, IsBody;
    var tokens := Parse(doc, cap).value;
    var d := ParsedDocument(doc, cap);
    RootPlaced(d);
    var p, above := Owner(doc, tokens, 0, d.root.node, |d.lead|, -1, t);
    FirstToken(doc, tokens, t, p.node, p.pos, above);
    if p.node.Str? { assert StringEquals(doc, tokens[t], p.node.raw); }
  }

  // ----- the i-th child

  lemma NthUnfold(items: seq<Item>, index: nat, pos: nat, i: nat)
    requires items != []
    ensures NthItem(items, index, pos, i) ==
            if i == 0 then Some(Place(items[0].node, index, pos))
            else NthItem(items[1..], index + Size(items[0].node), pos + |RenderItem(items[0])|, i - 1)
  {
    hide Size, Render;
  }

  lemma NthOfNone(index: nat, pos: nat, i: nat)
    ensures NthItem([], index, pos, i) == None
  {
  }

  lemma {:induction false} NthCounts(items: seq<Item>, index: nat, pos: nat, parent: int, i: nat)
    requires parent < index
    ensures NthItem(items, index, pos, i).Some? <==> i < |items|
    ensures i < |items| ==>
      var k := NthItem(items, index, pos, i).value.index - index;
      0 <= k < SizeItems(items) && ChildCount(FlatItems(items, pos, index, parent)[..k], parent) == i
      && NthItem(items, index, pos, i).value.node == items[i].node
    decreases |items|
  {
    hide NthItem, ChildCount, ChildrenOf, Flat, FlatItems, Render, RenderItem, RenderItems, SizeItems, Size;
    if items == [] {
      NthOfNone(index, pos, i);
    } else {
      var item, rest := items[0], items[1..];
      Unfolded(items, pos, index, parent);
      NthUnfold(items, index, pos, i);
      var next, size := pos + |RenderItem(item)|, Size(item.node);
      var first, more := Flat(item.node, pos, index, parent), FlatItems(rest, next, index + size, parent);
      if i == 0 {
        assert (first + more)[..0] == [];
        EmptyCount(parent);
        NotEmpty(item.node);
      } else {
        NthCounts(rest, index + size, next, parent, i - 1);
        if i < |items| {
          var k := NthItem(items, index, pos, i).value.index - index;
          CountPrefix(first, more, k, parent);
          FlatCounts(item.node, pos, index, parent, parent);
          NoChildren(first, index, parent);
        }
      }
    }
  }

  lemma NotEmpty(n: Node)
    ensures Size(n) >= 1
  {
  }

  lemma NoChildren(tokens: seq<Token>, index: nat, p: int)
    requires p < index
    ensures ChildrenOf(tokens, index, p) == 0
  {
  }

  lemma CountPrefix(a: seq<Token>, b: seq<Token>, k: nat, parent: int)
    requires |a| <= k <= |a| + |b|
    ensures ChildCount((a + b)[..k], parent) == ChildCount(a, parent) + ChildCount(b[..k - |a|], parent)
  {
    assert (a + b)[..k] == a + b[..k - |a|];
    CountAppend(a, b[..k - |a|], parent);
  }

  lemma EmptyCount(parent: int)
    ensures ChildCount([], parent) == 0
  {
  }

  lemma {:induction false} NoneBefore(tokens: seq<Token>, t: int, k: nat)
    requires k <= |tokens| && forall i :: 0 <= i < k ==> tokens[i].parent != t
    ensures ChildCount(tokens[..k], t) == 0
    decreases k
  {
    if k > 0 {
      assert tokens[..k][..k - 1] == tokens[..k - 1];
      NoneBefore(tokens, t, k - 1);
    }
  }

  /**
   On an accepted text `array_get(a, i)` succeeds exactly when `i` is below the
   token's `children`, and then it is the child with `i` children before it.
   */
  lemma NthChild(doc: Text, cap: nat, a: nat, i: nat)
    requires Parse(doc, cap).Some? && a < |Parse(doc, cap).value| && Parse(doc, cap).value[a].kind == Array
    ensures var tokens := Parse(doc, cap).value;
            var r := ArrayGet(tokens, a, i);
            && (r != -1 <==> i < tokens[a].children)
            && (r != -1 ==> a < r < |tokens| && tokens[r].parent == a && ChildCount(tokens[..r], a) == i)
  {
    hide Parse, At, Flat, Render, ArrayGet, IsTree, ChildCount;
    var tokens := Parse(doc, cap).value;
    AcceptedIsTree(doc, cap);
    var d := ParsedDocument(doc, cap);
    RootPlaced(d);
    var p, above := Owner(doc, tokens, 0, d.root.node, |d.lead|, -1, a);
    NthChildAt(doc, tokens, p, above, i);
  }

  lemma NthChildAt(doc: Text, tokens: seq<Token>, p: Place, above: int, i: nat)
    requires IsTree(tokens) && ValidNode(p.node) && At(doc, tokens, p.index, p.node, p.pos, above)
    requires p.index < |tokens| && tokens[p.index].kind == Array
    ensures var r := ArrayGet(tokens, p.index, i);
            && (r != -1 <==> i < tokens[p.index].children)
            && (r != -1 ==> p.index < r < |tokens| && tokens[r].parent == p.index && ChildCount(tokens[..r], p.index) == i)
  {
    hide At, Flat, Render, ArrayFrom, FlatItems, NthItem, ChildCount, ItemsAt, ValidNode, IsTree;
    var a := p.index;
    HeadKind(doc, tokens, a, p.node, p.pos, above);
    GroupKind(p.node);
    AtGroup(doc, tokens, a, p.node, p.pos, above);
    GetChild(doc, tokens, p, above, Nth(i));
    var start := p.pos + 1 + |p.node.lead|;
    NthCounts(p.node.items, a + 1, start, a, i);
    if i < |p.node.items| {
      var q := NthItem(p.node.items, a + 1, start, i).value;
      FirstToken(doc, tokens, q.index, q.node, q.pos, a);
      ItemsPrefix(doc, tokens, a, p.node.items, start, q.index);
      CountFrom(tokens, a, q.index);
    }
  }

  lemma CountFrom(tokens: seq<Token>, a: nat, r: nat)
    requires IsTree(tokens) && a < r <= |tokens|
    ensures ChildCount(tokens[..r], a) == ChildCount(tokens[a + 1..r], a)
  {
    hide ChildCount;
    NoneBefore(tokens, a, a + 1);
    CountAppend(tokens[..a + 1], tokens[a + 1..r], a);
    assert tokens[..a + 1] + tokens[a + 1..r] == tokens[..r];
  }

  lemma GroupKind(n: Node)
    requires ValidNode(n)
    ensures n.Group? ==> n.kind == Object || n.kind == Array
  {
  }

  lemma ItemsPrefix(doc: Text, tokens: seq<Token>, a: nat, items: seq<Item>, pos: nat, r: nat)
    requires ItemsAt(doc, tokens, a + 1, items, pos, a) && a + 1 <= r <= a + 1 + SizeItems(items)
    ensures tokens[a + 1..r] == FlatItems(items, pos, a + 1, a)[..r - (a + 1)]
  {
    assert tokens[a + 1..r] == tokens[a + 1..a + 1 + SizeItems(items)][..r - (a + 1)];
  }
}
