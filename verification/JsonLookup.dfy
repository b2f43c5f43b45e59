/**
 Navigation in the flat token array: `after_subtree`, `cp0_json_object_get` and
 `cp0_json_array_get` move by comparing starts with ends. Here they are proved
 to walk the tree the array stands for.
 */
module JsonLookup {
  import opened Common
  import opened JsonScan
  import opened JsonGrammar

  /** The first token from `index` on that does not start before `end`. */
  function SkipTo(tokens: seq<Token>, end: int, index: nat): (r: nat)
    requires index <= |tokens|
    ensures index <= r <= |tokens|
    decreases |tokens| - index
  {
    if index < |tokens| && tokens[index].start < end then SkipTo(tokens, end, index + 1) else index
  }

  function AfterSubtree(tokens: seq<Token>, token: nat): (r: nat)
    requires token < |tokens|
    ensures token < r <= |tokens|
  {
    SkipTo(tokens, tokens[token].end, token + 1)
  }

  predicate StringEquals(doc: Text, token: Token, expected: Text) {
    token.kind == String && 0 <= token.start <= token.end <= |doc| && doc[token.start..token.end] == expected
  }

  function ObjectFrom(doc: Text, tokens: seq<Token>, obj: nat, index: nat, key: Text): (r: int)
    requires obj < |tokens| && index <= |tokens|
    ensures r == -1 || index < r < |tokens|
    decreases |tokens| - index
  {
    if index == |tokens| || tokens[index].start >= tokens[obj].end then -1
    else if tokens[index].parent != obj || tokens[index].kind != String
            || index + 1 >= |tokens| || tokens[index + 1].parent != obj then -1
    else if StringEquals(doc, tokens[index], key) then index + 1
    else ObjectFrom(doc, tokens, obj, AfterSubtree(tokens, index + 1), key)
  }

  /** `cp0_json_object_get` */
  function ObjectGet(doc: Text, tokens: seq<Token>, obj: int, key: Text): (r: int)
    ensures r == -1 || 0 <= obj < r < |tokens|
  {
    if !(0 <= obj < |tokens|) || tokens[obj].kind != Object then -1
    else ObjectFrom(doc, tokens, obj, obj + 1, key)
  }

  function ArrayFrom(tokens: seq<Token>, arr: nat, index: nat, item: nat): (r: int)
    requires arr < |tokens| && index <= |tokens|
    ensures r == -1 || index <= r < |tokens|
    decreases |tokens| - index
  {
    if index == |tokens| || tokens[index].start >= tokens[arr].end then -1
    else if tokens[index].parent != arr then -1
    else if item == 0 then index
    else ArrayFrom(tokens, arr, AfterSubtree(tokens, index), item - 1)
  }

  /** `cp0_json_array_get` */
  function ArrayGet(tokens: seq<Token>, arr: int, item: nat): (r: int)
    ensures r == -1 || 0 <= arr < r < |tokens|
  {
    if !(0 <= arr < |tokens|) || tokens[arr].kind != Array then -1
    else ArrayFrom(tokens, arr, arr + 1, item)
  }

  // ----- the loops of the source

  method FindAfterSubtree(tokens: seq<Token>, token: nat) returns (index: nat)
    requires token < |tokens|
    ensures index == AfterSubtree(tokens, token)
  {
    var end := tokens[token].end;
    index := token + 1;
    while index < |tokens| && tokens[index].start < end
      invariant token < index <= |tokens|
      invariant SkipTo(tokens, end, index) == AfterSubtree(tokens, token)
    {
      index := index + 1;
    }
  }

  method FindInObject(doc: Text, tokens: seq<Token>, obj: int, key: Text) returns (r: int)
    ensures r == ObjectGet(doc, tokens, obj, key)
  {
    if obj < 0 || obj >= |tokens| || tokens[obj].kind != Object { return -1; }
    var index := obj + 1;
    while index < |tokens| && tokens[index].start < tokens[obj].end
      invariant obj < index <= |tokens|
      invariant ObjectFrom(doc, tokens, obj, index, key) == ObjectGet(doc, tokens, obj, key)
    {
      if tokens[index].parent != obj || tokens[index].kind != String || index + 1 >= |tokens|
         || tokens[index + 1].parent != obj {
        return -1;
      }
      var value := index + 1;
      if StringEquals(doc, tokens[index], key) { return value; }
      index := FindAfterSubtree(tokens, value);
    }
    return -1;
  }

  method FindInArray(tokens: seq<Token>, arr: int, item: nat) returns (r: int)
    ensures r == ArrayGet(tokens, arr, item)
  {
    var current := 0;
    if arr < 0 || arr >= |tokens| || tokens[arr].kind != Array { return -1; }
    var index := arr + 1;
    while index < |tokens| && tokens[index].start < tokens[arr].end
      invariant arr < index <= |tokens| && current <= item
      invariant ArrayFrom(tokens, arr, index, item - current) == ArrayGet(tokens, arr, item)
    {
      if tokens[index].parent != arr { return -1; }
      if current == item { return index; }
      current := current + 1;
      index := FindAfterSubtree(tokens, index);
    }
    return -1;
  }

  // ----- where a value lies in the token array

  /** The tokens of `n` are at `index`, its text at `pos`, and whatever follows starts behind it. */
  predicate At(doc: Text, tokens: seq<Token>, index: nat, n: Node, pos: nat, parent: int) {
    && index + Size(n) <= |tokens| && tokens[index..index + Size(n)] == Flat(n, pos, index, parent)
    && OccursAt(doc, pos, Render(n))
    && (index + Size(n) < |tokens| ==> tokens[index + Size(n)].start >= pos + |Render(n)|)
  }

  predicate ItemsAt(doc: Text, tokens: seq<Token>, index: nat, items: seq<Item>, pos: nat, parent: int) {
    && index + SizeItems(items) <= |tokens|
    && tokens[index..index + SizeItems(items)] == FlatItems(items, pos, index, parent)
    && OccursAt(doc, pos, RenderItems(items))
    && (index + SizeItems(items) < |tokens| ==> tokens[index + SizeItems(items)].start >= pos + |RenderItems(items)|)
  }

  predicate AllValid(items: seq<Item>) {
    forall i :: 0 <= i < |items| ==> ValidNode(items[i].node)
  }

  lemma {:induction false} FlatStarts(n: Node, pos: nat, index: nat, parent: int)
    requires ValidNode(n)
    ensures forall k :: 0 <= k < Size(n) ==> pos <= Flat(n, pos, index, parent)[k].start < pos + |Render(n)|
    decreases n, 0
  {
    if n.Group? {
      forall i | 0 <= i < |n.items| ensures ValidNode(n.items[i].node) {
        assert ValidItem(n.items[i], i == |n.items| - 1);
      }
      FlatItemsStarts(n.items, pos + 1 + |n.lead|, index + 1, index);
    }
  }

  lemma {:induction false} FlatItemsStarts(items: seq<Item>, pos: nat, index: nat, parent: int)
    requires AllValid(items)
    ensures forall k :: 0 <= k < SizeItems(items) ==>
      pos <= FlatItems(items, pos, index, parent)[k].start < pos + |RenderItems(items)|
    decreases items, 2
  {
    if items != [] {
      FlatStarts(items[0].node, pos, index, parent);
      FlatItemsStarts(items[1..], pos + |RenderItem(items[0])|, index + Size(items[0].node), parent);
    }
  }

  lemma GroupItems(n: Node)
    requires n.Group? && ValidNode(n)
    ensures AllValid(n.items)
  {
    forall i | 0 <= i < |n.items| ensures ValidNode(n.items[i].node) {
      assert ValidItem(n.items[i], i == |n.items| - 1);
    }
  }

  /** The values of a container lie right behind its own token. */
  lemma AtGroup(doc: Text, tokens: seq<Token>, index: nat, n: Node, pos: nat, parent: int)
    requires At(doc, tokens, index, n, pos, parent) && n.Group?
    ensures tokens[index] == Token(n.kind, pos, pos + |Render(n)|, parent, |n.items|)
    ensures ItemsAt(doc, tokens, index + 1, n.items, pos + 1 + |n.lead|, index)
  {
    hide FlatItems, SizeItems, RenderItems;
    var block := tokens[index..index + Size(n)];
    assert tokens[index] == block[0];
    assert tokens[index + 1..index + Size(n)] == block[1..];
    var open, body, close := [OpenByte(n.kind)], RenderItems(n.items), [CloseByte(n.kind)];
    assert Render(n) == open + (n.lead + (body + close));
    OccursSplit(doc, pos, open, n.lead + (body + close));
    OccursSplit(doc, pos + 1, n.lead, body + close);
    OccursSplit(doc, pos + 1 + |n.lead|, body, close);
  }

  /** The first of several values, and the rest of them. */
  lemma AtFirst(doc: Text, tokens: seq<Token>, index: nat, items: seq<Item>, pos: nat, parent: int)
    requires ItemsAt(doc, tokens, index, items, pos, parent) && items != [] && AllValid(items)
    ensures At(doc, tokens, index, items[0].node, pos, parent)
    ensures ItemsAt(doc, tokens, index + Size(items[0].node), items[1..], pos + |RenderItem(items[0])|, parent)
    ensures AllValid(items[1..])
  {
    hide Flat, Render, FlatItems, RenderItems, SizeItems, RenderItem;
    var item, rest := items[0], items[1..];
    var next := pos + |RenderItem(item)|;
    Unfolded(items, pos, index, parent);
    var first := Flat(item.node, pos, index, parent);
    var more := FlatItems(rest, next, index + Size(item.node), parent);
    BlockSplit(tokens, index, first, more);
    OccursSplit(doc, pos, RenderItem(item), RenderItems(rest));
    OccursSplit(doc, pos, Render(item.node), item.trail);
    FlatItemsStarts(rest, next, index + Size(item.node), parent);
    if rest != [] {
      assert tokens[index + |first|] == tokens[index + |first|..index + |first| + |more|][0];
    }
  }

  lemma BlockSplit(tokens: seq<Token>, index: nat, a: seq<Token>, b: seq<Token>)
    requires index + |a| + |b| <= |tokens| && tokens[index..index + |a| + |b|] == a + b
    ensures tokens[index..index + |a|] == a && tokens[index + |a|..index + |a| + |b|] == b
  {
    var block := tokens[index..index + |a| + |b|];
    assert tokens[index..index + |a|] == block[..|a|];
    assert tokens[index + |a|..index + |a| + |b|] == block[|a|..];
  }

  lemma {:induction false} SkipBlock(tokens: seq<Token>, end: int, index: nat, stop: nat)
    requires index <= stop <= |tokens|
    requires forall k :: index <= k < stop ==> tokens[k].start < end
    requires stop < |tokens| ==> tokens[stop].start >= end
    ensures SkipTo(tokens, end, index) == stop
    decreases stop - index
  {
    if index < stop { SkipBlock(tokens, end, index + 1, stop); }
  }

  /** `after_subtree` skips exactly the tokens of one value. */
  lemma AfterNode(doc: Text, tokens: seq<Token>, index: nat, n: Node, pos: nat, parent: int)
    requires At(doc, tokens, index, n, pos, parent) && ValidNode(n)
    ensures AfterSubtree(tokens, index) == index + Size(n)
  {
    var block := tokens[index..index + Size(n)];
    assert tokens[index] == block[0];
    FlatStarts(n, pos, index, parent);
    forall k | index < k < index + Size(n) ensures tokens[k].start < tokens[index].end {
      assert tokens[k] == block[k - index];
    }
    SkipBlock(tokens, tokens[index].end, index + 1, index + Size(n));
  }

  // ----- lookup in the tree

  /** A node of a tree, with its rank in pre-order and the offset of its text. */
  datatype Place = Place(node: Node, index: nat, pos: nat)

  function NthItem(items: seq<Item>, index: nat, pos: nat, i: nat): Option<Place> {
    if items == [] then None
    else if i == 0 then Some(Place(items[0].node, index, pos))
    else NthItem(items[1..], index + Size(items[0].node), pos + |RenderItem(items[0])|, i - 1)
  }

  /** The value behind the first key with these raw bytes. A key that is no string ends the search. */
  function Member(items: seq<Item>, index: nat, pos: nat, key: Text): Option<Place> {
    if |items| < 2 || !items[0].node.Str? then None
    else
      var value := pos + |RenderItem(items[0])|;
      if items[0].node.raw == key then Some(Place(items[1].node, index + 1, value))
      else Member(items[2..], index + 1 + Size(items[1].node), value + |RenderItem(items[1])|, key)
  }

  datatype Lookup = Key(key: Text) | Nth(item: nat)

  function Child(p: Place, lookup: Lookup): Option<Place> {
    if !p.node.Group? then None
    else
      var pos := p.pos + 1 + |p.node.lead|;
      match lookup
      case Key(key) => if p.node.kind == Object then Member(p.node.items, p.index + 1, pos, key) else None
      case Nth(item) => if p.node.kind == Array then NthItem(p.node.items, p.index + 1, pos, item) else None
  }

  function Walk(p: Place, path: seq<Lookup>): Option<Place>
    decreases path
  {
    if path == [] then Some(p)
    else
      match Child(p, path[0])
      case None => None
      case Some(child) => Walk(child, path[1..])
  }

  /** The same lookups on the token array. */
  function Get(doc: Text, tokens: seq<Token>, index: int, lookup: Lookup): int {
    match lookup
    case Key(key) => ObjectGet(doc, tokens, index, key)
    case Nth(item) => ArrayGet(tokens, index, item)
  }

  function GetPath(doc: Text, tokens: seq<Token>, index: int, path: seq<Lookup>): int
    decreases path
  {
    if path == [] then index
    else
      var next := Get(doc, tokens, index, path[0]);
      if next == -1 then -1 else GetPath(doc, tokens, next, path[1..])
  }

  function IndexOf(p: Option<Place>): int { if p.Some? then p.value.index else -1 }

  predicate PlacedAt(doc: Text, tokens: seq<Token>, p: Option<Place>, parent: int) {
    p.Some? ==> ValidNode(p.value.node) && At(doc, tokens, p.value.index, p.value.node, p.value.pos, parent)
  }

  lemma FirstToken(doc: Text, tokens: seq<Token>, index: nat, n: Node, pos: nat, parent: int)
    requires At(doc, tokens, index, n, pos, parent) && ValidNode(n)
    ensures tokens[index].parent == parent && tokens[index].start < pos + |Render(n)|
    ensures tokens[index].kind == String <==> n.Str?
    ensures n.Str? ==> Size(n) == 1 && forall key :: StringEquals(doc, tokens[index], key) <==> key == n.raw
  {
    assert tokens[index] == tokens[index..index + Size(n)][0];
    FlatStarts(n, pos, index, parent);
    if n.Str? {
      assert Render(n) == "\"" + (n.raw + "\"");
      OccursSplit(doc, pos, "\"", n.raw + "\"");
      OccursSplit(doc, pos + 1, n.raw, "\"");
    }
  }

  lemma {:induction false} ArrayWalk(doc: Text, tokens: seq<Token>, arr: nat, index: nat, items: seq<Item>,
                                     pos: nat, item: nat)
    requires ItemsAt(doc, tokens, index, items, pos, arr) && AllValid(items) && arr < |tokens|
    requires tokens[arr].end >= pos + |RenderItems(items)|
    requires index + SizeItems(items) < |tokens| ==> tokens[index + SizeItems(items)].start >= tokens[arr].end
    ensures ArrayFrom(tokens, arr, index, item) == IndexOf(NthItem(items, index, pos, item))
    ensures PlacedAt(doc, tokens, NthItem(items, index, pos, item), arr)
    decreases |items|
  {
    hide At, ItemsAt, Flat, FlatItems, Render, ValidNode;
    if items != [] {
      AtFirst(doc, tokens, index, items, pos, arr);
      FirstToken(doc, tokens, index, items[0].node, pos, arr);
      AfterNode(doc, tokens, index, items[0].node, pos, arr);
      assert RenderItems(items) == RenderItem(items[0]) + RenderItems(items[1..]);
      if item > 0 {
        ArrayWalk(doc, tokens, arr, index + Size(items[0].node), items[1..], pos + |RenderItem(items[0])|, item - 1);
      }
    }
  }

  lemma {:induction false} ObjectWalk(doc: Text, tokens: seq<Token>, obj: nat, index: nat, items: seq<Item>,
                                      pos: nat, key: Text)
    requires ItemsAt(doc, tokens, index, items, pos, obj) && AllValid(items) && obj < |tokens|
    requires |items| % 2 == 0
    requires tokens[obj].end >= pos + |RenderItems(items)|
    requires index + SizeItems(items) < |tokens| ==> tokens[index + SizeItems(items)].start >= tokens[obj].end
    ensures ObjectFrom(doc, tokens, obj, index, key) == IndexOf(Member(items, index, pos, key))
    ensures PlacedAt(doc, tokens, Member(items, index, pos, key), obj)
    decreases |items|
  {
    hide At, ItemsAt, Flat, FlatItems, Render, ValidNode, StringEquals;
    if items != [] {
      var rest := items[1..];
      var value := pos + |RenderItem(items[0])|;
      AtFirst(doc, tokens, index, items, pos, obj);
      FirstToken(doc, tokens, index, items[0].node, pos, obj);
      assert RenderItems(items) == RenderItem(items[0]) + RenderItems(rest);
      if items[0].node.Str? {
        AtFirst(doc, tokens, index + 1, rest, value, obj);
        FirstToken(doc, tokens, index + 1, rest[0].node, value, obj);
        AfterNode(doc, tokens, index + 1, rest[0].node, value, obj);
        assert RenderItems(rest) == RenderItem(rest[0]) + RenderItems(rest[1..]);
        assert rest[1..] == items[2..];
        assert SizeItems(items) == 1 + SizeItems(rest) == 1 + Size(rest[0].node) + SizeItems(rest[1..]);
        if items[0].node.raw != key {
          ObjectWalk(doc, tokens, obj, index + 1 + Size(rest[0].node), items[2..],
                     value + |RenderItem(rest[0])|, key);
        }
      }
    }
  }

  /** One lookup from a place lands on the place the tree has there. */
  lemma GetChild(doc: Text, tokens: seq<Token>, p: Place, parent: int, lookup: Lookup)
    requires PlacedAt(doc, tokens, Some(p), parent)
    ensures Get(doc, tokens, p.index, lookup) == IndexOf(Child(p, lookup))
    ensures PlacedAt(doc, tokens, Child(p, lookup), p.index)
  {
    hide ItemsAt, At, ArrayFrom, ObjectFrom, ValidNode, NthItem, Member, Flat, Render;
    var n := p.node;
    HeadKind(doc, tokens, p.index, n, p.pos, parent);
    if n.Group? {
      GroupItems(n);
      AtGroup(doc, tokens, p.index, n, p.pos, parent);
      GroupEnd(doc, tokens, p.index, n, p.pos, parent);
      var pos := p.pos + 1 + |n.lead|;
      match lookup
      case Key(key) => if n.kind == Object { ObjectWalk(doc, tokens, p.index, p.index + 1, n.items, pos, key); }
      case Nth(item) => if n.kind == Array { ArrayWalk(doc, tokens, p.index, p.index + 1, n.items, pos, item); }
    }
  }

  lemma HeadKind(doc: Text, tokens: seq<Token>, index: nat, n: Node, pos: nat, parent: int)
    requires At(doc, tokens, index, n, pos, parent) && ValidNode(n)
    ensures index < |tokens|
    ensures tokens[index].kind == if n.Group? then n.kind else if n.Str? then String else Primitive
  {
    assert tokens[index] == tokens[index..index + Size(n)][0];
  }

  lemma GroupEnd(doc: Text, tokens: seq<Token>, index: nat, n: Node, pos: nat, parent: int)
    requires At(doc, tokens, index, n, pos, parent) && ValidNode(n) && n.Group?
    ensures index < |tokens| && tokens[index].end >= pos + 1 + |n.lead| + |RenderItems(n.items)|
    ensures index + 1 + SizeItems(n.items) < |tokens| ==>
      tokens[index + 1 + SizeItems(n.items)].start >= tokens[index].end
    ensures n.kind == Object ==> |n.items| % 2 == 0
  {
    assert tokens[index] == tokens[index..index + Size(n)][0];
  }

  lemma {:induction false} GetWalk(doc: Text, tokens: seq<Token>, p: Place, parent: int, path: seq<Lookup>)
    requires PlacedAt(doc, tokens, Some(p), parent)
    ensures GetPath(doc, tokens, p.index, path) == IndexOf(Walk(p, path))
    ensures Walk(p, path).Some? ==> exists above: int :: PlacedAt(doc, tokens, Walk(p, path), above)
    decreases |path|
  {
    hide PlacedAt, Get, Child;
    if path != [] {
      GetChild(doc, tokens, p, parent, path[0]);
      match Child(p, path[0])
      case None =>
      case Some(child) => GetWalk(doc, tokens, child, p.index, path[1..]);
    }
  }

  function RootOf(d: Document): Place { Place(d.root.node, 0, |d.lead|) }

  lemma RootPlaced(d: Document)
    requires ValidDocument(d)
    ensures PlacedAt(RenderDocument(d), FlatDocument(d), Some(RootOf(d)), -1)
  {
    var doc, tokens, n := RenderDocument(d), FlatDocument(d), d.root.node;
    assert tokens[0..0 + Size(n)] == tokens;
    assert OccursAt(doc, 0, doc) && doc == d.lead + (Render(n) + d.root.trail);
    OccursSplit(doc, 0, d.lead, Render(n) + d.root.trail);
    OccursSplit(doc, |d.lead|, Render(n), d.root.trail);
  }

  /**
   On the tokens of a text, any path of `object_get` and `array_get` calls finds
   the node the same path finds in the tree, or fails where that one does.
   */
  lemma PathsAgree(d: Document, path: seq<Lookup>)
    requires ValidDocument(d)
    ensures GetPath(RenderDocument(d), FlatDocument(d), 0, path) == IndexOf(Walk(RootOf(d), path))
    ensures Walk(RootOf(d), path).Some? ==>
      exists above: int :: PlacedAt(RenderDocument(d), FlatDocument(d), Walk(RootOf(d), path), above)
  {
    RootPlaced(d);
    GetWalk(RenderDocument(d), FlatDocument(d), RootOf(d), -1, path);
  }
}
