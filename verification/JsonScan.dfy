/**
 The tokenizer of system-shell/src/json.c as a step function over its state:
 position, token array and stack of open containers. `JsonParser` holds the
 in-place form and is proved equal to this one.
 */
module JsonScan {
  import opened Common

  const MAX_DEPTH: nat := 16

  datatype Kind = Object | Array | String | Primitive

  datatype Token = Token(kind: Kind, start: int, end: int, parent: int, children: nat)

  datatype State = State(pos: nat, tokens: seq<Token>, stack: seq<nat>)

  predicate IsSpace(c: Byte) { c == ' ' || c == '\t' || c == '\r' || c == '\n' }

  /** Bytes the main loop steps over: white space, and both JSON separators. */
  predicate IsSkipped(c: Byte) { IsSpace(c) || c == ':' || c == ',' }

  predicate IsHex(c: Byte) { '0' <= c <= '9' || 'a' <= c <= 'f' || 'A' <= c <= 'F' }

  /**
   `strchr("\"\\/bfnrt", escape) != NULL`. The search also finds the terminating
   NUL of its own search string, so a NUL byte passes.
   */
  predicate IsSimpleEscape(c: Byte) { c in "\"\\/bfnrt" || c == '\0' }

  predicate IsDelimiter(c: Byte) { IsSpace(c) || c == ',' || c == ']' || c == '}' }

  /** A byte that can be part of a primitive. */
  predicate IsPrimitiveByte(c: Byte) {
    ' ' <= c < '\U{7f}' && !IsDelimiter(c) && c !in ":\"[{"
  }

  predicate HexFour(doc: Text, pos: nat) {
    pos + 4 <= |doc| && IsHex(doc[pos]) && IsHex(doc[pos + 1]) && IsHex(doc[pos + 2]) && IsHex(doc[pos + 3])
  }

  /** Where the string whose body starts at `pos` has its closing quote. */
  function StringEnd(doc: Text, pos: nat): (r: Option<nat>)
    requires pos <= |doc|
    ensures r.Some? ==> pos <= r.value < |doc| && doc[r.value] == '"'
    decreases |doc| - pos
  {
    if pos == |doc| then None
    else if doc[pos] == '"' then Some(pos)
    else if doc[pos] < ' ' then None
    else if doc[pos] != '\\' then StringEnd(doc, pos + 1)
    else if pos + 1 == |doc| then None
    else if IsSimpleEscape(doc[pos + 1]) then StringEnd(doc, pos + 2)
    else if doc[pos + 1] == 'u' && HexFour(doc, pos + 2) then StringEnd(doc, pos + 6)
    else None
  }

  /** Where the primitive starting at `pos` ends; `None` on a byte that cannot be part of one. */
  function PrimitiveEnd(doc: Text, pos: nat): (r: Option<nat>)
    requires pos <= |doc|
    ensures r.Some? ==> pos <= r.value <= |doc|
    decreases |doc| - pos
  {
    if pos == |doc| || IsDelimiter(doc[pos]) then Some(pos)
    else if IsPrimitiveByte(doc[pos]) then PrimitiveEnd(doc, pos + 1)
    else None
  }

  predicate ValidState(st: State) {
    forall i :: 0 <= i < |st.stack| ==> st.stack[i] < |st.tokens|
  }

  function Top(stack: seq<nat>): int {
    if stack == [] then -1 else stack[|stack| - 1]
  }

  /** The token array after one more child was counted for the innermost open container. */
  function Bump(tokens: seq<Token>, stack: seq<nat>): (r: seq<Token>)
    ensures |r| == |tokens|
  {
    var top := Top(stack);
    if 0 <= top < |tokens| then tokens[top := tokens[top].(children := tokens[top].children + 1)] else tokens
  }

  /** `allocate_token`: append a token below the innermost open container. */
  function Allocate(cap: nat, st: State, kind: Kind, start: int, end: int): (r: Option<State>)
    requires ValidState(st)
    ensures r.Some? ==> ValidState(r.value) && |r.value.tokens| == |st.tokens| + 1
  {
    if |st.tokens| >= cap then None
    else Some(st.(tokens := Bump(st.tokens, st.stack) + [Token(kind, start, end, Top(st.stack), 0)]))
  }

  function Open(cap: nat, st: State, kind: Kind): (r: Option<State>)
    requires ValidState(st)
    ensures r.Some? ==> ValidState(r.value) && r.value.pos == st.pos + 1
  {
    if |st.stack| == MAX_DEPTH then None
    else
      match Allocate(cap, st, kind, st.pos, -1)
      case None => None
      case Some(next) => Some(next.(pos := st.pos + 1, stack := st.stack + [|st.tokens|]))
  }

  function Close(st: State, kind: Kind): (r: Option<State>)
    requires ValidState(st)
    ensures r.Some? ==> ValidState(r.value) && r.value.pos == st.pos + 1
  {
    if st.stack == [] then None
    else
      var top := st.stack[|st.stack| - 1];
      var token := st.tokens[top];
      if token.kind != kind || (kind == Object && token.children % 2 != 0) then None
      else Some(State(st.pos + 1, st.tokens[top := token.(end := st.pos + 1)], st.stack[..|st.stack| - 1]))
  }

  /** One round of the main loop. */
  function Step(doc: Text, cap: nat, st: State): (r: Option<State>)
    requires ValidState(st) && st.pos < |doc|
    ensures r.Some? ==> ValidState(r.value) && st.pos < r.value.pos <= |doc|
  {
    var c := doc[st.pos];
    if IsSkipped(c) then Some(st.(pos := st.pos + 1))
    else if st.stack == [] && st.tokens != [] then None
    else if c == '{' then Open(cap, st, Object)
    else if c == '[' then Open(cap, st, Array)
    else if c == '}' then Close(st, Object)
    else if c == ']' then Close(st, Array)
    else if c == '"' then
      match StringEnd(doc, st.pos + 1)
      case None => None
      case Some(end) =>
        (match Allocate(cap, st, String, st.pos + 1, end)
         case None => None
         case Some(next) => Some(next.(pos := end + 1)))
    else
      match PrimitiveEnd(doc, st.pos)
      case None => None
      case Some(end) =>
        if end == st.pos then None
        else
          match Allocate(cap, st, Primitive, st.pos, end)
          case None => None
          case Some(next) => Some(next.(pos := end))
  }

  function Run(doc: Text, cap: nat, st: State): (r: Option<seq<Token>>)
    requires ValidState(st) && st.pos <= |doc|
    decreases |doc| - st.pos
  {
    if st.pos == |doc| then
      if st.tokens != [] && st.stack == [] then Some(st.tokens) else None
    else
      match Step(doc, cap, st)
      case None => None
      case Some(next) => Run(doc, cap, next)
  }

  const INITIAL := State(0, [], [])

  /** `cp0_json_parse`: the token array, or `None` where the source returns -1. */
  function Parse(doc: Text, cap: nat): Option<seq<Token>> {
    if |doc| == 0 || cap == 0 || |doc| > INT32_MAX then None else Run(doc, cap, INITIAL)
  }
}
