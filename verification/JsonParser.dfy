/** The tokenizer in the source's own form: one pass that fills a caller's token array in place. */
module JsonParser {
  import opened Common
  import opened JsonScan

  class Parser {
    const document: Text
    const tokens: array<Token>
    const stack: array<nat>
    var position: nat
    var tokenCount: nat
    var depth: nat

    ghost predicate Valid()
      reads this, stack
    {
      && position <= |document| && tokenCount <= tokens.Length
      && stack.Length == MAX_DEPTH && depth <= MAX_DEPTH
      && forall i :: 0 <= i < depth ==> stack[i] < tokenCount
    }

    /** The abstract scan state these fields hold. */
    ghost function Abs(): (st: State)
      requires Valid()
      reads this, stack, tokens
      ensures ValidState(st)
    {
      assert forall i :: 0 <= i < depth ==> stack[..depth][i] == stack[i];
      State(position, tokens[..tokenCount], stack[..depth])
    }

    constructor (document: Text, tokens: array<Token>)
      ensures Valid() && this.document == document && this.tokens == tokens && fresh(stack)
      ensures Abs() == INITIAL && position == 0 && tokenCount == 0 && depth == 0
    {
      this.document := document;
      this.tokens := tokens;
      stack := new nat[MAX_DEPTH];
      position, tokenCount, depth := 0, 0, 0;
    }

    method Parent() returns (parent: int)
      requires Valid()
      ensures parent == Top(Abs().stack)
    {
      parent := if depth == 0 then -1 else stack[depth - 1];
    }

    method AllocateToken(kind: Kind, start: int, end: int) returns (index: int)
      requires Valid()
      modifies this`tokenCount, tokens
      ensures Valid()
      ensures match Allocate(tokens.Length, old(Abs()), kind, start, end)
              case None => index == -1 && Abs() == old(Abs())
              case Some(next) => index == old(tokenCount) && Abs() == next
    {
      if tokenCount == tokens.Length { return -1; }
      var parent := Parent();
      index := tokenCount;
      ghost var before := tokens[..tokenCount];
      tokens[index] := Token(kind, start, end, parent, 0);
      tokenCount := tokenCount + 1;
      if parent >= 0 {
        tokens[parent] := tokens[parent].(children := tokens[parent].children + 1);
      }
      assert tokens[..tokenCount] == Bump(before, stack[..depth]) + [Token(kind, start, end, parent, 0)];
    }

    /** The four digits behind the `u` at `at`. */
    method FourHexDigits(at: nat) returns (ok: bool)
      requires at + 4 < |document|
      ensures ok == HexFour(document, at + 1)
    {
      var offset := 1;
      while offset <= 4
        invariant 1 <= offset <= 5
        invariant forall i :: at < i < at + offset ==> IsHex(document[i])
      {
        if !IsHex(document[at + offset]) { return false; }
        offset := offset + 1;
      }
      return true;
    }

    /** The scan of `parse_string`: stops on the closing quote, or fails. */
    method ScanString() returns (found: bool)
      requires position <= |document|
      modifies this`position
      ensures old(position) <= position <= |document|
      ensures found ==> StringEnd(document, old(position)) == Some(position)
      ensures !found ==> StringEnd(document, old(position)) == None
    {
      while position < |document|
        invariant old(position) <= position <= |document|
        invariant StringEnd(document, position) == StringEnd(document, old(position))
        decreases |document| - position
      {
        var byte := document[position];
        if byte == '"' { return true; }
        if byte < ' ' { return false; }
        if byte == '\\' {
          position := position + 1;
          if position >= |document| { return false; }
          var escape := document[position];
          if !IsSimpleEscape(escape) {
            if escape != 'u' || position + 4 >= |document| { return false; }
            var hex := FourHexDigits(position);
            if !hex { return false; }
            position := position + 4;
          }
        }
        position := position + 1;
      }
      return false;
    }

    method ParseString() returns (ok: bool)
      requires Valid() && position < |document| && document[position] == '"'
      requires depth > 0 || tokenCount == 0
      modifies this`position, this`tokenCount, tokens
      ensures Valid()
      ensures ok ==> Step(document, tokens.Length, old(Abs())) == Some(Abs())
      ensures !ok ==> Step(document, tokens.Length, old(Abs())) == None
    {
      hide Bump, Open, Close, PrimitiveEnd, StringEnd;
      position := position + 1;
      var start := position;
      var found := ScanString();
      if !found { return false; }
      var index := AllocateToken(String, start, position);
      if index < 0 { return false; }
      position := position + 1;
      return true;
    }

    method ParsePrimitive() returns (ok: bool)
      requires Valid() && position < |document|
      requires !IsSkipped(document[position]) && document[position] !in "{}[]\""
      requires depth > 0 || tokenCount == 0
      modifies this`position, this`tokenCount, tokens
      ensures Valid()
      ensures ok ==> Step(document, tokens.Length, old(Abs())) == Some(Abs())
      ensures !ok ==> Step(document, tokens.Length, old(Abs())) == None
    {
      ghost var before := Abs();
      var start := position;
      while position < |document| && !IsDelimiter(document[position])
        invariant start <= position <= |document| && Valid()
        invariant Abs() == before.(pos := position) && tokenCount == old(tokenCount)
        invariant PrimitiveEnd(document, position) == PrimitiveEnd(document, start)
        decreases |document| - position
      {
        var byte := document[position];
        if byte < ' ' || byte >= '\U{7f}' || byte == ':' || byte == '"' || byte == '[' || byte == '{' {
          return false;
        }
        position := position + 1;
      }
      if position == start { return false; }
      var index := AllocateToken(Primitive, start, position);
      return index >= 0;
    }

    method OpenContainer(kind: Kind) returns (ok: bool)
      requires Valid() && position < |document|
      modifies this, tokens, stack
      ensures Valid()
      ensures ok ==> Open(tokens.Length, old(Abs()), kind) == Some(Abs())
      ensures !ok ==> Open(tokens.Length, old(Abs()), kind) == None
    {
      if depth == MAX_DEPTH { return false; }
      var token := AllocateToken(kind, position, -1);
      if token < 0 { return false; }
      stack[depth] := token;
      depth := depth + 1;
      position := position + 1;
      assert stack[..depth] == old(stack[..depth]) + [token];
      return true;
    }

    method CloseContainer(kind: Kind) returns (ok: bool)
      requires Valid() && position < |document|
      modifies this, tokens
      ensures Valid()
      ensures ok ==> Close(old(Abs()), kind) == Some(Abs())
      ensures !ok ==> Close(old(Abs()), kind) == None
    {
      if depth == 0 { return false; }
      var token := stack[depth - 1];
      if tokens[token].kind != kind || (kind == Object && tokens[token].children % 2 != 0) {
        return false;
      }
      ghost var before := tokens[..tokenCount];
      ghost var closing := tokens[token];
      position := position + 1;
      tokens[token] := tokens[token].(end := position);
      depth := depth - 1;
      assert tokens[..tokenCount] == before[token := closing.(end := position)];
      assert stack[..depth] == old(stack[..depth])[..depth];
      return true;
    }
  }

  /** `cp0_json_parse`: the number of tokens written at the front of `tokens`, or -1. */
  method Tokenize(document: Text, tokens: array<Token>) returns (count: int)
    modifies tokens
    ensures match Parse(document, tokens.Length)
            case None => count == -1
            case Some(result) => 0 < count == |result| <= tokens.Length && tokens[..count] == result
  {
    hide Bump, StringEnd, PrimitiveEnd, Top;
    if |document| == 0 || tokens.Length == 0 || |document| > INT32_MAX { return -1; }
    var parser := new Parser(document, tokens);
    var hasRoot := false;
    while parser.position < |document|
      invariant parser.Valid() && parser.document == document && parser.tokens == tokens && fresh(parser.stack)
      invariant hasRoot <==> parser.tokenCount > 0
      invariant Run(document, tokens.Length, parser.Abs()) == Parse(document, tokens.Length)
      decreases |document| - parser.position
    {
      var byte := document[parser.position];
      if byte == ' ' || byte == '\t' || byte == '\r' || byte == '\n' || byte == ':' || byte == ',' {
        parser.position := parser.position + 1;
        continue;
      }
      if parser.depth == 0 && hasRoot { return -1; }
      var ok: bool;
      if byte == '{' || byte == '[' {
        ok := parser.OpenContainer(if byte == '{' then Object else Array);
        if !ok { return -1; }
        hasRoot := true;
        continue;
      }
      if byte == '}' || byte == ']' {
        ok := parser.CloseContainer(if byte == '}' then Object else Array);
        if !ok { return -1; }
        continue;
      }
      if byte == '"' {
        ok := parser.ParseString();
      } else {
        ok := parser.ParsePrimitive();
      }
      if !ok { return -1; }
      hasRoot := true;
    }
    if !hasRoot || parser.depth != 0 { return -1; }
    return parser.tokenCount;
  }
}
