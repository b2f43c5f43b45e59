/** Reading values out of tokens: `cp0_json_copy_string` and `cp0_json_get_u64`. */
module JsonValues {
  import opened Common
  import opened JsonScan
  import opened JsonGrammar

  function HexValue(c: Byte): (r: nat)
    requires IsHex(c)
    ensures r < 16
  {
    if c <= '9' then c as int - '0' as int
    else if 'a' <= c then c as int - 'a' as int + 10
    else c as int - 'A' as int + 10
  }

  function CodePoint(raw: Text, at: nat): (r: nat)
    requires HexFour(raw, at)
    ensures r < 0x1_0000
  {
    ((HexValue(raw[at]) * 16 + HexValue(raw[at + 1])) * 16 + HexValue(raw[at + 2])) * 16 + HexValue(raw[at + 3])
  }

  /** What `append_utf8` writes; `None` where it refuses. */
  function Utf8(code: nat): Option<Text> {
    if code == 0 then None
    else if code <= 0x7f then Some([code as char])
    else if code <= 0x7ff then Some([(0xc0 + code / 64) as char, (0x80 + code % 64) as char])
    else if code <= 0xffff && !(0xd800 <= code <= 0xdfff) then
      Some([(0xe0 + code / 4096) as char, (0x80 + code / 64 % 64) as char, (0x80 + code % 64) as char])
    else None
  }

  /** The character of a UTF-8 sequence of one to three bytes, by section 3 of RFC 3629. */
  function DecodeUtf8(bytes: Text): Option<nat> {
    if |bytes| == 1 && bytes[0] as int < 0x80 then Some(bytes[0] as int)
    else if |bytes| == 2 && 0xc0 <= bytes[0] as int < 0xe0 && IsTail(bytes[1]) then
      Some((bytes[0] as int - 0xc0) * 64 + (bytes[1] as int - 0x80))
    else if |bytes| == 3 && 0xe0 <= bytes[0] as int < 0xf0 && IsTail(bytes[1]) && IsTail(bytes[2]) then
      Some((bytes[0] as int - 0xe0) * 4096 + (bytes[1] as int - 0x80) * 64 + (bytes[2] as int - 0x80))
    else None
  }

  predicate IsTail(c: Byte) { 0x80 <= c as int < 0xc0 }

  /** Number of bytes RFC 3629 gives a character of the basic plane. */
  function Utf8Length(code: nat): nat { if code < 0x80 then 1 else if code < 0x800 then 2 else 3 }

  /** The writer is the RFC's encoding: decodable, shortest, and refused only for NUL and surrogates. */
  lemma Utf8Decodes(code: nat)
    requires code < 0x1_0000
    ensures Utf8(code).Some? <==> code != 0 && !(0xd800 <= code < 0xe000)
    ensures Utf8(code).Some? ==> DecodeUtf8(Utf8(code).value) == Some(code) && |Utf8(code).value| == Utf8Length(code)
  {
    assert code == (code / 4096) * 4096 + (code / 64 % 64) * 64 + code % 64;
  }

  function SimpleEscape(c: Byte): Option<Byte> {
    match c
    case '"' => Some('"') case '\\' => Some('\\') case '/' => Some('/')
    case 'b' => Some('\U{8}') case 'f' => Some('\U{c}')
    case 'n' => Some('\n') case 'r' => Some('\r') case 't' => Some('\t')
    case _ => None
  }

  function Prepend(head: Option<Text>, tail: Option<Text>): Option<Text> {
    if head.Some? && tail.Some? then Some(head.value + tail.value) else None
  }

  /** Length of the first character or escape of a string body. */
  function Piece(raw: Text): (n: nat)
    requires raw != [] && IsBody(raw)
    ensures 0 < n <= |raw| && IsBody(raw[n..])
  {
    if raw[0] != '\\' then 1 else if raw[1] == 'u' then 6 else 2
  }

  function DecodePiece(raw: Text): Option<Text>
    requires raw != [] && IsBody(raw)
  {
    if raw[0] != '\\' then Some([raw[0]])
    else if raw[1] == 'u' then Utf8(CodePoint(raw, 2))
    else match SimpleEscape(raw[1])
      case None => None
      case Some(c) => Some([c])
  }

  /** The bytes a string body stands for; `None` for `\u0000`, surrogate escapes and an escaped NUL byte. */
  function Unescape(raw: Text): Option<Text>
    requires IsBody(raw)
    decreases |raw|
  {
    if raw == [] then Some([]) else Prepend(DecodePiece(raw), Unescape(raw[Piece(raw)..]))
  }

  lemma PrependAssociates(a: Option<Text>, b: Option<Text>, c: Option<Text>)
    ensures Prepend(a, Prepend(b, c)) == Prepend(Prepend(a, b), c)
  {
    if a.Some? && b.Some? && c.Some? {
      assert a.value + (b.value + c.value) == a.value + b.value + c.value;
    }
  }

  // ----- what escapes mean

  const HEX: Text := "0123456789abcdef"

  function HexChar(n: nat): Byte
    requires n < 16
  {
    HEX[n]
  }

  /** The four digits of a `\u` escape. */
  function Hex4(n: nat): (r: Text)
    requires n < 0x1_0000
    ensures |r| == 4
  {
    [HexChar(n / 16 / 16 / 16), HexChar(n / 16 / 16 % 16), HexChar(n / 16 % 16), HexChar(n % 16)]
  }

  function LongForm(digits: Text): Text { ['\\', 'u'] + digits }

  lemma HexDigit(n: nat)
    requires n < 16
    ensures IsHex(HexChar(n)) && HexValue(HexChar(n)) == n && HexChar(n) == HEX[n] && HEX[0] == '0'
  {
  }

  lemma LongPiece(digits: Text, rest: Text)
    requires |digits| == 4 && (forall i :: 0 <= i < 4 ==> IsHex(digits[i])) && IsBody(rest)
    ensures var raw := LongForm(digits) + rest;
            IsBody(raw) && Unescape(raw) == Prepend(Utf8(CodePoint(digits, 0)), Unescape(rest))
  {
    var raw := LongForm(digits) + rest;
    assert raw[6..] == rest;
    assert raw[2] == digits[0] && raw[3] == digits[1] && raw[4] == digits[2] && raw[5] == digits[3];
    assert HexFour(raw, 2) && IsBody(raw);
    hide Utf8;
  }

  /** A `\u` escape stands for the character with that number. */
  lemma LongEscape(n: nat, rest: Text)
    requires n < 0x1_0000 && IsBody(rest)
    ensures var raw := LongForm(Hex4(n)) + rest;
            IsBody(raw) && Unescape(raw) == Prepend(Utf8(n), Unescape(rest))
  {
    hide HexChar, HexValue, IsHex, Utf8, IsBody, Unescape;
    HexDigit(n / 16 / 16 / 16);
    HexDigit(n / 16 / 16 % 16);
    HexDigit(n / 16 % 16);
    HexDigit(n % 16);
    LongPiece(Hex4(n), rest);
  }

  /** The short escapes of section 7 of RFC 8259 and the characters they are short for. */
  const SHORT_FORMS: set<(Byte, nat)> :=
    {('"', 0x22), ('\\', 0x5c), ('/', 0x2f), ('b', 0x8), ('f', 0xc), ('n', 0xa), ('r', 0xd), ('t', 0x9)}

  /** Wherever it stands, a short escape decodes like its long form. */
  lemma ShortEscapeIsLong(c: Byte, n: nat, rest: Text)
    requires (c, n) in SHORT_FORMS && IsBody(rest)
    ensures var short, long := ['\\', c] + rest, LongForm(Hex4(n)) + rest;
            IsBody(short) && IsBody(long) && Unescape(short) == Unescape(long)
  {
    ShortCharacter(c, n);
    hide Hex4, LongForm, Utf8, SimpleEscape;
    LongEscape(n, rest);
    ShortPiece(c, rest);
  }

  lemma ShortCharacter(c: Byte, n: nat)
    requires (c, n) in SHORT_FORMS
    ensures n < 128 && c != 'u' && IsSimpleEscape(c) && SimpleEscape(c) == Some(n as char) && Utf8(n) == Some([n as char])
  {
  }

  lemma ShortPiece(c: Byte, rest: Text)
    requires c != 'u' && IsSimpleEscape(c) && IsBody(rest) && SimpleEscape(c).Some?
    ensures var raw := ['\\', c] + rest;
            IsBody(raw) && Unescape(raw) == Prepend(Some([SimpleEscape(c).value]), Unescape(rest))
  {
    hide SimpleEscape;
    var raw := ['\\', c] + rest;
    assert raw[2..] == rest && IsBody(raw);
  }

  function LowerCase(c: Byte): Byte { if 'A' <= c <= 'F' then (c as int + 32) as char else c }

  lemma SameHexValue(c: Byte, d: Byte)
    requires IsHex(c) && IsHex(d) && LowerCase(c) == LowerCase(d)
    ensures HexValue(c) == HexValue(d)
  {
  }

  /** The case of hexadecimal digits does not matter. */
  lemma HexCaseIgnored(digits: Text, other: Text, rest: Text)
    requires |digits| == |other| == 4 && IsBody(rest)
    requires forall i :: 0 <= i < 4 ==> IsHex(digits[i]) && IsHex(other[i]) && LowerCase(digits[i]) == LowerCase(other[i])
    ensures IsBody(LongForm(digits) + rest) && IsBody(LongForm(other) + rest)
    ensures Unescape(LongForm(digits) + rest) == Unescape(LongForm(other) + rest)
  {
    hide Utf8, Unescape, IsBody, IsHex, HexValue;
    LongPiece(digits, rest);
    LongPiece(other, rest);
    forall i | 0 <= i < 4 ensures HexValue(digits[i]) == HexValue(other[i]) { SameHexValue(digits[i], other[i]); }
  }

  /** Any other character stands for itself, and a backslash before NUL for nothing. */
  lemma PlainCharacter(c: Byte, rest: Text)
    requires IsBody(rest)
    ensures c >= ' ' && c != '"' && c != '\\' ==>
              IsBody([c] + rest) && Unescape([c] + rest) == Prepend(Some([c]), Unescape(rest))
    ensures IsBody(['\\', '\0'] + rest) && Unescape(['\\', '\0'] + rest) == None
  {
    assert ([c] + rest)[1..] == rest && (['\\', '\0'] + rest)[2..] == rest;
  }

  /** `append_utf8` */
  method AppendUtf8(output: array<Byte>, offset: nat, code: nat) returns (ok: bool, next: nat)
    requires offset <= output.Length
    modifies output
    ensures ok <==> Utf8(code).Some? && offset + |Utf8(code).value| < output.Length
    ensures ok ==> next == offset + |Utf8(code).value| && output[..next] == old(output[..offset]) + Utf8(code).value
    ensures !ok ==> next == offset && output[..] == old(output[..])
  {
    next := offset;
    if code == 0 { return false, next; }
    var bytes;
    if code <= 0x7f { bytes := 1; }
    else if code <= 0x7ff { bytes := 2; }
    else if code <= 0xffff && !(0xd800 <= code <= 0xdfff) { bytes := 3; }
    else { return false, next; }
    if offset + bytes >= output.Length { return false, next; }
    if bytes == 1 {
      output[next] := code as char;
    } else if bytes == 2 {
      output[next] := (0xc0 + code / 64) as char;
      output[next + 1] := (0x80 + code % 64) as char;
    } else {
      output[next] := (0xe0 + code / 4096) as char;
      output[next + 1] := (0x80 + code / 64 % 64) as char;
      output[next + 2] := (0x80 + code % 64) as char;
    }
    next := next + bytes;
    return true, next;
  }

  /** The body a string token refers to is one the tokenizer scanned. */
  predicate Scanned(document: Text, token: Token) {
    token.kind == String && 0 <= token.start <= token.end ==>
      token.end <= |document| && IsBody(document[token.start..token.end])
  }

  /** One round of the copying loop: the character or escape at `index`. */
  method CopyPiece(document: Text, index: nat, end: nat, output: array<Byte>, offset: nat)
    returns (ok: bool, next: nat, newOffset: nat)
    requires index < end <= |document| && offset < output.Length && IsBody(document[index..end])
    modifies output
    ensures ok <==> DecodePiece(document[index..end]).Some?
                    && offset + |DecodePiece(document[index..end]).value| < output.Length
    ensures ok ==> next == index + Piece(document[index..end])
    ensures ok ==> newOffset == offset + |DecodePiece(document[index..end]).value|
    ensures ok ==> output[..newOffset] == old(output[..offset]) + DecodePiece(document[index..end]).value
  {
    ghost var rest := document[index..end];
    assert forall i :: 0 <= i < |rest| ==> rest[i] == document[index + i];
    next, newOffset := index, offset;
    var byte := document[next];
    if byte != '\\' {
      if newOffset + 1 >= output.Length { return false, next, newOffset; }
      output[newOffset] := byte;
      return true, next + 1, newOffset + 1;
    }
    next := next + 1;
    var escape := document[next];
    if escape == 'u' {
      var code := CodePoint(document, next + 1);
      assert code == CodePoint(rest, 2);
      ok, newOffset := AppendUtf8(output, newOffset, code);
      return ok, next + 5, newOffset;
    }
    var decoded := SimpleEscape(escape);
    if decoded.None? || newOffset + 1 >= output.Length { return false, next, newOffset; }
    output[newOffset] := decoded.value;
    return true, next + 1, newOffset + 1;
  }

  /** `cp0_json_copy_string`: succeeds exactly when the decoded bytes and their NUL fit. */
  method CopyString(document: Text, token: Token, output: array<Byte>) returns (ok: bool)
    requires Scanned(document, token)
    modifies output
    ensures ok <==> token.kind == String && 0 <= token.start <= token.end
                    && Unescape(document[token.start..token.end]).Some?
                    && |Unescape(document[token.start..token.end]).value| < output.Length
    ensures ok ==> var text := Unescape(document[token.start..token.end]).value;
                   output[..|text|] == text && output[|text|] == '\0'
  {
    hide IsBody, DecodePiece, Piece;
    if output.Length == 0 || token.kind != String || token.start < 0 || token.end < token.start { return false; }
    ghost var raw := document[token.start..token.end];
    var offset: nat, index := 0, token.start;
    assert Unescape(raw).Some? ==> [] + Unescape(raw).value == Unescape(raw).value;
    while index < token.end
      invariant token.start <= index <= token.end && offset < output.Length
      invariant IsBody(document[index..token.end])
      invariant Unescape(raw) == Prepend(Some(output[..offset]), Unescape(document[index..token.end]))
      decreases token.end - index
    {
      ghost var rest := document[index..token.end];
      ghost var tail := rest[Piece(rest)..];
      PrependAssociates(Some(output[..offset]), DecodePiece(rest), Unescape(tail));
      assert tail == document[index + Piece(rest)..token.end];
      var copied;
      copied, index, offset := CopyPiece(document, index, token.end, output, offset);
      if !copied { return false; }
    }
    assert output[..offset] + [] == output[..offset];
    output[offset] := '\0';
    return true;
  }

  // ----- numbers

  predicate IsDigit(c: Byte) { '0' <= c <= '9' }

  function Decimal(text: Text): nat
    requires forall i :: 0 <= i < |text| ==> IsDigit(text[i])
  {
    if text == [] then 0
    else
      assert IsDigit(text[|text| - 1]);
      Decimal(text[..|text| - 1]) * 10 + (text[|text| - 1] as int - '0' as int)
  }

  /** A longer run of digits is never worth less. */
  lemma {:induction false} DecimalGrows(text: Text, k: nat)
    requires k <= |text| && forall i :: 0 <= i < |text| ==> IsDigit(text[i])
    ensures Decimal(text[..k]) <= Decimal(text)
    decreases |text| - k
  {
    if k == |text| {
      assert text[..k] == text;
    } else {
      DecimalGrows(text, k + 1);
      assert text[..k + 1][..k] == text[..k];
    }
  }

  /** `cp0_json_get_u64`: exactly the unsigned decimals below 2^64. */
  method GetU64(document: Text, token: Token) returns (r: Option<nat>)
    requires token.kind == Primitive && 0 <= token.start < token.end ==> token.end <= |document|
    ensures r.Some? <==>
            && token.kind == Primitive && 0 <= token.start < token.end
            && (forall i :: 0 <= i < token.end - token.start ==> IsDigit(document[token.start..token.end][i]))
            && Decimal(document[token.start..token.end]) < UINT64_SIZE
    ensures r.Some? ==> r.value == Decimal(document[token.start..token.end])
  {
    if token.kind != Primitive || token.start < 0 || token.end <= token.start { return None; }
    ghost var text := document[token.start..token.end];
    var result := 0;
    var index := token.start;
    while index < token.end
      invariant token.start <= index <= token.end
      invariant forall i :: 0 <= i < index - token.start ==> IsDigit(text[i])
      invariant result < UINT64_SIZE && result == Decimal(text[..index - token.start])
    {
      var byte := document[index];
      ghost var k := index - token.start;
      assert byte == text[k];
      if byte < '0' || byte > '9' { return None; }
      var digit := byte as int - '0' as int;
      assert text[..k + 1][..k] == text[..k];
      assert Decimal(text[..k + 1]) == result * 10 + digit;
      if result > (UINT64_SIZE - 1 - digit) / 10 {
        if forall i :: 0 <= i < |text| ==> IsDigit(text[i]) { DecimalGrows(text, k + 1); }
        return None;
      }
      result := result * 10 + digit;
      index := index + 1;
    }
    assert text[..|text|] == text;
    return Some(result);
  }
}
