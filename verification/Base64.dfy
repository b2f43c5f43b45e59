/**
 The base64 codec of app-runtime/src/broker_client.c. Encoding is defined on
 24-bit groups (section 4 of RFC 4648); decoding follows the source, which
 refuses text that is not canonical (section 3.5).
 */
module Base64 {
  import opened Common
  import opened Buffers

  const MAX_VALUE_BYTES: nat := 8192
  const MAX_ENCODED: nat := (MAX_VALUE_BYTES + 2) / 3 * 4

  /** The table `alphabet`. */
  function Digit(n: nat): Byte
    requires n < 64
  {
    if n < 26 then ('A' as int + n) as char
    else if n < 52 then ('a' as int + n - 26) as char
    else if n < 62 then ('0' as int + n - 52) as char
    else if n == 62 then '+'
    else '/'
  }

  /** `decode_base64_digit` */
  function DigitValue(c: Byte): int {
    if 'A' <= c <= 'Z' then c as int - 'A' as int
    else if 'a' <= c <= 'z' then c as int - 'a' as int + 26
    else if '0' <= c <= '9' then c as int - '0' as int + 52
    else if c == '+' then 62
    else if c == '/' then 63
    else -1
  }

  lemma DigitBack(n: nat)
    requires n < 64
    ensures DigitValue(Digit(n)) == n && Digit(n) != '='
  {
  }

  lemma ValueBack(c: Byte)
    requires DigitValue(c) >= 0
    ensures DigitValue(c) < 64 && Digit(DigitValue(c)) == c && c != '='
  {
  }

  /** One to three octets as a 24-bit number, filled up with zero bits. */
  function Bits(group: seq<Octet>): (r: nat)
    requires 1 <= |group| <= 3
    ensures r < 0x100_0000
  {
    var x: int := group[0];
    var y: int := if |group| > 1 then group[1] else 0;
    var z: int := if |group| > 2 then group[2] else 0;
    x * 0x1_0000 + y * 0x100 + z
  }

  function EncodeGroup(group: seq<Octet>): (r: Text)
    requires 1 <= |group| <= 3
    ensures |r| == 4
  {
    var bits := Bits(group);
    [Digit(bits / 0x4_0000), Digit(bits / 0x1000 % 64),
     if |group| > 1 then Digit(bits / 64 % 64) else '=', if |group| > 2 then Digit(bits % 64) else '=']
  }

  function GroupSize(data: seq<Octet>): (r: nat)
    ensures r <= |data| && (data != [] ==> 1 <= r <= 3)
  {
    if |data| < 3 then |data| else 3
  }

  function Encode(data: seq<Octet>): (r: Text)
    ensures |r| == 4 * ((|data| + 2) / 3)
    decreases |data|
  {
    if data == [] then [] else EncodeGroup(data[..GroupSize(data)]) + Encode(data[GroupSize(data)..])
  }

  /** One round of the loop of `decode_base64`. */
  function DecodeGroup(text: Text, last: bool): (r: Option<seq<Octet>>)
    requires |text| == 4
    ensures r.Some? ==> 1 <= |r.value| <= 3
  {
    var padC, padD := text[2] == '=', text[3] == '=';
    var a, b := DigitValue(text[0]), DigitValue(text[1]);
    var c := if padC then 0 else DigitValue(text[2]);
    var d := if padD then 0 else DigitValue(text[3]);
    if a < 0 || b < 0 || c < 0 || d < 0 || (!last && (padC || padD)) || (padC && (!padD || b % 16 != 0)) ||
       (!padC && padD && c % 4 != 0) || (padC && !padD)
    then None
    else
      var first: Octet := a * 4 + b / 16;
      if padC then Some([first])
      else
        var second: Octet := b % 16 * 16 + c / 4;
        if padD then Some([first, second]) else Some([first, second, c % 4 * 64 + d])
  }

  function Decode(text: Text): Option<seq<Octet>>
    decreases |text|
  {
    if text == [] then Some([])
    else if |text| < 4 then None
    else
      match DecodeGroup(text[..4], |text| == 4)
      case None => None
      case Some(group) =>
        match Decode(text[4..])
        case None => None
        case Some(rest) => Some(group + rest)
  }

  /** Three octets and four digits of six bits say the same. */
  lemma Repack(x: Octet, y: Octet, z: Octet, a: nat, b: nat, c: nat, d: nat)
    requires a < 64 && b < 64 && c < 64 && d < 64
    ensures (x == a * 4 + b / 16 && y == b % 16 * 16 + c / 4 && z == c % 4 * 64 + d) <==>
            (a == x / 4 && b == x % 4 * 16 + y / 16 && c == y % 16 * 4 + z / 64 && d == z % 64)
  {
  }

  lemma SixBitDigits(a: nat, b: nat, c: nat, d: nat)
    requires b < 64 && c < 64 && d < 64
    ensures var bits := a * 0x4_0000 + b * 0x1000 + c * 64 + d;
            bits / 0x4_0000 == a && bits / 0x1000 % 64 == b && bits / 64 % 64 == c && bits % 64 == d
  {
    var bits := a * 0x4_0000 + b * 0x1000 + c * 64 + d;
    assert bits / 64 == a * 0x1000 + b * 64 + c;
    assert bits / 0x1000 == a * 64 + b;
  }

  /** The digits of the 24-bit number are the shifts and masks of the source. */
  lemma BitDigits(x: Octet, y: Octet, z: Octet)
    ensures var bits := x * 0x1_0000 + y * 0x100 + z;
            && bits / 0x4_0000 == x / 4
            && bits / 0x1000 % 64 == x % 4 * 16 + y / 16
            && bits / 64 % 64 == y % 16 * 4 + z / 64
            && bits % 64 == z % 64
  {
    var a, b, c, d := x / 4, x % 4 * 16 + y / 16, y % 16 * 4 + z / 64, z % 64;
    assert x * 0x1_0000 + y * 0x100 + z == a * 0x4_0000 + b * 0x1000 + c * 64 + d;
    SixBitDigits(a, b, c, d);
  }

  lemma GroupText(group: seq<Octet>)
    requires 1 <= |group| <= 3
    ensures var x: Octet := group[0];
            var y: Octet := if |group| > 1 then group[1] else 0;
            var z: Octet := if |group| > 2 then group[2] else 0;
            EncodeGroup(group) ==
            [Digit(x / 4), Digit(x % 4 * 16 + y / 16), if |group| > 1 then Digit(y % 16 * 4 + z / 64) else '=',
             if |group| > 2 then Digit(z % 64) else '=']
  {
    hide Digit;
    BitDigits(group[0], if |group| > 1 then group[1] else 0, if |group| > 2 then group[2] else 0);
  }

  lemma GroupDecodes(group: seq<Octet>, last: bool)
    requires 1 <= |group| <= 3 && (|group| < 3 ==> last)
    ensures DecodeGroup(EncodeGroup(group), last) == Some(group)
  {
    var x: Octet, y: Octet, z: Octet :=
      group[0], if |group| > 1 then group[1] else 0, if |group| > 2 then group[2] else 0;
    GroupText(group);
    hide Digit, DigitValue, EncodeGroup, DecodeGroup;
    var a, b, c, d := x / 4, x % 4 * 16 + y / 16, y % 16 * 4 + z / 64, z % 64;
    DigitBack(a);
    DigitBack(b);
    DigitBack(c);
    DigitBack(d);
    Repack(x, y, z, a, b, c, d);
    PadBits(x, y, z);
    var text := EncodeGroup(group);
    assert text[0] == Digit(a) && text[1] == Digit(b);
    assert text[2] == if |group| > 1 then Digit(c) else '=';
    assert text[3] == if |group| > 2 then Digit(d) else '=';
    DecodeDigits(text, last, a, b, c, d);
    if |group| == 1 {
      assert group == [x];
    } else if |group| == 2 {
      assert group == [x, y];
    } else {
      assert group == [x, y, z];
    }
  }

  lemma PadBits(x: Octet, y: Octet, z: Octet)
    ensures y == 0 ==> (x % 4 * 16 + y / 16) % 16 == 0
    ensures z == 0 ==> (y % 16 * 4 + z / 64) % 4 == 0
  {
  }

  /** The decoding of digits with given values. */
  lemma DecodeDigits(text: Text, last: bool, a: nat, b: nat, c: nat, d: nat)
    requires |text| == 4 && a < 64 && b < 64 && c < 64 && d < 64
    requires DigitValue(text[0]) == a && DigitValue(text[1]) == b
    requires text[2] == '=' || DigitValue(text[2]) == c
    requires text[3] == '=' || DigitValue(text[3]) == d
    requires text[2] == '=' ==> last && text[3] == '=' && b % 16 == 0
    requires text[3] == '=' && text[2] != '=' ==> last && c % 4 == 0
    ensures DecodeGroup(text, last) ==
            Some(if text[2] == '=' then [a * 4 + b / 16]
                 else if text[3] == '=' then [a * 4 + b / 16, b % 16 * 16 + c / 4]
                 else [a * 4 + b / 16, b % 16 * 16 + c / 4, c % 4 * 64 + d])
  {
    hide DigitValue;
  }

  lemma GroupReencodes(text: Text, last: bool)
    requires |text| == 4 && DecodeGroup(text, last).Some?
    ensures EncodeGroup(DecodeGroup(text, last).value) == text
    ensures |DecodeGroup(text, last).value| < 3 ==> last
  {
    var group := DecodeGroup(text, last).value;
    var x: Octet, y: Octet, z: Octet :=
      group[0], if |group| > 1 then group[1] else 0, if |group| > 2 then group[2] else 0;
    var a, b := DigitValue(text[0]), DigitValue(text[1]);
    var c := if text[2] == '=' then 0 else DigitValue(text[2]);
    var d := if text[3] == '=' then 0 else DigitValue(text[3]);
    ValueBack(text[0]);
    ValueBack(text[1]);
    if text[2] != '=' { ValueBack(text[2]); }
    if text[3] != '=' { ValueBack(text[3]); }
    hide Digit, DigitValue, EncodeGroup;
    GroupText(group);
    Repack(x, y, z, a, b, c, d);
  }

  lemma {:induction false} EncodeDecodes(data: seq<Octet>)
    ensures Decode(Encode(data)) == Some(data)
    decreases |data|
  {
    hide EncodeGroup, DecodeGroup;
    if data != [] {
      var size := GroupSize(data);
      var text := Encode(data);
      assert text[..4] == EncodeGroup(data[..size]) && text[4..] == Encode(data[size..]);
      GroupDecodes(data[..size], |text| == 4);
      EncodeDecodes(data[size..]);
      assert data == data[..size] + data[size..];
    }
  }

  lemma {:induction false} DecodeEncodes(text: Text)
    requires Decode(text).Some?
    ensures Encode(Decode(text).value) == text
    decreases |text|
  {
    hide EncodeGroup, DecodeGroup;
    if text != [] {
      var group := DecodeGroup(text[..4], |text| == 4).value;
      var rest := Decode(text[4..]).value;
      var data := group + rest;
      GroupReencodes(text[..4], |text| == 4);
      DecodeEncodes(text[4..]);
      assert |group| < 3 ==> rest == [];
      assert data[..GroupSize(data)] == group && data[GroupSize(data)..] == rest;
      assert text == text[..4] + text[4..];
    }
  }

  /** Decoding and encoding are inverse: every text stands for at most one value, every value has one text. */
  lemma Bijection(data: seq<Octet>, text: Text)
    ensures Decode(text) == Some(data) <==> text == Encode(data)
  {
    if Decode(text) == Some(data) {
      DecodeEncodes(text);
    } else {
      EncodeDecodes(data);
    }
  }

  /** The four characters of one round of `append_base64`. */
  method EncodeRound(input: seq<Octet>, index: nat) returns (encoded: Text)
    requires index < |input|
    ensures encoded == EncodeGroup(input[index..][..GroupSize(input[index..])])
  {
    hide Digit, EncodeGroup;
    var remaining := |input| - index;
    var first := input[index];
    var second: Octet := if remaining > 1 then input[index + 1] else 0;
    var third: Octet := if remaining > 2 then input[index + 2] else 0;
    encoded := [Digit(first / 4), Digit(first % 4 * 16 + second / 16),
                if remaining > 1 then Digit(second % 16 * 4 + third / 64) else '=',
                if remaining > 2 then Digit(third % 64) else '='];
    GroupText(input[index..][..GroupSize(input[index..])]);
  }

  /** The decoder's length limit admits the encodings of all values a store may hold, and of one byte more. */
  lemma EncodedLimit(data: seq<Octet>)
    ensures |Encode(data)| <= MAX_ENCODED <==> |data| <= 8192 + 1
  {
    hide Encode;
  }

  /** `append_base64` appends the encoding exactly when it fits. */
  method AppendBase64(request: ByteBuffer, input: seq<Octet>) returns (ok: bool)
    requires request.Valid()
    modifies request`length, request.bytes
    ensures request.Valid()
    ensures ok <==> |old(request.Contents())| + |Encode(input)| <= request.bytes.Length
    ensures ok ==> request.Contents() == old(request.Contents()) + Encode(input)
  {
    hide EncodeGroup, Encode;
    ghost var done: Text := [];
    var index := 0;
    assert input[0..] == input && [] + Encode(input) == Encode(input);
    assert request.Contents() == old(request.Contents()) + [];
    while index < |input|
      invariant 0 <= index && request.Valid()
      invariant request.Contents() == old(request.Contents()) + done
      invariant Encode(input) == done + Encode(input[Clamp(index, input)..])
    {
      var encoded := EncodeRound(input, index);
      EncodeNext(input, index);
      assert done + (encoded + Encode(input[Clamp(index + 3, input)..])) ==
             done + encoded + Encode(input[Clamp(index + 3, input)..]);
      assert old(request.Contents()) + done + encoded == old(request.Contents()) + (done + encoded);
      ok := request.AppendBytes(encoded);
      if !ok {
        return false;
      }
      done := done + encoded;
      index := index + 3;
    }
    EncodeNothing(input[Clamp(index, input)..]);
    assert done == Encode(input);
    return true;
  }

  lemma EncodeNext(input: seq<Octet>, index: nat)
    requires index < |input|
    ensures var rest := input[index..];
            Encode(rest) == EncodeGroup(rest[..GroupSize(rest)]) + Encode(input[Clamp(index + 3, input)..])
  {
    hide EncodeGroup;
    var rest := input[index..];
    assert rest[GroupSize(rest)..] == input[Clamp(index + 3, input)..];
  }

  lemma EncodeNothing(input: seq<Octet>)
    requires input == []
    ensures Encode(input) == []
  {
  }

  function Clamp(index: nat, input: seq<Octet>): nat { if index < |input| then index else |input| }

  /**
   `decode_base64` succeeds exactly on canonical text of at most the protocol's
   length whose value fits, and then leaves that value in the output.
   */
  method DecodeBase64(encoded: Text, output: array<Octet>) returns (ok: bool, length: nat)
    modifies output
    ensures ok <==> |encoded| <= MAX_ENCODED && Decode(encoded).Some? && |Decode(encoded).value| <= output.Length
    ensures ok ==> length <= output.Length && Decode(encoded) == Some(output[..length])
  {
    hide DecodeGroup;
    if |encoded| % 4 != 0 || |encoded| > MAX_ENCODED {
      if Decode(encoded).Some? {
        DecodeAligned(encoded);
      }
      return false, 0;
    }
    var offset := 0;
    var at := 0;
    assert encoded[0..] == encoded;
    AfterNothing(Decode(encoded));
    while at < |encoded|
      invariant 0 <= at <= |encoded| && at % 4 == 0 && 0 <= offset <= output.Length
      invariant Decode(encoded) == After(output[..offset], Decode(encoded[at..]))
    {
      ghost var rest := encoded[at..];
      ghost var group := DecodeGroup(rest[..4], |rest| == 4);
      ghost var before := output[..offset];
      assert rest[4..] == encoded[at + 4..] && rest[..4] == encoded[at..at + 4];
      DecodeSplit(before, rest);
      var good, next := DecodeRound(encoded, at, output, offset);
      if !good {
        return false, 0;
      }
      offset := next;
      at := at + 4;
    }
    assert encoded[at..] == [] && output[..offset] + [] == output[..offset];
    return true, offset;
  }

  /** Octets read before, then the rest if the rest could be read. */
  function After(before: seq<Octet>, rest: Option<seq<Octet>>): Option<seq<Octet>> {
    match rest
    case None => None
    case Some(data) => Some(before + data)
  }

  lemma AfterNothing(rest: Option<seq<Octet>>)
    ensures After([], rest) == rest
  {
    if rest.Some? {
      assert [] + rest.value == rest.value;
    }
  }

  lemma DecodeSplit(before: seq<Octet>, text: Text)
    requires |text| >= 4
    ensures var group := DecodeGroup(text[..4], |text| == 4);
            if group.None? then After(before, Decode(text)) == None
            else After(before, Decode(text)) == After(before + group.value, Decode(text[4..]))
  {
    hide DecodeGroup;
    var group := DecodeGroup(text[..4], |text| == 4);
    if group.Some? && Decode(text[4..]).Some? {
      var rest := Decode(text[4..]).value;
      assert before + (group.value + rest) == before + group.value + rest;
    }
  }

  lemma {:induction false} DecodeAligned(text: Text)
    requires Decode(text).Some?
    ensures |text| % 4 == 0
    decreases |text|
  {
    if text != [] {
      DecodeAligned(text[4..]);
    }
  }

  /** One group of four characters, written to the output while there is room. */
  method DecodeRound(encoded: Text, at: nat, output: array<Octet>, offset: nat) returns (ok: bool, next: nat)
    requires at + 4 <= |encoded| && offset <= output.Length
    modifies output
    ensures var group := DecodeGroup(encoded[at..at + 4], at + 4 == |encoded|);
            && (ok <==> group.Some? && offset + |group.value| <= output.Length)
            && (ok ==> next == offset + |group.value| && output[..next] == old(output[..offset]) + group.value)
  {
    var text := encoded[at..at + 4];
    var last := at + 4 == |encoded|;
    var padC, padD := text[2] == '=', text[3] == '=';
    var a, b := DigitValue(text[0]), DigitValue(text[1]);
    var c := if padC then 0 else DigitValue(text[2]);
    var d := if padD then 0 else DigitValue(text[3]);
    hide DigitValue;
    if a < 0 || b < 0 || c < 0 || d < 0 || (!last && (padC || padD)) || (padC && (!padD || b % 16 != 0)) ||
       (!padC && padD && c % 4 != 0) || (padC && !padD) {
      return false, 0;
    }
    next := offset;
    if next >= output.Length {
      return false, 0;
    }
    output[next] := a * 4 + b / 16;
    next := next + 1;
    if !padC {
      if next >= output.Length {
        return false, 0;
      }
      output[next] := b % 16 * 16 + c / 4;
      next := next + 1;
      if !padD {
        if next >= output.Length {
          return false, 0;
        }
        output[next] := c % 4 * 64 + d;
        next := next + 1;
      }
    }
    return true, next;
  }
}
