/**
 The request builders of app-runtime/src/broker_client.c that carry binary
 data. Arguments that pass a builder's own checks always fit its buffer, and
 what was put into a request can be read back out of it.
 */
module Broker {
  import opened Common
  import opened Base64
  import opened Buffers
  import opened Identifiers
  import opened JsonScan
  import opened JsonGrammar
  import opened JsonLookup
  import opened JsonValues
  import opened Provision

  const REQUEST_BYTES: nat := 16384
  const INTENT_REQUEST_BYTES: nat := 2048
  const AUDIO_MAX_BYTES: nat := 2048
  const MUSIC_MAX_BYTES: nat := 7680
  const INTENT_MAX_PAYLOAD_BYTES: nat := 1024

  /** A built request, or the error the source returns instead. */
  datatype Outcome = InvalidArgument | Internal | Built(request: Text)

  /** `append_json_string`, which refuses control characters instead of escaping them. */
  method AppendString(request: ByteBuffer, value: Text) returns (ok: bool)
    requires request.Valid()
    modifies request`length, request.bytes
    ensures request.Valid()
    ensures ok <==> Printable(value) && |old(request.Contents())| + |Quote(Escape(value))| <= request.bytes.Length
    ensures ok ==> request.Contents() == old(request.Contents()) + Quote(Escape(value))
  {
    hide EscapeByte;
    ok := request.AppendBytes("\"");
    if !ok { return false; }
    ghost var start, done := request.Contents(), [];
    var index := 0;
    assert value[0..] == value && [] + Escape(value) == Escape(value) && start + [] == start;
    while index < |value|
      invariant 0 <= index <= |value| && request.Valid()
      invariant forall i :: 0 <= i < index ==> value[i] >= ' '
      invariant request.Contents() == start + done
      invariant Escape(value) == done + Escape(value[index..])
    {
      if value[index] < ' ' { return false; }
      assert value[index..][1..] == value[index + 1..];
      Regroup(start, done, EscapeByte(value[index]), Escape(value[index + 1..]));
      ok := AppendEscaped(request, value[index]);
      if !ok { return false; }
      done := done + EscapeByte(value[index]);
      index := index + 1;
    }
    assert done == Escape(value);
    Regroup(old(request.Contents()), "\"", done, "\"");
    ok := request.AppendBytes("\"");
  }

  method AppendEscaped(request: ByteBuffer, byte: Byte) returns (ok: bool)
    requires request.Valid() && byte >= ' '
    modifies request`length, request.bytes
    ensures request.Valid()
    ensures ok <==> |old(request.Contents())| + |EscapeByte(byte)| <= request.bytes.Length
    ensures ok ==> request.Contents() == old(request.Contents()) + EscapeByte(byte)
  {
    if byte == '"' || byte == '\\' {
      ok := request.AppendBytes("\\");
      if !ok { return false; }
    }
    ok := request.AppendBytes([byte]);
    if ok {
      assert request.Contents() == old(request.Contents()) + EscapeByte(byte);
    }
  }

  lemma DigitPlain(n: nat)
    requires n < 64
    ensures PlainName([Digit(n)]) && Digit(n) != '\0'
  {
  }

  lemma GroupPlain(group: seq<Octet>)
    requires 1 <= |group| <= 3
    ensures PlainName(EncodeGroup(group)) && NulFree(EncodeGroup(group))
  {
    hide Digit;
    var bits := Bits(group);
    DigitPlain(bits / 0x4_0000);
    DigitPlain(bits / 0x1000 % 64);
    DigitPlain(bits / 64 % 64);
    DigitPlain(bits % 64);
    forall n: nat | n < 64
      ensures Digit(n) >= ' ' && Digit(n) != '"' && Digit(n) != '\\'
    {
      DigitPlain(n);
      assert [Digit(n)][0] == Digit(n);
    }
  }

  /** Encoded text needs no escaping. */
  lemma {:induction false} EncodePlain(data: seq<Octet>)
    ensures PlainName(Encode(data)) && NulFree(Encode(data))
    decreases |data|
  {
    hide EncodeGroup;
    if data != [] {
      GroupPlain(data[..GroupSize(data)]);
      EncodePlain(data[GroupSize(data)..]);
    }
  }

  // ----- argument checks

  predicate IsKeyByte(c: Byte) {
    'A' <= c <= 'Z' || 'a' <= c <= 'z' || '0' <= c <= '9' || c == '.' || c == '_' || c == '-'
  }

  predicate IsStorageKey(key: Text) {
    1 <= |key| <= 64 && key[0] != '.' && forall i :: 0 <= i < |key| ==> IsKeyByte(key[i])
  }

  /** `valid_storage_key` */
  method ValidStorageKey(key: Text) returns (valid: bool)
    ensures valid <==> IsStorageKey(key)
  {
    if |key| == 0 || |key| > 64 || key[0] == '.' { return false; }
    var index := 0;
    while index < |key|
      invariant 0 <= index <= |key|
      invariant forall i :: 0 <= i < index ==> IsKeyByte(key[i])
    {
      if !IsKeyByte(key[index]) { return false; }
      index := index + 1;
    }
    return true;
  }

  lemma {:induction false} JoinPlain(labels: seq<Text>)
    requires labels != [] && AllLabels(labels)
    ensures PlainName(Join(labels)) && NulFree(Join(labels))
    decreases |labels|
  {
    assert forall i :: 0 <= i < |labels[0]| ==> IsLabelByte(labels[0][i]);
    if |labels| > 1 {
      JoinPlain(labels[1..]);
    }
  }

  lemma IdentifierPlain(text: Text)
    requires IsIdentifier(text)
    ensures PlainName(text) && NulFree(text)
  {
    var labels: seq<Text> :| |labels| >= 3 && AllLabels(labels) && text == Join(labels);
    JoinPlain(labels);
  }

  // ----- request texts

  const AUDIO: Text := "play-audio"
  const STEREO: Text := "play-audio-stereo48k"
  const PUT: Text := "storage-put"
  const SEND: Text := "send-intent"
  const SAMPLES: Text := "samples_base64"
  const KEY: Text := "key"
  const VALUE: Text := "value_base64"
  const ACTION: Text := "action"
  const PAYLOAD: Text := "payload_base64"

  function PlayRequest(samples: seq<Octet>): Text { Message(4, AUDIO, [Field(SAMPLES, Encode(samples))]) }

  function StereoRequest(samples: seq<Octet>): Text { Message(23, STEREO, [Field(SAMPLES, Encode(samples))]) }

  function PutRequest(key: Text, value: seq<Octet>): Text {
    Message(11, PUT, [Field(KEY, key), Field(VALUE, Encode(value))])
  }

  function SendRequest(action: Text, payload: seq<Octet>): Text {
    Message(14, SEND, [Field(ACTION, action), Field(PAYLOAD, Encode(payload))])
  }

  /** A request's opening literal, up to the start of its first value. */
  function Opening(id: Text, name: Text, member: Text): Text {
    "{\"protocol_version\":1,\"request_id\":" + id + ",\"command\":{\"name\":\"" + name + "\"" + member
  }

  const PLAY_PREFIX: Text := Opening("4", AUDIO, ",\"samples_base64\":\"")
  const STEREO_PREFIX: Text := Opening("23", STEREO, ",\"samples_base64\":\"")
  const PUT_PREFIX: Text := Opening("11", PUT, ",\"key\":")
  const PUT_BETWEEN: Text := ",\"value_base64\":\""
  const SEND_PREFIX: Text := Opening("14", SEND, ",\"action\":")
  const SEND_BETWEEN: Text := ",\"payload_base64\":\""
  const SUFFIX: Text := "\"}}\n"

  /** What stands before a member's value. */
  function MemberOpen(name: Text): Text { ",\"" + name + "\":" }

  lemma MemberParts(field: Field)
    ensures FieldText(field) == MemberOpen(field.name) + Quote(Escape(field.value))
  {
  }

  lemma EncodedFieldParts(name: Text, data: seq<Octet>)
    ensures FieldText(Field(name, Encode(data))) + "}}\n" == MemberOpen(name) + "\"" + Encode(data) + SUFFIX
  {
    hide Encode, Escape, MemberOpen;
    EncodePlain(data);
    EscapePlain(Encode(data));
    MemberParts(Field(name, Encode(data)));
    assert SUFFIX == "\"" + "}}\n";
  }

  lemma OneFieldText(id: nat, name: Text, field: Text, data: seq<Octet>)
    ensures Message(id, name, [Field(field, Encode(data))]) ==
            Prefix(id, name) + MemberOpen(field) + "\"" + Encode(data) + SUFFIX
  {
    hide Prefix, Encode, FieldText, MemberOpen;
    var fields := [Field(field, Encode(data))];
    assert fields[1..] == [];
    assert FieldsText(fields) == FieldText(fields[0]);
    EncodedFieldParts(field, data);
    assert Prefix(id, name) + FieldText(fields[0]) + "}}\n" == Prefix(id, name) + (FieldText(fields[0]) + "}}\n");
  }

  lemma TwoFieldText(id: nat, name: Text, first: Text, value: Text, second: Text, data: seq<Octet>)
    ensures Message(id, name, [Field(first, value), Field(second, Encode(data))]) ==
            Prefix(id, name) + MemberOpen(first) + Quote(Escape(value)) + (MemberOpen(second) + "\"") + Encode(data) +
            SUFFIX
  {
    hide Prefix, Encode, FieldText, MemberOpen, Quote, Escape;
    var fields := [Field(first, value), Field(second, Encode(data))];
    assert fields[1..] == [fields[1]] && fields[1..][1..] == [];
    assert FieldsText(fields[1..]) == FieldText(fields[1]) + FieldsText([]);
    assert FieldsText(fields) == FieldText(fields[0]) + FieldText(fields[1]);
    MemberParts(fields[0]);
    EncodedFieldParts(second, data);
    assert Prefix(id, name) + (FieldText(fields[0]) + FieldText(fields[1])) + "}}\n" ==
           Prefix(id, name) + FieldText(fields[0]) + (FieldText(fields[1]) + "}}\n");
  }

  /** The literals of the source are the printer's prefixes. */
  lemma OpeningText(id: nat, digits: Text, name: Text, member: Text)
    requires Digits10(id) == digits
    ensures Opening(digits, name, member) == Prefix(id, name) + member
    ensures |Opening(digits, name, member)| <= 60 + |digits| + |name| + |member|
  {
    hide Digits10;
    assert ",\"command\":{\"name\":\"" == ",\"command\":{\"name\":" + "\"";
  }

  lemma RequestNumbers()
    ensures Digits10(4) == "4" && Digits10(23) == "23" && Digits10(11) == "11" && Digits10(14) == "14"
  {
  }

  lemma SampleLiterals()
    ensures ",\"samples_base64\":\"" == MemberOpen(SAMPLES) + "\"" && |MemberOpen(SAMPLES)| <= 30
  {
  }

  lemma PutLiterals()
    ensures ",\"key\":" == MemberOpen(KEY) && PUT_BETWEEN == MemberOpen(VALUE) + "\""
    ensures |MemberOpen(KEY)| <= 30 && |PUT_BETWEEN| <= 30
  {
  }

  lemma SendLiterals()
    ensures ",\"action\":" == MemberOpen(ACTION) && SEND_BETWEEN == MemberOpen(PAYLOAD) + "\""
    ensures |MemberOpen(ACTION)| <= 30 && |SEND_BETWEEN| <= 30
  {
  }

  lemma PlayPrefixes()
    ensures PLAY_PREFIX == Prefix(4, AUDIO) + (MemberOpen(SAMPLES) + "\"") && |PLAY_PREFIX| <= 200
    ensures STEREO_PREFIX == Prefix(23, STEREO) + (MemberOpen(SAMPLES) + "\"") && |STEREO_PREFIX| <= 200
  {
    hide Opening, MemberOpen, Prefix, Digits10;
    RequestNumbers();
    SampleLiterals();
    OpeningText(4, "4", AUDIO, ",\"samples_base64\":\"");
    OpeningText(23, "23", STEREO, ",\"samples_base64\":\"");
  }

  lemma PutPrefix()
    ensures PUT_PREFIX == Prefix(11, PUT) + MemberOpen(KEY) && |PUT_PREFIX| <= 200
  {
    hide Opening, MemberOpen, Prefix, Digits10;
    RequestNumbers();
    PutLiterals();
    OpeningText(11, "11", PUT, ",\"key\":");
  }

  lemma SendPrefix()
    ensures SEND_PREFIX == Prefix(14, SEND) + MemberOpen(ACTION) && |SEND_PREFIX| <= 200
  {
    hide Opening, MemberOpen, Prefix, Digits10;
    RequestNumbers();
    SendLiterals();
    OpeningText(14, "14", SEND, ",\"action\":");
  }

  // ----- builders

  /** Prefix, encoded data, suffix: the requests that carry one binary value. */
  method BuildOne(capacity: nat, prefix: Text, data: seq<Octet>) returns (ok: bool, request: Text)
    ensures ok <==> |prefix| + |Encode(data)| + |SUFFIX| <= capacity
    ensures ok ==> request == prefix + Encode(data) + SUFFIX
  {
    hide Encode;
    var buffer := new ByteBuffer(capacity);
    ok := buffer.AppendBytes(prefix);
    assert [] + prefix == prefix;
    if ok { ok := AppendBase64(buffer, data); }
    if ok { ok := buffer.AppendBytes(SUFFIX); }
    request := if ok then buffer.bytes[..buffer.length] else [];
  }

  /** Prefix, a string, a literal, encoded data, suffix. */
  method BuildTwo(capacity: nat, prefix: Text, value: Text, between: Text, data: seq<Octet>)
    returns (ok: bool, request: Text)
    ensures ok <==> Printable(value) &&
                    |prefix| + |Quote(Escape(value))| + |between| + |Encode(data)| + |SUFFIX| <= capacity
    ensures ok ==> request == prefix + Quote(Escape(value)) + between + Encode(data) + SUFFIX
  {
    hide Encode, Escape, Quote, Printable;
    var buffer := new ByteBuffer(capacity);
    ok := buffer.AppendBytes(prefix);
    assert [] + prefix == prefix;
    if ok { ok := AppendString(buffer, value); }
    if ok { ok := buffer.AppendBytes(between); }
    if ok { ok := AppendBase64(buffer, data); }
    if ok { ok := buffer.AppendBytes(SUFFIX); }
    request := if ok then buffer.bytes[..buffer.length] else [];
  }

  lemma OneFits(id: nat, name: Text, field: Text, data: seq<Octet>, prefix: Text)
    requires prefix == Prefix(id, name) + (MemberOpen(field) + "\"") && |prefix| <= 200 && |data| <= MUSIC_MAX_BYTES
    ensures Message(id, name, [Field(field, Encode(data))]) == prefix + Encode(data) + SUFFIX
    ensures |prefix| + |Encode(data)| + |SUFFIX| <= REQUEST_BYTES
  {
    hide Encode, Message, MemberOpen, Prefix;
    OneFieldText(id, name, field, data);
    assert Prefix(id, name) + MemberOpen(field) + "\"" == prefix;
  }

  lemma PutText(key: Text, value: seq<Octet>)
    requires IsStorageKey(key) && |value| <= MAX_VALUE_BYTES
    ensures PutRequest(key, value) == PUT_PREFIX + Quote(Escape(key)) + PUT_BETWEEN + Encode(value) + SUFFIX
    ensures |PUT_PREFIX| + |Quote(Escape(key))| + |PUT_BETWEEN| + |Encode(value)| + |SUFFIX| <= REQUEST_BYTES
  {
    hide Encode, Opening, Message, Escape, Prefix, MemberOpen;
    PutPrefix();
    PutLiterals();
    TwoFieldText(11, PUT, KEY, key, VALUE, value);
    EscapePlain(key);
  }

  lemma SendText(action: Text, payload: seq<Octet>)
    requires IsIdentifier(action) && |action| <= 96 && |payload| <= INTENT_MAX_PAYLOAD_BYTES
    ensures SendRequest(action, payload) ==
            SEND_PREFIX + Quote(Escape(action)) + SEND_BETWEEN + Encode(payload) + SUFFIX
    ensures |SEND_PREFIX| + |Quote(Escape(action))| + |SEND_BETWEEN| + |Encode(payload)| + |SUFFIX| <=
            INTENT_REQUEST_BYTES
  {
    hide Encode, Opening, Message, Escape, IsIdentifier, Prefix, MemberOpen;
    SendPrefix();
    SendLiterals();
    TwoFieldText(14, SEND, ACTION, action, PAYLOAD, payload);
    IdentifierPlain(action);
    EscapePlain(action);
  }

  /** `cp0_broker_play_audio` up to the exchange: the checks alone decide whether there is a request. */
  method BuildPlayAudio(samples: seq<Octet>) returns (r: Outcome)
    ensures r == if 1 <= |samples| <= AUDIO_MAX_BYTES && |samples| % 2 == 0 then Built(PlayRequest(samples))
                 else InvalidArgument
  {
    hide Encode, Opening, Message, MemberOpen, Prefix;
    if |samples| == 0 || |samples| > AUDIO_MAX_BYTES || |samples| % 2 != 0 { return InvalidArgument; }
    PlayPrefixes();
    OneFits(4, AUDIO, SAMPLES, samples, PLAY_PREFIX);
    var ok, request := BuildOne(REQUEST_BYTES, PLAY_PREFIX, samples);
    if !ok { return InvalidArgument; }
    return Built(request);
  }

  /** `cp0_broker_play_audio_stereo_48k` up to the exchange. */
  method BuildPlayStereo(samples: seq<Octet>) returns (r: Outcome)
    ensures r == if 1 <= |samples| <= MUSIC_MAX_BYTES && |samples| % 4 == 0 then Built(StereoRequest(samples))
                 else InvalidArgument
  {
    hide Encode, Opening, Message, MemberOpen, Prefix;
    if |samples| == 0 || |samples| > MUSIC_MAX_BYTES || |samples| % 4 != 0 { return InvalidArgument; }
    PlayPrefixes();
    OneFits(23, STEREO, SAMPLES, samples, STEREO_PREFIX);
    var ok, request := BuildOne(REQUEST_BYTES, STEREO_PREFIX, samples);
    if !ok { return InvalidArgument; }
    return Built(request);
  }

  /** `cp0_broker_storage_put` up to the exchange: its internal error never happens. */
  method BuildStoragePut(key: Text, value: seq<Octet>) returns (r: Outcome)
    ensures r == if IsStorageKey(key) && 1 <= |value| <= MAX_VALUE_BYTES then Built(PutRequest(key, value))
                 else InvalidArgument
  {
    hide Encode, Opening, PutRequest, Escape, Quote;
    var valid := ValidStorageKey(key);
    if !valid || |value| == 0 || |value| > MAX_VALUE_BYTES { return InvalidArgument; }
    PutText(key, value);
    var ok, request := BuildTwo(REQUEST_BYTES, PUT_PREFIX, key, PUT_BETWEEN, value);
    if !ok { return Internal; }
    return Built(request);
  }

  /** `cp0_broker_intent_send` up to the exchange. */
  method BuildIntentSend(action: Text, payload: seq<Octet>) returns (r: Outcome)
    ensures r == if IsIdentifier(action) && |action| <= 96 && |payload| <= INTENT_MAX_PAYLOAD_BYTES
                 then Built(SendRequest(action, payload)) else InvalidArgument
  {
    hide Encode, Opening, SendRequest, Escape, Quote, IsIdentifier;
    var valid := ValidIntentAction(action);
    if !valid || |payload| > INTENT_MAX_PAYLOAD_BYTES { return InvalidArgument; }
    SendText(action, payload);
    IdentifierPlain(action);
    var ok, request := BuildTwo(INTENT_REQUEST_BYTES, SEND_PREFIX, action, SEND_BETWEEN, payload);
    if !ok { return Internal; }
    return Built(request);
  }

  // ----- reading back

  /** The text's only newline is its last byte. */
  predicate OneLine(doc: Text) {
    doc != [] && forall k :: 0 <= k < |doc| ==> (doc[k] == '\n' <==> k == |doc| - 1)
  }

  /** One line, with this number, command name and, base64-encoded in this field, this data. */
  ghost predicate Carries(doc: Text, cap: nat, id: nat, name: Text, field: Text, data: seq<Octet>) {
    && OneLine(doc) && NumberedAs(doc, cap, id) && ReadsBack(doc, cap, "name", name)
    && exists text :: ReadsBack(doc, cap, field, text) && Decode(text) == Some(data)
  }

  lemma RequestCarries(id: nat, name: Text, fields: seq<Field>, i: nat, data: seq<Octet>, cap: nat)
    requires ValidFields(name, fields) && DistinctNames(fields) && i < |fields| && fields[i].value == Encode(data)
    requires 9 + 2 * |fields| <= cap && 0 < |Message(id, name, fields)| <= INT32_MAX
    ensures Carries(Message(id, name, fields), cap, id, name, fields[i].name, data)
  {
    hide Message, ReadsBack, NumberedAs, Encode, Decode;
    var doc := Message(id, name, fields);
    NameReadsBack(id, name, fields, cap);
    IdReadsBack(id, name, fields, cap);
    FieldReadsBack(id, name, fields, cap, i);
    EncodeDecodes(data);
    forall k: nat | k < |doc|
      ensures doc[k] == '\n' <==> k == |doc| - 1
    {
      RequestIsOneLine(id, name, fields, k);
    }
  }

  lemma TwoReadBack(id: nat, name: Text, first: Text, value: Text, second: Text, data: seq<Octet>, cap: nat)
    requires PlainName(name) && PlainName(first) && PlainName(second) && NulFree(value)
    requires first != second && first != "name" && second != "name" && 13 <= cap
    requires 0 < |Message(id, name, [Field(first, value), Field(second, Encode(data))])| <= INT32_MAX
    ensures var doc := Message(id, name, [Field(first, value), Field(second, Encode(data))]);
            Carries(doc, cap, id, name, second, data) && ReadsBack(doc, cap, first, value)
  {
    hide Message, ReadsBack, Carries, Encode;
    EncodePlain(data);
    var fields := [Field(first, value), Field(second, Encode(data))];
    RequestCarries(id, name, fields, 1, data, cap);
    FieldReadsBack(id, name, fields, cap, 0);
  }

  lemma OneReadsBack(id: nat, name: Text, field: Text, data: seq<Octet>, cap: nat)
    requires PlainName(name) && PlainName(field) && field != "name" && 11 <= cap
    requires 0 < |Message(id, name, [Field(field, Encode(data))])| <= INT32_MAX
    ensures Carries(Message(id, name, [Field(field, Encode(data))]), cap, id, name, field, data)
  {
    hide Message, Carries, Encode;
    EncodePlain(data);
    RequestCarries(id, name, [Field(field, Encode(data))], 0, data, cap);
  }

  /** A put request is one line and carries its number, its name, its key and its value. */
  lemma PutReadsBack(key: Text, value: seq<Octet>, cap: nat)
    requires IsStorageKey(key) && 1 <= |value| <= MAX_VALUE_BYTES && 13 <= cap
    ensures Carries(PutRequest(key, value), cap, 11, PUT, VALUE, value)
    ensures ReadsBack(PutRequest(key, value), cap, KEY, key)
  {
    hide Message, ReadsBack, Carries, Encode, Opening, Escape, Quote;
    assert |KEY| == 3 && |VALUE| == 12 && |"name"| == 4;
    PutText(key, value);
    TwoReadBack(11, PUT, KEY, key, VALUE, value, cap);
  }

  /** A send request is one line and carries its number, its name, its action and its payload. */
  lemma SendReadsBack(action: Text, payload: seq<Octet>, cap: nat)
    requires IsIdentifier(action) && |action| <= 96 && |payload| <= INTENT_MAX_PAYLOAD_BYTES && 13 <= cap
    ensures Carries(SendRequest(action, payload), cap, 14, SEND, PAYLOAD, payload)
    ensures ReadsBack(SendRequest(action, payload), cap, ACTION, action)
  {
    hide Message, ReadsBack, Carries, Encode, Opening, Escape, Quote, IsIdentifier;
    assert |ACTION| == 6 && |PAYLOAD| == 14 && |"name"| == 4;
    SendText(action, payload);
    IdentifierPlain(action);
    TwoReadBack(14, SEND, ACTION, action, PAYLOAD, payload, cap);
  }

  /** Both play requests are one line and carry their number, their name and their samples. */
  lemma PlayReadsBack(samples: seq<Octet>, cap: nat)
    requires |samples| <= MUSIC_MAX_BYTES && 11 <= cap
    ensures Carries(PlayRequest(samples), cap, 4, AUDIO, SAMPLES, samples)
    ensures Carries(StereoRequest(samples), cap, 23, STEREO, SAMPLES, samples)
  {
    hide Message, Carries, Encode, Opening, MemberOpen, Prefix;
    assert |SAMPLES| == 14 && |"name"| == 4;
    PlayPrefixes();
    OneFits(4, AUDIO, SAMPLES, samples, PLAY_PREFIX);
    OneFits(23, STEREO, SAMPLES, samples, STEREO_PREFIX);
    OneReadsBack(4, AUDIO, SAMPLES, samples, cap);
    OneReadsBack(23, STEREO, SAMPLES, samples, cap);
  }

  /** The names the broker knows these commands and members by. */
  lemma CommandNames()
    ensures AUDIO == "play-audio" && STEREO == "play-audio-stereo48k" && SAMPLES == "samples_base64"
    ensures PUT == "storage-put" && KEY == "key" && VALUE == "value_base64"
    ensures SEND == "send-intent" && ACTION == "action" && PAYLOAD == "payload_base64"
  {
  }
}
