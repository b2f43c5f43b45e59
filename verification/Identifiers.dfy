/**
 Reverse-domain identifiers. Two scanners of the source decide them in one pass:
 `valid_app_id` of system-shell/src/appd_client.c and `valid_intent_action` of
 app-runtime/src/broker_client.c. The compositor's `sanitize_app_id` passes them
 through unchanged.
 */
module Identifiers {
  import opened Common

  predicate IsLower(c: Byte) { 'a' <= c <= 'z' }

  predicate IsLabelByte(c: Byte) { IsLower(c) || '0' <= c <= '9' || c == '-' }

  predicate IsLabel(part: Text) {
    && 1 <= |part| <= 32 && IsLower(part[0]) && part[|part| - 1] != '-'
    && forall i :: 0 <= i < |part| ==> IsLabelByte(part[i])
  }

  function Join(labels: seq<Text>): Text
    requires labels != []
  {
    if |labels| == 1 then labels[0] else labels[0] + "." + Join(labels[1..])
  }

  predicate AllLabels(labels: seq<Text>) { forall i :: 0 <= i < |labels| ==> IsLabel(labels[i]) }

  /** At least three labels, joined by dots. */
  ghost predicate IsIdentifier(text: Text) {
    exists labels: seq<Text> :: |labels| >= 3 && AllLabels(labels) && text == Join(labels)
  }

  // ----- the only way to read a text as labels

  /** The dot-separated parts of `current + rest`, where `current` is already read. */
  function Parts(current: Text, rest: Text): (r: seq<Text>)
    ensures r != []
    decreases |rest|
  {
    if rest == [] then [current]
    else if rest[0] == '.' then [current] + Parts([], rest[1..])
    else Parts(current + [rest[0]], rest[1..])
  }

  lemma JoinCons(first: Text, labels: seq<Text>)
    requires labels != []
    ensures Join([first] + labels) == first + "." + Join(labels)
  {
    assert ([first] + labels)[1..] == labels;
  }

  lemma JoinOne(part: Text)
    ensures Join([part]) == part
  {
  }

  lemma {:induction false} JoinParts(current: Text, rest: Text)
    ensures Join(Parts(current, rest)) == current + rest
    decreases |rest|
  {
    hide Join;
    if rest == [] {
      JoinOne(current);
    } else if rest[0] == '.' {
      JoinParts([], rest[1..]);
      JoinCons(current, Parts([], rest[1..]));
      assert current + "." + ([] + rest[1..]) == current + rest;
    } else {
      JoinParts(current + [rest[0]], rest[1..]);
      assert current + [rest[0]] + rest[1..] == current + rest;
    }
  }

  lemma {:induction false} PartsSkip(current: Text, part: Text, rest: Text)
    requires '.' !in part
    ensures Parts(current, part + rest) == Parts(current + part, rest)
    decreases |part|
  {
    if part == [] {
      assert part + rest == rest && current + part == current;
    } else {
      assert part == [part[0]] + part[1..];
      assert (part + rest)[1..] == part[1..] + rest;
      PartsSkip(current + [part[0]], part[1..], rest);
      assert current + [part[0]] + part[1..] == current + part;
    }
  }

  lemma {:induction false} PartsOfJoin(labels: seq<Text>)
    requires labels != [] && AllLabels(labels)
    ensures Parts([], Join(labels)) == labels
  {
    assert '.' !in labels[0];
    if |labels| == 1 {
      assert labels[0] + [] == labels[0] && [] + labels[0] == labels[0] && labels == [labels[0]];
      PartsSkip([], labels[0], []);
    } else {
      var tail := "." + Join(labels[1..]);
      assert labels[0] + "." + Join(labels[1..]) == labels[0] + tail && [] + labels[0] == labels[0];
      PartsSkip([], labels[0], tail);
      assert tail[1..] == Join(labels[1..]);
      PartsOfJoin(labels[1..]);
      assert labels == [labels[0]] + labels[1..];
    }
  }

  lemma IdentifierParts(text: Text)
    ensures IsIdentifier(text) <==> |Parts([], text)| >= 3 && AllLabels(Parts([], text))
  {
    JoinParts([], text);
    assert [] + text == text;
    if IsIdentifier(text) {
      var labels: seq<Text> :| |labels| >= 3 && AllLabels(labels) && text == Join(labels);
      PartsOfJoin(labels);
    }
  }

  lemma {:induction false} FirstPart(current: Text, rest: Text)
    ensures |Parts(current, rest)[0]| >= |current| && Parts(current, rest)[0][..|current|] == current
    decreases |rest|
  {
    if rest != [] && rest[0] != '.' {
      FirstPart(current + [rest[0]], rest[1..]);
      var first := Parts(current, rest)[0];
      assert first[..|current|] == first[..|current| + 1][..|current|];
    }
  }

  /** What one scan has seen: complete labels, then the label it is in. */
  ghost predicate Progress(text: Text, index: nat, done: seq<Text>, current: Text) {
    && index <= |text| && Parts([], text) == done + Parts(current, text[index..])
    && AllLabels(done)
    && (current != [] ==> IsLower(current[0])) && (forall i :: 0 <= i < |current| ==> IsLabelByte(current[i]))
    && |current| <= index && current == text[index - |current|..index]
  }

  /** A part that cannot become a label refutes the whole text. */
  lemma Refuted(text: Text, index: nat, done: seq<Text>, current: Text, rest: Text)
    requires Parts([], text) == done + Parts(current, rest)
    requires |current| > 32 || (current != [] && !IsLower(current[0]))
             || (exists i :: 0 <= i < |current| && !IsLabelByte(current[i]))
             || ((rest == [] || rest[0] == '.') && !IsLabel(current))
    ensures !IsIdentifier(text)
  {
    IdentifierParts(text);
    FirstPart(current, rest);
    var first := Parts([], text)[|done|];
    assert first == Parts(current, rest)[0];
    assert forall i :: 0 <= i < |current| ==> current[i] == first[..|current|][i];
    assert !IsLabel(first);
  }

  lemma PartsStep(current: Text, rest: Text)
    requires rest != []
    ensures Parts(current, rest) ==
            if rest[0] == '.' then [current] + Parts([], rest[1..]) else Parts(current + [rest[0]], rest[1..])
  {
  }

  lemma NextByte(text: Text, index: nat, done: seq<Text>, current: Text)
    requires Progress(text, index, done, current) && index < |text|
    ensures text[index] != '.' ==>
      Parts([], text) == done + Parts(current + [text[index]], text[index + 1..])
      && current + [text[index]] == text[index - |current|..index + 1]
    ensures text[index] == '.' ==> Parts([], text) == (done + [current]) + Parts([], text[index + 1..])
  {
    hide Parts, AllLabels;
    PartsStep(current, text[index..]);
    assert text[index..][0] == text[index] && text[index..][1..] == text[index + 1..];
  }

  /** What the tests of the scan say about the label it is in. */
  lemma CurrentLabel(text: Text, index: nat, done: seq<Text>, current: Text)
    requires Progress(text, index, done, current)
    ensures IsLabel(current) <==> 1 <= |current| <= 32 && text[index - 1] != '-'
  {
    if current != [] { assert current[|current| - 1] == text[index - 1]; }
  }

  lemma AtDot(text: Text, index: nat, done: seq<Text>, current: Text)
    requires Progress(text, index, done, current) && index < |text| && text[index] == '.'
    ensures if 1 <= |current| <= 32 && text[index - 1] != '-'
            then Progress(text, index + 1, done + [current], [])
            else !IsIdentifier(text)
  {
    hide Parts, IsIdentifier;
    CurrentLabel(text, index, done, current);
    NextByte(text, index, done, current);
    if !IsLabel(current) { Refuted(text, index, done, current, text[index..]); }
  }

  lemma AtByte(text: Text, index: nat, done: seq<Text>, current: Text)
    requires Progress(text, index, done, current) && index < |text| && text[index] != '.'
    ensures if IsLabelByte(text[index]) && (current != [] || IsLower(text[index]))
            then Progress(text, index + 1, done, current + [text[index]])
            else !IsIdentifier(text)
  {
    hide Parts, IsIdentifier;
    var next := current + [text[index]];
    NextByte(text, index, done, current);
    assert next[|current|] == text[index];
    if !(IsLabelByte(text[index]) && (current != [] || IsLower(text[index]))) {
      Refuted(text, index, done, next, text[index + 1..]);
    }
  }

  lemma TooLong(text: Text, index: nat, done: seq<Text>, current: Text)
    requires Progress(text, index, done, current) && |current| > 32
    ensures !IsIdentifier(text)
  {
    Refuted(text, index, done, current, text[index..]);
  }

  lemma Started(text: Text)
    ensures Progress(text, 0, [], [])
  {
    assert text[0..] == text && [] + Parts([], text) == Parts([], text);
  }

  lemma Finished(text: Text, done: seq<Text>, current: Text)
    requires Progress(text, |text|, done, current)
    ensures IsIdentifier(text) <==> |done| >= 2 && 1 <= |current| <= 32 && text[|text| - 1] != '-'
  {
    IdentifierParts(text);
    CurrentLabel(text, |text|, done, current);
    assert text[|text|..] == [];
    assert Parts([], text) == done + [current];
    if IsIdentifier(text) { assert IsLabel((done + [current])[|done|]); }
  }

  /** `valid_app_id` accepts exactly the identifiers of at most 128 bytes. */
  method ValidAppId(id: Text) returns (valid: bool)
    requires NulFree(id)
    ensures valid <==> |id| <= 128 && IsIdentifier(id)
  {
    hide Progress, IsIdentifier;
    var parts, partLength := 1, 0;
    ghost var done: seq<Text>, current: Text := [], [];
    Started(id);
    if |id| == 0 || |id| > 128 {
      if |id| == 0 { Finished(id, [], []); }
      return false;
    }
    var index := 0;
    while index < |id|
      invariant 0 <= index <= |id| && Progress(id, index, done, current)
      invariant parts == |done| + 1 && partLength == |current| <= index
    {
      var byte := id[index];
      if byte == '.' {
        AtDot(id, index, done, current);
        if partLength == 0 || partLength > 32 || id[index - 1] == '-' { return false; }
        done, current := done + [current], [];
        parts, partLength := parts + 1, 0;
      } else {
        AtByte(id, index, done, current);
        if partLength == 0 && (byte < 'a' || byte > 'z') { return false; }
        if !(('a' <= byte <= 'z') || ('0' <= byte <= '9') || byte == '-') { return false; }
        current := current + [byte];
        partLength := partLength + 1;
      }
      index := index + 1;
    }
    Finished(id, done, current);
    return parts >= 3 && partLength > 0 && partLength <= 32 && id[|id| - 1] != '-';
  }

  /** `valid_intent_action` accepts exactly the identifiers of at most 96 bytes. */
  method ValidIntentAction(action: Text) returns (valid: bool)
    ensures valid <==> |action| <= 96 && IsIdentifier(action)
  {
    hide Progress, IsIdentifier;
    var partLength, parts := 0, 1;
    ghost var done: seq<Text>, current: Text := [], [];
    Started(action);
    if |action| == 0 || |action| > 96 {
      if |action| == 0 { Finished(action, [], []); }
      return false;
    }
    var index := 0;
    while index < |action|
      invariant 0 <= index <= |action| && Progress(action, index, done, current)
      invariant parts == |done| + 1 && partLength == |current| <= 32 && |current| <= index
    {
      var byte := action[index];
      if byte == '.' {
        AtDot(action, index, done, current);
        if partLength == 0 || action[index - 1] == '-' { return false; }
        done, current := done + [current], [];
        partLength, parts := 0, parts + 1;
      } else {
        AtByte(action, index, done, current);
        if partLength == 0 && (byte < 'a' || byte > 'z') { return false; }
        if !(('a' <= byte <= 'z') || ('0' <= byte <= '9') || byte == '-') { return false; }
        current := current + [byte];
        partLength := partLength + 1;
        if partLength > 32 {
          TooLong(action, index + 1, done, current);
          return false;
        }
      }
      index := index + 1;
    }
    Finished(action, done, current);
    return parts >= 3 && partLength > 0 && action[|action| - 1] != '-';
  }

  // ----- sanitize_app_id

  const APP_ID_MAX: nat := 128
  const FALLBACK: Text := "unknown.application"

  predicate IsSafe(c: Byte) {
    'a' <= c <= 'z' || 'A' <= c <= 'Z' || '0' <= c <= '9' || c == '.' || c == '-' || c == '_'
  }

  function SafeByte(c: Byte): Byte { if IsSafe(c) then c else '?' }

  function SafeText(text: Text): (r: Text)
    ensures |r| == (if |text| < APP_ID_MAX then |text| else APP_ID_MAX)
    ensures forall i :: 0 <= i < |r| ==> r[i] == SafeByte(text[i])
  {
    var length := if |text| < APP_ID_MAX then |text| else APP_ID_MAX;
    seq(length, i requires 0 <= i < length => SafeByte(text[i]))
  }

  function Sanitize(source: Option<Text>): Text {
    SafeText(if source.None? || source.value == [] then FALLBACK else source.value)
  }

  method SanitizeAppId(source: Option<Text>) returns (output: Text)
    requires source.Some? ==> NulFree(source.value)
    ensures output == Sanitize(source)
    ensures 1 <= |output| <= APP_ID_MAX && forall i :: 0 <= i < |output| ==> IsSafe(output[i]) || output[i] == '?'
  {
    var text := if source.None? || source.value == [] then FALLBACK else source.value;
    output := [];
    var index := 0;
    while index < APP_ID_MAX && index < |text|
      invariant 0 <= index <= APP_ID_MAX && index <= |text| && |output| == index
      invariant forall i :: 0 <= i < index ==> output[i] == SafeByte(text[i])
    {
      output := output + [SafeByte(text[index])];
      index := index + 1;
    }
  }

  lemma {:induction false} JoinIsSafe(labels: seq<Text>)
    requires labels != [] && AllLabels(labels)
    ensures |Join(labels)| >= 1 && forall i :: 0 <= i < |Join(labels)| ==> IsSafe(Join(labels)[i])
  {
    if |labels| > 1 { JoinIsSafe(labels[1..]); }
  }

  /** An application id that appd accepts reaches the shell unchanged. */
  lemma SanitizeKeepsIdentifiers(id: Text)
    requires |id| <= 128 && IsIdentifier(id)
    ensures Sanitize(Some(id)) == id
  {
    var labels: seq<Text> :| |labels| >= 3 && AllLabels(labels) && id == Join(labels);
    JoinIsSafe(labels);
    hide Join, IsSafe;
    forall i | 0 <= i < |id| ensures Sanitize(Some(id))[i] == id[i] { assert IsSafe(id[i]); }
  }

  /** A text passes unchanged exactly if it has 1 to 128 bytes, all letters, digits, dots, hyphens, underscores or marks. */
  lemma SanitizePasses(text: Text)
    ensures Sanitize(Some(text)) == text <==>
            1 <= |text| <= 128 && forall i :: 0 <= i < |text| ==>
              (IsLower(text[i]) || 'A' <= text[i] <= 'Z' || '0' <= text[i] <= '9' || text[i] in ".-_?")
  {
    var clean := Sanitize(Some(text));
    if text != [] {
      if clean == text {
        forall i | 0 <= i < |text| ensures SafeByte(text[i]) == text[i] { assert clean[i] == SafeByte(text[i]); }
      } else if |text| <= 128 {
        var i :| 0 <= i < |text| && clean[i] != text[i];
        assert SafeByte(text[i]) != text[i];
      }
    } else {
      assert |FALLBACK| > 0;
    }
  }

  /** Any other byte becomes a mark, in place, and nothing at all becomes the fallback id. */
  lemma SanitizeMarks(text: Text, i: nat)
    requires i < |text| && i < 128
    ensures i < |Sanitize(Some(text))| && (Sanitize(Some(text))[i] == text[i] || Sanitize(Some(text))[i] == '?')
    ensures Sanitize(None) == Sanitize(Some([])) == "unknown.application"
  {
    assert Sanitize(None) == SafeText(FALLBACK);
    assert forall k :: 0 <= k < |FALLBACK| ==> IsSafe(FALLBACK[k]);
    assert SafeText(FALLBACK) == FALLBACK;
  }
}
