/** The index loops of the strict JSON scanner, proved against the suffix functions (frontend/src/transferProtocol.ts).
    */
module JsonScanner {
  import opened Outcomes
  import opened Bytes
  import opened Utf
  import opened JsonText

  // An end index stands for the text that follows it.
  ghost predicate EndsLike(value: Text, end: Result<nat>, rest: Result<Text>) {
    match end
    case Err(c) => rest == Err(c)
    case Ok(i) => i <= |value| && rest == Ok(value[i..])
  }

  lemma Tail(value: Text, index: nat)
    requires index < |value|
    ensures value[index..] != [] && value[index..][0] == value[index] && value[index..][1..] == value[index + 1..]
  {
  }

  lemma Later(value: Text, index: nat, n: nat)
    requires index + n <= |value|
    ensures value[index..][n..] == value[index + n..] && value[index..][..n] == value[index..index + n]
  {
  }

  lemma {:induction false} BlanksEnd(value: Text, start: nat, index: nat)
    requires start <= index <= |value| && forall i :: start <= i < index ==> Blank(value[i])
    requires index < |value| ==> !Blank(value[index])
    ensures SkipBlanks(value[start..]) == value[index..]
    decreases index - start
  {
    if start < index {
      Tail(value, start);
      BlanksEnd(value, start + 1, index);
    } else if index < |value| {
      Tail(value, start);
    }
  }

  method SkipWhitespace(value: Text, start: nat) returns (index: nat)
    requires start <= |value|
    ensures start <= index <= |value| && value[index..] == SkipBlanks(value[start..])
  {
    index := start;
    while index < |value| && Blank(value[index])
      invariant start <= index <= |value|
      invariant forall i :: start <= i < index ==> Blank(value[i])
    {
      index := index + 1;
    }
    BlanksEnd(value, start, index);
  }

  method ScanJsonString(value: Text, start: nat) returns (end: Result<nat>)
    requires start < |value|
    ensures EndsLike(value, end, ScanString(value[start + 1..])) && (end.Ok? ==> start < end.value)
  {
    hide HexUnit;
    var index := start + 1;
    while index < |value|
      invariant start < index <= |value|
      invariant ScanString(value[start + 1..]) == ScanString(value[index..])
    {
      Tail(value, index);
      var unit := value[index];
      if unit == QUOTE {
        return Ok(index + 1);
      }
      if unit < 0x20 {
        return Err("invalid_json");
      }
      if unit == BACKSLASH {
        index := index + 1;
        if index >= |value| {
          return Err("invalid_json");
        }
        var escape := value[index];
        Later(value, index - 1, 2);
        if escape == 0x75 {
          var digits := value[index + 1..if index + 5 < |value| then index + 5 else |value|];
          SameHex(value[index + 1..], digits);
          if HexUnit(digits).None? {
            return Err("invalid_json");
          }
          Later(value, index - 1, 6);
          index := index + 4;
        } else if escape !in {QUOTE, BACKSLASH, 0x2F, 0x62, 0x66, 0x6E, 0x72, 0x74} {
          return Err("invalid_json");
        }
      }
      index := index + 1;
    }
    return Err("invalid_json");
  }

  lemma SameHex(s: Text, digits: Text)
    requires digits == s[..if |s| < 4 then |s| else 4]
    ensures HexUnit(digits) == HexUnit(s)
    ensures HexUnit(s).Some? ==> |s| >= 4
  {
  }

  // The host's parser on the slice that holds exactly a string.
  lemma {:induction false} StringSlice(s: Text)
    requires ParseString(s).Ok?
    ensures var (t, rest) := ParseString(s).value; ParseString(s[..|s| - |rest|]) == Ok((t, []))
    decreases |s|
  {
    hide HexUnit;
    var (t, rest) := ParseString(s).value;
    var slice := s[..|s| - |rest|];
    if s[0] == QUOTE {
      assert slice[1..] == [];
    } else if s[0] != BACKSLASH {
      StringSlice(s[1..]);
      assert slice[1..] == s[1..][..|s[1..]| - |rest|];
    } else if s[1] == 0x75 {
      StringSlice(s[6..]);
      SameHex(s[2..], s[2..][..4]);
      SameHex(slice[2..], s[2..][..4]);
      assert slice[6..] == s[6..][..|s[6..]| - |rest|];
    } else {
      StringSlice(s[2..]);
      assert slice[2..] == s[2..][..|s[2..]| - |rest|];
    }
  }

  /** scanJsonValue: the end index it returns, or the error it throws, is what the specification scans from the start.
      */
  method ScanJsonValue(value: Text, start: nat) returns (end: Result<nat>)
    requires start <= |value|
    ensures EndsLike(value, end, Scan(value[start..])) && (end.Ok? ==> start < end.value)
    decreases |value| - start, 0
  {
    hide ScanString, ScanItems, ScanMembers, NumberLength, SkipBlanks;
    var index := SkipWhitespace(value, start);
    var t := value[index..];
    if index == |value| {
      return Err("invalid_json");
    }
    Tail(value, index);
    var first := value[index];
    if first == QUOTE {
      end := ScanJsonString(value, index);
      return;
    }
    if first == OPEN_ARRAY || first == OPEN_OBJECT {
      var cursor := SkipWhitespace(value, index + 1);
      if cursor < |value| {
        Tail(value, cursor);
        if value[cursor] == if first == OPEN_ARRAY then CLOSE_ARRAY else CLOSE_OBJECT {
          return Ok(cursor + 1);
        }
      }
      if first == OPEN_ARRAY {
        end := ScanArray(value, cursor);
      } else {
        end := ScanObject(value, cursor);
      }
      return;
    }
    end := ScanWord(value, index);
  }

  method ScanWord(value: Text, index: nat) returns (end: Result<nat>)
    requires index < |value|
    ensures end.Ok? ==> index < end.value <= |value|
    ensures var t := value[index..];
            EndsLike(value, end,
                     if StartsWith(t, TRUE) then Ok(t[4..]) else if StartsWith(t, FALSE) then Ok(t[5..])
                     else if StartsWith(t, NULL) then Ok(t[4..])
                     else if NumberLength(t) == 0 then Err("invalid_json") else Ok(t[NumberLength(t)..]))
  {
    hide NumberLength;
    var t := value[index..];
    if StartsWith(t, TRUE) || StartsWith(t, NULL) {
      Later(value, index, 4);
      return Ok(index + 4);
    }
    if StartsWith(t, FALSE) {
      Later(value, index, 5);
      return Ok(index + 5);
    }
    var n := NumberLength(t);
    Later(value, index, n);
    return if n == 0 then Err("invalid_json") else Ok(index + n);
  }

  // The array loop of scanJsonValue, from the first item on.
  method ScanArray(value: Text, start: nat) returns (end: Result<nat>)
    requires start <= |value|
    ensures EndsLike(value, end, ScanItems(value[start..])) && (end.Ok? ==> start < end.value)
    decreases |value| - start, 1
  {
    hide Scan, SkipBlanks;
    var cursor := start;
    while true
      invariant start <= cursor <= |value|
      invariant ScanItems(value[start..]) == ScanItems(value[cursor..])
      decreases |value| - cursor
    {
      var item := ScanJsonValue(value, cursor);
      if item.Err? {
        return item;
      }
      cursor := SkipWhitespace(value, item.value);
      if cursor == |value| {
        return Err("invalid_json");
      }
      Tail(value, cursor);
      if value[cursor] == CLOSE_ARRAY {
        return Ok(cursor + 1);
      }
      if value[cursor] != COMMA {
        return Err("invalid_json");
      }
      cursor := SkipWhitespace(value, cursor + 1);
      if cursor < |value| {
        Tail(value, cursor);
        if value[cursor] == CLOSE_ARRAY {
          return Err("invalid_json");
        }
      }
    }
  }

  // JSON.parse on the slice between two indices, for an object key.
  method ParseKey(value: Text, start: nat, end: nat) returns (key: Option<Text>)
    requires start < end <= |value| && value[start] == QUOTE && ScanString(value[start + 1..]) == Ok(value[end..])
    ensures ParseString(value[start + 1..]).Ok? && key == Some(ParseString(value[start + 1..]).value.0)
  {
    hide ScanString, ParseString, ParseItems, ParseMembers, NumberLength, NumberValue;
    var slice := value[start..end];
    var parsed := Parse(slice, false);
    ghost var s := value[start + 1..];
    StringScans(s);
    StringSlice(s);
    assert |s| - |value[end..]| == end - start - 1;
    assert slice == [QUOTE] + s[..end - start - 1];
    OpeningParses(QUOTE, s[..end - start - 1], false);
    key := if parsed.Ok? && parsed.value.0.Str? && parsed.value.1 == [] then Some(parsed.value.0.text) else None;
  }

  // The object loop of scanJsonValue, from the first key on.
  method ScanObject(value: Text, start: nat) returns (end: Result<nat>)
    requires start <= |value|
    ensures EndsLike(value, end, ScanMembers(value[start..], {})) && (end.Ok? ==> start < end.value)
    decreases |value| - start, 1
  {
    hide Scan, SkipBlanks, ScanString, ParseString;
    var keys: set<Text> := {};
    var cursor := start;
    while true
      invariant start <= cursor <= |value|
      invariant ScanMembers(value[start..], {}) == ScanMembers(value[cursor..], keys)
      decreases |value| - cursor
    {
      if cursor == |value| {
        return Err("invalid_json");
      }
      Tail(value, cursor);
      if value[cursor] != QUOTE {
        return Err("invalid_json");
      }
      var keyEnd := ScanJsonString(value, cursor);
      if keyEnd.Err? {
        return keyEnd;
      }
      var key := ParseKey(value, cursor, keyEnd.value);
      if key.None? {
        return Err("invalid_json");
      }
      if key.value in keys {
        return Err("duplicate_json_key");
      }
      cursor := SkipWhitespace(value, keyEnd.value);
      if cursor == |value| {
        return Err("invalid_json");
      }
      Tail(value, cursor);
      if value[cursor] != COLON {
        return Err("invalid_json");
      }
      var member := ScanJsonValue(value, cursor + 1);
      if member.Err? {
        return member;
      }
      keys := keys + {key.value};
      cursor := SkipWhitespace(value, member.value);
      if cursor == |value| {
        return Err("invalid_json");
      }
      Tail(value, cursor);
      if value[cursor] == CLOSE_OBJECT {
        return Ok(cursor + 1);
      }
      if value[cursor] != COMMA {
        return Err("invalid_json");
      }
      cursor := SkipWhitespace(value, cursor + 1);
      if cursor < |value| {
        Tail(value, cursor);
        if value[cursor] == CLOSE_OBJECT {
          return Err("invalid_json");
        }
      }
    }
  }

  /** parseStrictJson */
  method ParseStrictJson(bytes: Bytes) returns (r: Result<Json>)
    ensures r == ParseStrict(bytes)
  {
    hide Scan, Parse, SkipBlanks;
    var decoded := Decoded(bytes);
    if decoded.None? {
      return Err("invalid_json");
    }
    var text := decoded.value;
    if text != [] && text[0] == 0xFEFF {
      return Err("invalid_json");
    }
    var scanned := ScanJsonValue(text, 0);
    assert text[0..] == text;
    if scanned.Err? {
      return Err(scanned.code);
    }
    var end := SkipWhitespace(text, scanned.value);
    if end != |text| {
      assert text[end..] != [];
      return Err("invalid_json");
    }
    var parsed := Parse(text, false);
    if parsed.Err? || SkipBlanks(parsed.value.1) != [] {
      return Err("invalid_json");
    }
    return Ok(parsed.value.0);
  }

  /** parseCanonicalJson */
  method ParseCanonicalJson(bytes: Bytes) returns (r: Result<Json>)
    ensures r == ParseCanonical(bytes)
  {
    hide ParseStrict, CanonicalBytes;
    var parsed := ParseStrictJson(bytes);
    if parsed.Err? {
      return parsed;
    }
    var canonical := CanonicalBytes(parsed.value);
    if canonical.Err? {
      return Err(canonical.code);
    }
    return if canonical.value != bytes then Err("non_canonical_json") else parsed;
  }
}
