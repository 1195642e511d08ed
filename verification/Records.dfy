/** JSON objects with a fixed set of fields (requireExactKeys in frontend/src/fileTransfer.ts and
    frontend/src/transferProtocol.ts). */
module Records {
  import opened Outcomes
  import opened Utf
  import opened JsonText

  // The UTF-16 form of a string literal.
  function TextOf(s: string): Text {
    if s == "" then [] else Units(s[0] as int) + TextOf(s[1..])
  }

  lemma {:induction false} TextIsInjective(a: string, b: string)
    requires TextOf(a) == TextOf(b)
    ensures a == b
    decreases |a|
  {
    if a != "" && b != "" {
      var u, w := Units(a[0] as int), Units(b[0] as int);
      assert TextOf(a)[0] == u[0] && TextOf(b)[0] == w[0];
      assert |u| == |w|;
      assert TextOf(a)[|u|..] == TextOf(a[1..]) && TextOf(b)[|u|..] == TextOf(b[1..]);
      assert TextOf(a)[|u| - 1] == u[|u| - 1] && TextOf(b)[|u| - 1] == w[|u| - 1];
      assert a[0] == b[0];
      TextIsInjective(a[1..], b[1..]);
      assert a == [a[0]] + a[1..] && b == [b[0]] + b[1..];
    }
  }

  lemma {:induction false} TextIsWellFormed(s: string)
    ensures WellFormed(TextOf(s))
    decreases |s|
  {
    if s != "" {
      TextIsWellFormed(s[1..]);
      var u := Units(s[0] as int);
      assert u[|u|..] == [];
      WellFormedAppend(u, TextOf(s[1..]));
    }
  }

  predicate Distinct<T(==)>(keys: seq<T>) {
    forall i, j :: 0 <= i < j < |keys| ==> keys[i] != keys[j]
  }

  function Fields(keys: seq<Text>, values: seq<Json>): map<Text, Json>
    requires |keys| == |values|
  {
    if keys == [] then map[] else Fields(keys[1..], values[1..])[keys[0] := values[0]]
  }

  function Record(keys: seq<Text>, values: seq<Json>): Json
    requires |keys| == |values|
  {
    Obj(Fields(keys, values))
  }

  // The values of an object's fields, in the order of `keys`, when it has those fields and no others.
  function FieldsOf(v: Json, keys: seq<Text>, notObject: string, extra: string, missing: string): (r: Result<seq<Json>>)
    ensures r.Ok? ==> |r.value| == |keys|
  {
    if !v.Obj? then Err(notObject)
    else if exists k :: k in v.members && k !in keys then Err(extra)
    else if exists k :: k in keys && k !in v.members then Err(missing)
    else Ok(seq(|keys|, i requires 0 <= i < |keys| && keys[i] in v.members => v.members[keys[i]]))
  }

  lemma {:induction false} FieldsHold(keys: seq<Text>, values: seq<Json>)
    requires |keys| == |values| && Distinct(keys)
    ensures forall k :: k in Fields(keys, values) <==> k in keys
    ensures forall i :: 0 <= i < |keys| ==>
              keys[i] in Fields(keys, values) && Fields(keys, values)[keys[i]] == values[i]
    decreases |keys|
  {
    if keys != [] {
      FieldsHold(keys[1..], values[1..]);
      assert forall k :: k in keys <==> k == keys[0] || k in keys[1..];
      forall i | 1 <= i < |keys| ensures keys[i] in Fields(keys, values) && Fields(keys, values)[keys[i]] == values[i] {
        assert keys[i] == keys[1..][i - 1] && values[i] == values[1..][i - 1];
      }
    }
  }

  /** An object passes the exact-keys test with certain values if and only if it is the record of those values. */
  lemma ExactFields(v: Json, keys: seq<Text>, values: seq<Json>, notObject: string, extra: string, missing: string)
    requires |keys| == |values| && Distinct(keys)
    ensures FieldsOf(v, keys, notObject, extra, missing) == Ok(values) <==> v == Record(keys, values)
  {
    hide Fields;
    FieldsHold(keys, values);
    var fields := Fields(keys, values);
    var r := FieldsOf(v, keys, notObject, extra, missing);
    if v == Record(keys, values) {
      assert r.Ok? && r.value == values;
    }
    if r == Ok(values) {
      forall k | k in keys ensures k in v.members && v.members[k] == fields[k] {
        var i :| 0 <= i < |keys| && keys[i] == k;
        assert r.value[i] == v.members[keys[i]];
      }
      assert v.members == fields;
    }
  }

  lemma RecordIsPrintable(keys: seq<Text>, values: seq<Json>)
    requires |keys| == |values| && Distinct(keys)
    requires forall i :: 0 <= i < |keys| ==> WellFormed(keys[i]) && Printable(values[i])
    ensures Printable(Record(keys, values))
  {
    hide Fields;
    FieldsHold(keys, values);
    var fields := Fields(keys, values);
    forall k | k in fields ensures WellFormed(k) && Printable(fields[k]) {
      var i :| 0 <= i < |keys| && keys[i] == k;
    }
  }

  lemma {:induction false} TextLength(s: string)
    ensures |TextOf(s)| <= 2 * |s|
    decreases |s|
  {
    if s != "" { TextLength(s[1..]); }
  }

  // The field names of a kind of object.
  function Keys(names: seq<string>): (keys: seq<Text>)
    requires Distinct(names)
    ensures |keys| == |names| && Distinct(keys)
    ensures forall i :: 0 <= i < |keys| ==> WellFormed(keys[i]) && |keys[i]| <= 2 * |names[i]|
  {
    NamesAreKeys(names);
    seq(|names|, i requires 0 <= i < |names| => TextOf(names[i]))
  }

  lemma NamesAreKeys(names: seq<string>)
    requires Distinct(names)
    ensures forall i :: 0 <= i < |names| ==> WellFormed(TextOf(names[i])) && |TextOf(names[i])| <= 2 * |names[i]|
    ensures forall i, j :: 0 <= i < j < |names| ==> TextOf(names[i]) != TextOf(names[j])
  {
    forall i | 0 <= i < |names| ensures WellFormed(TextOf(names[i])) && |TextOf(names[i])| <= 2 * |names[i]| {
      TextIsWellFormed(names[i]);
      TextLength(names[i]);
    }
    forall i, j | 0 <= i < j < |names| ensures TextOf(names[i]) != TextOf(names[j]) {
      if TextOf(names[i]) == TextOf(names[j]) { TextIsInjective(names[i], names[j]); }
    }
  }
}

/** A core and the signature over it, as one object (frontend/src/fileTransfer.ts and
    frontend/src/transferProtocol.ts). */
module SignedObjects {
  import opened Outcomes
  import opened Bytes
  import opened Utf
  import opened JsonText
  import opened Records
  import opened Base64Url

  const SIGNATURE_BYTES := 64

  function SignedKeys(): (keys: seq<Text>)
    ensures |keys| == 2 && Distinct(keys)
    ensures forall i :: 0 <= i < |keys| ==> WellFormed(keys[i]) && |keys[i]| <= 30
  {
    Keys(["core", "signature"])
  }

  function SignedJson(core: Json, signature: Bytes): Json {
    Record(SignedKeys(), [core, Str(Encode(signature))])
  }

  // A signature that is not a string, or not 64 bytes, has one code; one that is not base64url has another.
  function SignatureOf(v: Json): Result<Bytes> {
    if !v.Str? then Err("invalid_signature")
    else
      match Decode(v.text, SIGNATURE_BYTES)
      case Err(c) => Err(c)
      case Ok(b) => if |b| == SIGNATURE_BYTES then Ok(b) else Err("invalid_signature")
  }

  lemma {:induction false} SignatureBack(signature: Bytes)
    requires |signature| == SIGNATURE_BYTES
    ensures SignatureOf(Str(Encode(signature))) == Ok(signature)
  {
    DecodesExactly(Encode(signature), SIGNATURE_BYTES, signature);
  }
}
