/** Every payload of the protocol fits into a frame. */
module PayloadSizes {
  import opened Outcomes
  import opened Bytes
  import opened Utf
  import opened JsonText
  import opened Records
  import opened Base64Url
  import opened SignedObjects
  import opened Uuids
  import opened ChunkSplit
  import opened Payloads
  import FrameHeader

  lemma {:induction false} Utf8Length(s: Text)
    ensures |s| <= |Utf8(s)| <= 3 * |s|
    decreases |s|
  {
    if s != [] {
      if |s| >= 2 { Utf8Length(s[2..]); }
      Utf8Length(s[1..]);
    }
  }

  lemma {:induction false} StringLength(s: Text)
    ensures |PrintString(s)| <= 6 * |s| + 1
    decreases |s|
  {
    if s != [] { StringLength(s[1..]); }
  }

  function Pow10(k: nat): nat {
    if k == 0 then 1 else 10 * Pow10(k - 1)
  }

  lemma {:induction false} DecimalLength(n: nat, k: nat)
    requires k > 0 && n < Pow10(k)
    ensures |Decimal(n)| <= k
  {
    if n >= 10 { DecimalLength(n / 10, k - 1); }
  }

  // What the values of the protocol take when they are printed.
  lemma {:induction false} TextSize(t: Text, limit: nat)
    requires |t| <= limit
    ensures |Print(Str(t))| <= 6 * limit + 2
  {
    hide PrintString;
    StringLength(t);
  }

  lemma {:induction false} NumberSize(n: nat)
    requires n <= MAX_TRANSFER_BYTES
    ensures |Print(Num(n))| <= 9
  {
    hide Decimal;
    assert Pow10(9) == 1000000000;
    DecimalLength(n, 9);
  }

  lemma {:induction false} Base64Size(b: Bytes)
    ensures |Print(Str(Encode(b)))| <= 12 * |b| + 2
  {
    hide Print, Encode;
    BitsOfEncoded(b);
    TextSize(Encode(b), 2 * |b|);
  }

  lemma {:induction false} FieldCount(keys: seq<Text>, values: seq<Json>)
    requires |keys| == |values|
    ensures |Fields(keys, values)| <= |keys|
    decreases |keys|
  {
    if keys != [] {
      FieldCount(keys[1..], values[1..]);
      var m := Fields(keys[1..], values[1..]);
      assert m[keys[0] := values[0]].Keys == m.Keys + {keys[0]};
    }
  }

  // The room that `n` members with short names need.
  function Room(n: nat, limit: nat): nat {
    if n == 0 then 0 else Room(n - 1, limit) + limit + 184
  }

  lemma {:induction false} RoomIsProduct(n: nat, limit: nat)
    ensures Room(n, limit) == n * (limit + 184)
  {
    if n > 0 { RoomIsProduct(n - 1, limit); }
  }

  lemma {:induction false} RoomGrows(m: nat, n: nat, limit: nat)
    requires m <= n
    ensures Room(m, limit) <= Room(n, limit)
    decreases n - m
  {
    if m < n { RoomGrows(m, n - 1, limit); }
  }

  lemma {:induction false} MembersLength(v: Json, ks: seq<Text>, limit: nat)
    requires v.Obj? && ks != [] && forall k :: k in ks ==> k in v.members && |k| <= 30 && |Print(v.members[k])| <= limit
    ensures |PrintMembers(v, ks)| <= Room(|ks|, limit)
    decreases |ks|
  {
    hide Print, PrintString;
    StringLength(ks[0]);
    if |ks| > 1 {
      MembersLength(v, ks[1..], limit);
    }
  }

  // A record of short field names and values of at most `limit` units each.
  lemma {:induction false} RecordSize(keys: seq<Text>, values: seq<Json>, limit: nat)
    requires |keys| == |values| && Distinct(keys)
    requires forall i :: 0 <= i < |keys| ==> |keys[i]| <= 30 && |Print(values[i])| <= limit
    ensures |Print(Record(keys, values))| <= |keys| * (limit + 184) + 2
  {
    hide Print, Fields, SortedKeys, Room;
    FieldCount(keys, values);
    FieldsHold(keys, values);
    var m := Fields(keys, values);
    RoomIsProduct(|keys|, limit);
    ObjectSize(m);
    if m != map[] {
      var ks := SortedKeys(m.Keys);
      forall k | k in ks ensures k in m && |k| <= 30 && |Print(m[k])| <= limit {
        var i :| 0 <= i < |keys| && keys[i] == k;
      }
      MembersLength(Obj(m), ks, limit);
      assert |ks| == |m.Keys| == |m|;
      RoomGrows(|ks|, |keys|, limit);
    }
  }

  lemma {:induction false} ObjectSize(m: map<Text, Json>)
    ensures |Print(Obj(m))| <= if m == map[] then 2 else |PrintMembers(Obj(m), SortedKeys(m.Keys))| + 1
  {
    hide PrintMembers, SortedKeys;
  }

  lemma {:induction false} BodyFits(v: Json)
    requires Printable(v) && |Print(v)| <= 21845
    ensures CanonicalBytes(v).Ok? && |CanonicalBytes(v).value| <= FrameHeader.MAX_FRAME_PLAINTEXT_BYTES
  {
    hide Print, Printable, Utf8;
    Utf8Length(Print(v));
  }
}
