/** The printer's texts are the shortest ones (section 3.2.2 of RFC 8785, frontend/src/transferProtocol.ts). */
module JsonShortest {
  import opened Outcomes
  import opened Utf
  import opened HexDigits
  import opened JsonText
  import opened Sums

  // ----- Strings -----

  /** Among all texts that are read as a string, the printed one is a shortest: nothing is escaped that need not be, and
      nothing more lengthily than it need be. */
  lemma {:induction false} StringIsShortest(s: Text)
    requires ParseString(s).Ok?
    ensures var (t, rest) := ParseString(s).value; |PrintString(t)| <= |s| - |rest|
    decreases |s|
  {
    hide HexUnit;
    var (t, rest) := ParseString(s).value;
    if s[0] == QUOTE {
    } else if s[0] != BACKSLASH {
      StringIsShortest(s[1..]);
      var (t', _) := ParseString(s[1..]).value;
      assert t == [s[0]] + t' && t[1..] == t';
    } else if s[1] == 0x75 {
      StringIsShortest(s[6..]);
      var (t', _) := ParseString(s[6..]).value;
      assert t == [HexUnit(s[2..]).value] + t' && t[1..] == t';
    } else {
      StringIsShortest(s[2..]);
      var (t', _) := ParseString(s[2..]).value;
      assert t == [Unescape(s[1]).value] + t' && t[1..] == t';
    }
  }

  /** A text without control units, quotes and backslashes is printed as itself between quotes. */
  lemma {:induction false} PlainPrintsAsItself(s: Text)
    requires forall i :: 0 <= i < |s| ==> s[i] >= 0x20 && s[i] != QUOTE && s[i] != BACKSLASH
    ensures Print(Str(s)) == [QUOTE] + s + [QUOTE]
    decreases |s|
  {
    PlainUnits(s);
    assert [QUOTE] + (s + [QUOTE]) == [QUOTE] + s + [QUOTE];
  }

  lemma {:induction false} PlainUnits(s: Text)
    requires forall i :: 0 <= i < |s| ==> s[i] >= 0x20 && s[i] != QUOTE && s[i] != BACKSLASH
    ensures PrintString(s) == s + [QUOTE]
    decreases |s|
  {
    if s != [] {
      PlainUnits(s[1..]);
      assert s == [s[0]] + s[1..];
    }
  }

  /** A control unit is printed with the two-unit escape that is read as it, if there is one, and otherwise with four
      lower-case hexadecimal digits. */
  lemma {:induction false} ControlPrints(u: unit)
    requires u < 0x20
    ensures Escaped(u)[0] == BACKSLASH
    ensures if u in {8, 9, 10, 12, 13} then |Escaped(u)| == 2 && Unescape(Escaped(u)[1]) == Some(u)
            else |Escaped(u)| == 6 && Escaped(u)[1] == 0x75 && HexUnit(Escaped(u)[2..]) == Some(u)
                 && forall i :: 2 <= i < 6 ==> IsHex(Escaped(u)[i])
  {
    if u !in {8, 9, 10, 12, 13} {
      assert Escaped(u)[2..] == [0x30, 0x30, HexDigit(u / 16), HexDigit(u % 16)] + [];
      LongEscapeUndone(u, []);
    }
  }

  // ----- Numbers -----

  lemma {:induction false} DecimalIsShortest(ds: Text)
    requires ds != [] && forall i :: 0 <= i < |ds| ==> Digit(ds[i])
    ensures 0 <= DecimalValue(ds) && |Decimal(DecimalValue(ds))| <= |ds|
    decreases |ds|
  {
    var init := ds[..|ds| - 1];
    if init == [] {
      assert DecimalValue(init) == 0;
    } else {
      DecimalIsShortest(init);
      var n, d := DecimalValue(init), ds[|ds| - 1] as int - 0x30;
      assert (n * 10 + d) / 10 == n;
    }
  }

  lemma {:induction false} LeadingDigits(s: Text)
    ensures forall i :: 0 <= i < Digits(s) ==> Digit(s[i])
    decreases |s|
  {
    if s != [] && Digit(s[0]) {
      LeadingDigits(s[1..]);
    }
  }

  lemma {:induction false} NumberIsShortest(lexeme: Text)
    requires lexeme != [] && NumberValue(lexeme).Num?
    ensures |Print(NumberValue(lexeme))| <= |lexeme|
  {
    hide Decimal, DecimalValue;
    var sign := if lexeme[0] == MINUS then 1 else 0;
    var ds := lexeme[sign..];
    assert lexeme[0..] == lexeme;
    LeadingDigits(ds);
    DecimalIsShortest(ds);
    var n := DecimalValue(ds);
    if n == 0 {
      assert |Decimal(0)| == 1 by { ZeroHasOneDigit(); }
    }
  }

  lemma {:induction false} ZeroHasOneDigit()
    ensures |Decimal(0)| == 1
  {
  }

  // ----- Whole values -----

  // What one member takes: its key in quotes, the colon, the value, and the comma or brace after it.
  function MemberCost(k: Text, v: Json): nat {
    1 + |PrintString(k)| + 1 + |Print(v)| + 1
  }

  function Costs(m: map<Text, Json>): map<Text, nat> {
    map k | k in m :: MemberCost(k, m[k])
  }

  lemma {:induction false} CostsUpdate(m: map<Text, Json>, k: Text, v: Json)
    requires k !in m
    ensures Sum(Costs(m[k := v])) == MemberCost(k, v) + Sum(Costs(m))
  {
    hide MemberCost, Sum;
    assert Costs(m[k := v]) == Costs(m)[k := MemberCost(k, v)];
    SumUpdate(Costs(m), k, MemberCost(k, v));
  }

  function Only(m: map<Text, Json>, ks: seq<Text>): map<Text, Json> {
    map k | k in m && k in ks :: m[k]
  }

  lemma {:induction false} MembersCost(v: Json, ks: seq<Text>)
    requires v.Obj? && ks != [] && forall k :: k in ks ==> k in v.members
    requires forall i, j :: 0 <= i < j < |ks| ==> ks[i] != ks[j]
    ensures |PrintMembers(v, ks)| == Sum(Costs(Only(v.members, ks)))
    decreases |ks|
  {
    hide Sum, Print, PrintString;
    var rest := Only(v.members, ks[1..]);
    assert Only(v.members, ks) == rest[ks[0] := v.members[ks[0]]];
    CostsUpdate(rest, ks[0], v.members[ks[0]]);
    if |ks| > 1 {
      MembersCost(v, ks[1..]);
    } else {
      assert rest == map[] && Costs(rest) == map[];
      assert Sum(Costs(rest)) == 0 by { NothingCosts(); }
    }
  }

  lemma {:induction false} NothingCosts()
    ensures Sum(Costs(map[])) == 0
  {
    assert Costs(map[]) == map[];
  }

  lemma {:induction false} ObjectCost(m: map<Text, Json>)
    ensures |Print(Obj(m))| == if m == map[] then 2 else 1 + Sum(Costs(m))
  {
    hide PrintMembers, Sum;
    if m != map[] {
      var ks := SortedKeys(m.Keys);
      KeysDiffer(ks);
      MembersCost(Obj(m), ks);
      assert Only(m, ks) == m;
    }
  }

  /** Among all texts that are read as a value, without repeated keys, the printed one is a shortest. */
  lemma {:induction false} PrintIsShortest(s: Text)
    requires Parse(s, true).Ok? && Printable(Parse(s, true).value.0)
    ensures var (v, rest) := Parse(s, true).value; |Print(v)| <= |s| - |rest|
    decreases |s|, 0
  {
    hide ParseString, NumberLength, NumberValue, SkipBlanks, ParseItems, ParseMembers, PrintItems, PrintMembers,
    PrintString,
         Decimal;
    var t := SkipBlanks(s);
    var (v, rest) := Parse(s, true).value;
    if t[0] == QUOTE {
      StringIsShortest(t[1..]);
    } else if t[0] == OPEN_ARRAY {
      var u := SkipBlanks(t[1..]);
      if u == [] || u[0] != CLOSE_ARRAY {
        ItemsAreShortest(u, []);
        assert v.items[0..] == v.items;
      }
    } else if t[0] == OPEN_OBJECT {
      var u := SkipBlanks(t[1..]);
      if u == [] || u[0] != CLOSE_OBJECT {
        MembersAreShortest(u, map[]);
        NothingCosts();
        ObjectCost(v.members);
      }
    } else if !(StartsWith(t, TRUE) || StartsWith(t, FALSE) || StartsWith(t, NULL)) {
      var lexeme := t[..NumberLength(t)];
      NumberKinds(lexeme);
      NumberIsShortest(lexeme);
    }
  }

  lemma {:induction false} NumberKinds(lexeme: Text)
    requires lexeme != []
    ensures NumberValue(lexeme).Num? || NumberValue(lexeme).Real?
  {
  }

  lemma {:induction false} ItemsAreShortest(s: Text, items: seq<Json>)
    requires ParseItems(s, items, true).Ok? && Printable(ParseItems(s, items, true).value.0)
    ensures var (v, rest) := ParseItems(s, items, true).value;
            && v.Arr? && |items| < |v.items| && v.items[..|items|] == items
            && |PrintItems(v.items[|items|..])| <= |s| - |rest|
    decreases |s|, 1
  {
    hide Parse, SkipBlanks, Print;
    var (v, rest) := ParseItems(s, items, true).value;
    var (x, afterItem) := Parse(s, true).value;
    var t := SkipBlanks(afterItem);
    if t[0] == CLOSE_ARRAY {
      assert v.items == items + [x] && v.items[|items|..] == [x] && v.items[|items|] == x;
      PrintIsShortest(s);
    } else {
      var u := SkipBlanks(t[1..]);
      ItemsAreShortest(u, items + [x]);
      assert v.items[|items|] == v.items[..|items| + 1][|items|] == x;
      assert v.items[..|items|] == v.items[..|items| + 1][..|items|] == items;
      PrintIsShortest(s);
      var added := v.items[|items|..];
      assert added[0] == x && added[1..] == v.items[|items| + 1..];
    }
  }

  lemma {:induction false} MembersAreShortest(s: Text, members: map<Text, Json>)
    requires ParseMembers(s, members, true).Ok? && Printable(ParseMembers(s, members, true).value.0)
    ensures var (v, rest) := ParseMembers(s, members, true).value;
            && v.Obj? && v.members != map[]
            && (forall k :: k in members ==> k in v.members && v.members[k] == members[k])
            && Sum(Costs(v.members)) <= Sum(Costs(members)) + |s| - |rest|
    decreases |s|, 1
  {
    hide Parse, SkipBlanks, ParseString, Print, PrintString, Sum, Costs;
    var (v, rest) := ParseMembers(s, members, true).value;
    var (key, afterKey) := ParseString(s[1..]).value;
    var t := SkipBlanks(afterKey);
    var (x, afterValue) := Parse(t[1..], true).value;
    var u := SkipBlanks(afterValue);
    var members' := members[key := x];
    StringIsShortest(s[1..]);
    CostsUpdate(members, key, x);
    if u[0] == CLOSE_OBJECT {
      assert v.members == members' && v.members[key] == x;
      PrintIsShortest(t[1..]);
    } else {
      MembersAreShortest(SkipBlanks(u[1..]), members');
      assert members'[key] == x && v.members[key] == x;
      PrintIsShortest(t[1..]);
    }
  }
}
