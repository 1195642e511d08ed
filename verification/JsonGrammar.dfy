/** The grammar of section 7 and section 6 of RFC 8259, which the modelled JSON.parse follows exactly. */
module JsonGrammar {
  import opened Outcomes
  import opened Utf
  import opened HexDigits
  import opened JsonText

  // ----- Strings -----

  // The letters behind a backslash, with what they stand for.
  const ESCAPES: map<unit, unit> := map[
    0x22 := 0x22, 0x5C := 0x5C, 0x2F := 0x2F, 0x62 := 0x08, 0x66 := 0x0C, 0x6E := 0x0A, 0x72 := 0x0D, 0x74 := 0x09]

  predicate IsHexDigit(u: unit, n: int) {
    (0x30 <= u <= 0x39 && n == u - 0x30) || (0x41 <= u <= 0x46 && n == u - 55) || (0x61 <= u <= 0x66 && n == u - 87)
  }

  // One way of writing a unit: itself, a letter behind a backslash, or four hexadecimal digits of either case.
  ghost predicate Writes(p: Text, u: unit) {
    || (p == [u] && u >= 0x20 && u != 0x22 && u != 0x5C)
    || (|p| == 2 && p[0] == 0x5C && p[1] in ESCAPES && u == ESCAPES[p[1]])
    || (|p| == 6 && p[0] == 0x5C && p[1] == 0x75 &&
        exists a, b, c, d :: IsHexDigit(p[2], a) && IsHexDigit(p[3], b) && IsHexDigit(p[4], c) && IsHexDigit(p[5], d)
                             && u == 4096 * a + 256 * b + 16 * c + d)
  }

  function Concat(ps: seq<Text>): Text {
    if ps == [] then [] else ps[0] + Concat(ps[1..])
  }

  // The pieces write the text, unit by unit.
  ghost predicate Spells(ps: seq<Text>, t: Text) {
    |ps| == |t| && forall i :: 0 <= i < |ps| ==> Writes(ps[i], t[i])
  }

  // The literal without its opening quote.
  ghost predicate IsLiteral(s: Text, t: Text, rest: Text, ps: seq<Text>) {
    Spells(ps, t) && s == Concat(ps) + [QUOTE] + rest
  }

  lemma {:induction false} HexAgrees(u: unit, n: int)
    ensures AnyHexValue(u) == Some(n) <==> IsHexDigit(u, n)
  {
  }

  lemma {:induction false} EscapesAgree(letter: unit)
    ensures Unescape(letter) == if letter in ESCAPES then Some(ESCAPES[letter]) else None
  {
  }

  // The front of a text that writes a unit is read as that unit.
  lemma {:induction false} WrittenIsRead(p: Text, u: unit, s: Text)
    requires Writes(p, u)
    ensures ParseString(p + s) == Prepend(u, ParseString(s))
  {
    var t := p + s;
    assert t[..|p|] == p && t[|p|..] == s;
    if |p| == 2 {
      EscapesAgree(p[1]);
      assert t[2..] == s;
    } else if |p| == 6 {
      var a, b, c, d :| IsHexDigit(p[2], a) && IsHexDigit(p[3], b) && IsHexDigit(p[4], c) && IsHexDigit(p[5], d)
        && u == 4096 * a + 256 * b + 16 * c + d;
      HexAgrees(p[2], a);
      HexAgrees(p[3], b);
      HexAgrees(p[4], c);
      HexAgrees(p[5], d);
      assert t[2..][0] == p[2] && t[2..][1] == p[3] && t[2..][2] == p[4] && t[2..][3] == p[5];
      assert HexUnit(t[2..]) == Some(u) && t[6..] == s;
    } else {
      assert t[1..] == s;
    }
  }

  // What was read first was written there.
  lemma {:induction false} ReadWasWritten(s: Text) returns (p: Text)
    requires ParseString(s).Ok? && s[0] != QUOTE
    ensures |p| <= |s| && s == p + s[|p|..] && ParseString(s[|p|..]).Ok? && p != []
    ensures ParseString(s).value.0 != [] && Writes(p, ParseString(s).value.0[0])
    ensures ParseString(s) == Prepend(ParseString(s).value.0[0], ParseString(s[|p|..]))
  {
    if s[0] != BACKSLASH {
      p := s[..1];
    } else if s[1] == 0x75 {
      p := s[..6];
      var q := s[2..];
      HexAgrees(q[0], AnyHexValue(q[0]).value);
      HexAgrees(q[1], AnyHexValue(q[1]).value);
      HexAgrees(q[2], AnyHexValue(q[2]).value);
      HexAgrees(q[3], AnyHexValue(q[3]).value);
    } else {
      p := s[..2];
      EscapesAgree(s[1]);
    }
  }

  lemma {:induction false} LiteralIsParsed(s: Text, t: Text, rest: Text, ps: seq<Text>)
    requires IsLiteral(s, t, rest, ps)
    ensures ParseString(s) == Ok((t, rest))
    decreases |ps|
  {
    hide Writes, ParseString;
    if ps == [] {
      assert s == [QUOTE] + rest && s[1..] == rest;
      EmptyIsParsed(s);
    } else {
      var s' := Concat(ps[1..]) + [QUOTE] + rest;
      assert s == ps[0] + s';
      LiteralIsParsed(s', t[1..], rest, ps[1..]);
      WrittenIsRead(ps[0], t[0], s');
      assert t == [t[0]] + t[1..];
    }
  }

  lemma {:induction false} EmptyIsParsed(s: Text)
    requires s != [] && s[0] == QUOTE
    ensures ParseString(s) == Ok(([], s[1..]))
  {
  }

  lemma {:induction false} ParsedIsLiteral(s: Text) returns (ps: seq<Text>)
    requires ParseString(s).Ok?
    ensures IsLiteral(s, ParseString(s).value.0, ParseString(s).value.1, ps)
    decreases |s|
  {
    if s[0] == QUOTE {
      ps := [];
      assert s == [QUOTE] + s[1..];
    } else {
      var p := ReadWasWritten(s);
      hide Writes, ParseString;
      var more := ParsedIsLiteral(s[|p|..]);
      ps := [p] + more;
      assert ps[1..] == more;
      assert ParseString(s).value.0[1..] == ParseString(s[|p|..]).value.0;
    }
  }

  /** A text begins with the rest of a string literal for `t`, and `rest` is what follows, exactly when it consists of
      ways
      of writing the units of `t`, a quote, and `rest`. */
  lemma {:induction false} StringGrammar(s: Text, t: Text, rest: Text)
    ensures ParseString(s) == Ok((t, rest)) <==> exists ps :: IsLiteral(s, t, rest, ps)
  {
    hide IsLiteral, ParseString;
    if ParseString(s) == Ok((t, rest)) {
      var ps := ParsedIsLiteral(s);
    }
    if ps :| IsLiteral(s, t, rest, ps) {
      LiteralIsParsed(s, t, rest, ps);
    }
  }

  // ----- Numbers -----

  predicate AllDigits(s: Text) { s != [] && forall i :: 0 <= i < |s| ==> 0x30 <= s[i] <= 0x39 }

  predicate IsInteger(s: Text) {
    var digits := if s != [] && s[0] == 0x2D then s[1..] else s;
    AllDigits(digits) && (digits[0] == 0x30 ==> |digits| == 1)
  }

  predicate IsFraction(s: Text) { s == [] || (s[0] == 0x2E && AllDigits(s[1..])) }

  predicate IsExponent(s: Text) {
    s == [] ||
    (|s| > 1 && (s[0] == 0x65 || s[0] == 0x45)
     && if s[1] == 0x2B || s[1] == 0x2D then AllDigits(s[2..]) else AllDigits(s[1..]))
  }

  // An integer, perhaps a fraction, perhaps an exponent.
  ghost predicate IsNumber(s: Text) {
    exists i: nat, j: nat :: InParts(s, i, j)
  }

  predicate InParts(s: Text, i: nat, j: nat) {
    i <= j <= |s| && IsInteger(s[..i]) && IsFraction(s[i..j]) && IsExponent(s[j..])
  }

  lemma {:induction false} DigitsAreLongest(s: Text, n: nat)
    requires n <= |s|
    ensures AllDigits(s[..n]) <==> 0 < n <= Digits(s)
    decreases n
  {
    if n > 1 {
      assert s[..n] == [s[0]] + s[1..][..n - 1];
      DigitsAreLongest(s[1..], n - 1);
      assert s[1..][..n - 1] == s[..n][1..];
    } else if n == 1 {
      assert s[..1] == [s[0]];
    }
  }

  lemma {:induction false} IntegerIsLongest(s: Text, n: nat)
    requires n <= |s|
    ensures IsInteger(s[..n]) ==> 0 < n <= IntegerLength(s)
    ensures n > 0 && n == IntegerLength(s) ==> IsInteger(s[..n])
  {
    var sign := if s != [] && s[0] == MINUS then 1 else 0;
    var t := s[sign..];
    if n >= sign {
      assert s[..n][sign..] == t[..n - sign];
      DigitsAreLongest(t, n - sign);
    }
  }

  // Behind a beginning of an integer that is not the longest stands a digit.
  lemma {:induction false} IntegerGoesOn(s: Text, n: nat)
    requires n < IntegerLength(s) && IsInteger(s[..n])
    ensures Digit(s[n])
  {
    var m := IntegerLength(s);
    IntegerIsLongest(s, m);
    var sign := if s[0] == MINUS then 1 else 0;
    assert s[..n][sign..] == s[sign..n] && s[..m][sign..] == s[sign..m];
    assert s[sign..m][n - sign] == s[n];
  }

  lemma {:induction false} FractionIsLongest(s: Text, n: nat)
    requires n <= |s|
    ensures IsFraction(s[..n]) ==> n <= FractionLength(s)
    ensures n == FractionLength(s) ==> IsFraction(s[..n])
    ensures IsFraction(s[..n]) && n < FractionLength(s) ==> s[n] == 0x2E || Digit(s[n])
  {
    if n > 0 {
      assert s[..n][1..] == s[1..][..n - 1];
      DigitsAreLongest(s[1..], n - 1);
      if n < FractionLength(s) {
        DigitsAreLongest(s[1..], n);
        assert s[1..][..n][n - 1] == s[n];
      }
    }
  }

  lemma {:induction false} ExponentIsLongest(s: Text, n: nat)
    requires n <= |s|
    ensures IsExponent(s[..n]) ==> n <= ExponentLength(s)
    ensures n == ExponentLength(s) ==> IsExponent(s[..n])
  {
    if n > 1 {
      var sign := if s[1] == 0x2B || s[1] == MINUS then 1 else 0;
      assert s[..n][1 + sign..] == s[1 + sign..][..n - 1 - sign];
      DigitsAreLongest(s[1 + sign..], n - 1 - sign);
    }
  }

  lemma {:induction false} LongestIsNumber(s: Text)
    requires NumberLength(s) > 0
    ensures IsNumber(s[..NumberLength(s)])
  {
    hide IsInteger, IsFraction, IsExponent, IntegerLength, FractionLength, ExponentLength;
    var i := IntegerLength(s);
    var f := FractionLength(s[i..]);
    var j, n := i + f, NumberLength(s);
    IntegerIsLongest(s, i);
    FractionIsLongest(s[i..], f);
    ExponentIsLongest(s[j..], n - j);
    var l := s[..n];
    assert l[..i] == s[..i] && l[i..j] == s[i..][..f] && l[j..] == s[j..][..n - j];
    assert InParts(l, i, j);
  }

  lemma {:induction false} StartsFraction(s: Text, i: nat, j: nat)
    requires i <= j <= |s| && IsFraction(s[i..j])
    ensures i < j ==> s[i] == 0x2E
  {
    assert i < j ==> s[i..j][0] == s[i];
  }

  lemma {:induction false} StartsExponent(s: Text, j: nat, n: nat)
    requires j <= n <= |s| && IsExponent(s[j..n])
    ensures j < n ==> s[j] == 0x65 || s[j] == 0x45
  {
    assert j < n ==> s[j..n][0] == s[j];
  }

  // Where an integer that is not the longest could go on there is a digit, so neither a fraction nor an exponent.
  lemma {:induction false} ShortIntegerEnds(s: Text, n: nat, i: nat, j: nat)
    requires i <= j <= n <= |s| && IsFraction(s[i..j]) && IsExponent(s[j..n]) && i < |s| && Digit(s[i])
    ensures n == i
  {
    hide IsFraction, IsExponent;
    StartsFraction(s, i, j);
    StartsExponent(s, j, n);
  }

  lemma {:induction false} ShortFractionEnds(s: Text, n: nat, j: nat)
    requires j <= n <= |s| && IsExponent(s[j..n]) && j < |s| && (s[j] == 0x2E || Digit(s[j]))
    ensures n == j
  {
    hide IsExponent;
    StartsExponent(s, j, n);
  }

  lemma {:induction false} NumberIsNoLonger(s: Text, n: nat, i: nat, j: nat)
    requires i <= j <= n <= |s| && IsInteger(s[..i]) && IsFraction(s[i..j]) && IsExponent(s[j..n])
    ensures 0 < n <= NumberLength(s)
  {
    hide IsInteger, IsFraction, IsExponent, IntegerLength, FractionLength, ExponentLength, Digit;
    IntegerIsLongest(s, i);
    assert s[i..j] == s[i..][..j - i] && s[j..n] == s[j..][..n - j];
    FractionIsLongest(s[i..], j - i);
    ExponentIsLongest(s[j..], n - j);
    if i < IntegerLength(s) {
      IntegerGoesOn(s, i);
      ShortIntegerEnds(s, n, i, j);
    } else if j - i < FractionLength(s[i..]) {
      assert s[i..][j - i] == s[j];
      ShortFractionEnds(s, n, j);
    }
  }

  /** The number at the front of a text is the longest one that begins there, if any does. */
  lemma {:induction false} NumberGrammar(s: Text, n: nat)
    requires n <= |s|
    ensures IsNumber(s[..n]) ==> 0 < n <= NumberLength(s)
    ensures n > 0 && n == NumberLength(s) ==> IsNumber(s[..n])
  {
    hide IsInteger, IsFraction, IsExponent, NumberLength;
    if IsNumber(s[..n]) {
      var l := s[..n];
      var i: nat, j: nat :| InParts(l, i, j);
      assert l[..i] == s[..i] && l[i..j] == s[i..j] && l[j..] == s[j..n];
      NumberIsNoLonger(s, n, i, j);
    }
    if n > 0 && n == NumberLength(s) { LongestIsNumber(s); }
  }

  // ----- Blanks, repeated keys and the order of keys -----

  /** The blanks of section 2, and no other unit, are skipped in front of a value. */
  lemma {:induction false} BlanksAreSkipped(u: unit, s: Text, strict: bool)
    ensures SkipBlanks([u] + s) == if u in {0x20, 0x09, 0x0A, 0x0D} then SkipBlanks(s) else [u] + s
    ensures u in {0x20, 0x09, 0x0A, 0x0D} ==> Parse([u] + s, strict) == Parse(s, strict)
  {
    hide ParseString, ParseItems, ParseMembers, NumberLength, NumberValue;
    assert ([u] + s)[1..] == s;
  }

  /** Without the scanner's rule a repeated key is no error: whatever is refused is refused as malformed. */
  lemma {:induction false} RepeatsAreNoError(s: Text)
    ensures Parse(s, false).Err? ==> Parse(s, false).code == "invalid_json"
    decreases |s|, 0
  {
    hide NumberLength, NumberValue, Unescape, HexUnit;
    var t := SkipBlanks(s);
    if t != [] && t[0] == QUOTE {
      StringsFailOneWay(t[1..]);
    } else if t != [] && t[0] == OPEN_ARRAY {
      ItemsFailOneWay(SkipBlanks(t[1..]), []);
    } else if t != [] && t[0] == OPEN_OBJECT {
      MembersFailOneWay(SkipBlanks(t[1..]), map[]);
    }
  }

  lemma {:induction false} StringsFailOneWay(s: Text)
    ensures ParseString(s).Err? ==> ParseString(s).code == "invalid_json"
  {
    if s != [] {
      StringsFailOneWay(s[1..]);
      if |s| >= 2 { StringsFailOneWay(s[2..]); }
      if |s| >= 6 { StringsFailOneWay(s[6..]); }
    }
  }

  lemma {:induction false} ItemsFailOneWay(s: Text, items: seq<Json>)
    ensures ParseItems(s, items, false).Err? ==> ParseItems(s, items, false).code == "invalid_json"
    decreases |s|, 1
  {
    hide Parse;
    RepeatsAreNoError(s);
    if Parse(s, false).Ok? {
      var (v, rest) := Parse(s, false).value;
      var t := SkipBlanks(rest);
      if t != [] && t[0] == COMMA { ItemsFailOneWay(SkipBlanks(t[1..]), items + [v]); }
    }
  }

  lemma {:induction false} MembersFailOneWay(s: Text, members: map<Text, Json>)
    ensures ParseMembers(s, members, false).Err? ==> ParseMembers(s, members, false).code == "invalid_json"
    decreases |s|, 1
  {
    hide Parse, ParseString;
    if s != [] && s[0] == QUOTE {
      StringsFailOneWay(s[1..]);
      if ParseString(s[1..]).Ok? {
        var (key, afterKey) := ParseString(s[1..]).value;
        var t := SkipBlanks(afterKey);
        if t != [] && t[0] == COLON {
          RepeatsAreNoError(t[1..]);
          if Parse(t[1..], false).Ok? {
            var (v, rest) := Parse(t[1..], false).value;
            var u := SkipBlanks(rest);
            if u != [] && u[0] == COMMA { MembersFailOneWay(SkipBlanks(u[1..]), members[key := v]); }
          }
        }
      }
    }
  }

  // Behind a common beginning of `k` units, `a` ends or has the smaller unit.
  predicate SmallerAt(a: Text, b: Text, k: nat) {
    k <= |a| && k < |b| && a[..k] == b[..k] && (k == |a| || a[k] < b[k])
  }

  lemma {:induction false} SmallerFront(a: Text, b: Text, k: nat)
    requires SmallerAt(a, b, k)
    ensures k > 0 ==> a != [] && b != [] && a[0] == b[0]
  {
    assert k > 0 ==> a[..k][0] == a[0] && b[..k][0] == b[0];
  }

  lemma {:induction false} BeforeIsSmaller(a: Text, b: Text)
    ensures Before(a, b) <==> exists k: nat :: SmallerAt(a, b, k)
  {
    forall k: nat | SmallerAt(a, b, k) ensures k > 0 ==> a != [] && b != [] && a[0] == b[0] {
      SmallerFront(a, b, k);
    }
    if a != [] && b != [] && a[0] == b[0] {
      BeforeIsSmaller(a[1..], b[1..]);
      if k: nat :| SmallerAt(a[1..], b[1..], k) {
        assert a[..k + 1] == [a[0]] + a[1..][..k] && b[..k + 1] == [b[0]] + b[1..][..k];
        assert SmallerAt(a, b, k + 1);
      }
      if k: nat :| SmallerAt(a, b, k) {
        assert k > 0 && a[1..][..k - 1] == a[..k][1..] && b[1..][..k - 1] == b[..k][1..];
        assert SmallerAt(a[1..], b[1..], k - 1);
      }
    } else if Before(a, b) {
      assert SmallerAt(a, b, 0);
    }
  }

  /** The keys of an object are written once each, in ascending order of their UTF-16 units. */
  lemma {:induction false} KeysAscend(ks: set<Text>, i: nat, j: nat)
    requires i < j < |SortedKeys(ks)|
    ensures forall k :: k in SortedKeys(ks) <==> k in ks
    ensures exists k: nat :: SmallerAt(SortedKeys(ks)[i], SortedKeys(ks)[j], k)
  {
    hide SortedKeys;
    BeforeIsSmaller(SortedKeys(ks)[i], SortedKeys(ks)[j]);
  }
}
