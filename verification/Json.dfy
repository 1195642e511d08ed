/** UTF-16 text and its UTF-8 form, as the browser's TextEncoder and TextDecoder give them. */
module Utf {
  import opened Outcomes
  import opened Bytes

  type unit = x: int | 0 <= x < 0x10000
  type Text = seq<unit>

  predicate High(u: unit) { 0xD800 <= u <= 0xDBFF }
  predicate Low(u: unit) { 0xDC00 <= u <= 0xDFFF }

  // assertWellFormedUnicode: every surrogate belongs to a pair.
  predicate WellFormed(s: Text) {
    s == [] ||
    if High(s[0]) then |s| >= 2 && Low(s[1]) && WellFormed(s[2..])
    else !Low(s[0]) && WellFormed(s[1..])
  }

  /** The loop of assertWellFormedUnicode. */
  method CheckWellFormed(s: Text) returns (ok: bool)
    ensures ok <==> WellFormed(s)
  {
    var index := 0;
    assert s[0..] == s;
    while index < |s|
      invariant index <= |s|
      invariant WellFormed(s) <==> WellFormed(s[index..])
    {
      var unit := s[index];
      assert s[index..][0] == unit && s[index..][1..] == s[index + 1..];
      if High(unit) {
        if index + 1 >= |s| || !Low(s[index + 1]) {
          return false;
        }
        assert s[index..][2..] == s[index + 2..];
        index := index + 1;
      } else if Low(unit) {
        return false;
      }
      index := index + 1;
    }
    assert s[index..] == [];
    return true;
  }

  function Paired(high: unit, low: unit): nat
    requires High(high) && Low(low)
  {
    0x10000 + (high - 0xD800) * 0x400 + (low - 0xDC00)
  }

  // One code point, one to four bytes.
  function Encoded(point: nat): (r: Bytes)
    requires point < 0x110000
    ensures 1 <= |r| <= 4
  {
    if point < 0x80 then [point]
    else if point < 0x800 then [0xC0 + point / 0x40, 0x80 + point % 0x40]
    else if point < 0x10000 then [0xE0 + point / 0x1000, 0x80 + point / 0x40 % 0x40, 0x80 + point % 0x40]
    else [0xF0 + point / 0x40000, 0x80 + point / 0x1000 % 0x40, 0x80 + point / 0x40 % 0x40, 0x80 + point % 0x40]
  }

  // TextEncoder; an unpaired surrogate becomes the replacement character.
  function Utf8(s: Text): Bytes {
    if s == [] then []
    else if High(s[0]) && |s| >= 2 && Low(s[1]) then Encoded(Paired(s[0], s[1])) + Utf8(s[2..])
    else if High(s[0]) || Low(s[0]) then Encoded(0xFFFD) + Utf8(s[1..])
    else Encoded(s[0]) + Utf8(s[1..])
  }

  predicate Continues(b: byte) { 0x80 <= b < 0xC0 }

  function Two(x: int, y: int): int { (x - 0xC0) * 0x40 + (y - 0x80) }
  function Three(x: int, y: int, z: int): int { (x - 0xE0) * 0x1000 + (y - 0x80) * 0x40 + (z - 0x80) }
  function Four(
      x: int, y: int, z: int,
      w: int): int { (x - 0xF0) * 0x40000 + (y - 0x80) * 0x1000 + (z - 0x80) * 0x40 + (w - 0x80) }

  // The code point at the front of a byte string and the number of bytes it takes; None where it is not valid UTF-8:
  // overlong, a surrogate, beyond the last code point, or cut off.
  function Front(b: Bytes): (r: Option<(nat, nat)>)
    requires b != []
    ensures r.Some? ==> r.value.0 < 0x110000 && !(0xD800 <= r.value.0 <= 0xDFFF) && 1 <= r.value.1 <= |b|
  {
    if b[0] < 0x80 then Some((b[0], 1))
    else if 0xC2 <= b[0] < 0xE0 && |b| >= 2 && Continues(b[1]) then Some((Two(b[0], b[1]), 2))
    else if 0xE0 <= b[0] < 0xF0 && |b| >= 3 && Continues(b[1]) && Continues(b[2]) then
      var p := Three(b[0], b[1], b[2]);
      if p < 0x800 || 0xD800 <= p <= 0xDFFF then None else Some((p, 3))
    else if 0xF0 <= b[0] < 0xF5 && |b| >= 4 && Continues(b[1]) && Continues(b[2]) && Continues(b[3]) then
      var p := Four(b[0], b[1], b[2], b[3]);
      if p < 0x10000 || p >= 0x110000 then None else Some((p, 4))
    else None
  }

  function Units(point: nat): Text
    requires point < 0x110000
  {
    if point < 0x10000 then [point]
    else [0xD800 + (point - 0x10000) / 0x400, 0xDC00 + (point - 0x10000) % 0x400]
  }

  function FromUtf8(b: Bytes): Option<Text> {
    if b == [] then Some([])
    else
      match Front(b)
      case None => None
      case Some((point, width)) =>
        match FromUtf8(b[width..])
        case None => None
        case Some(rest) => Some(Units(point) + rest)
  }

  const BYTE_ORDER_MARK: Bytes := [0xEF, 0xBB, 0xBF]

  // A fatal TextDecoder, which drops one leading byte-order mark.
  function Decoded(b: Bytes): Option<Text> {
    FromUtf8(if |b| >= 3 && b[..3] == BYTE_ORDER_MARK then b[3..] else b)
  }

  lemma FrontOfEncoded(point: nat, rest: Bytes)
    requires point < 0x110000 && !(0xD800 <= point <= 0xDFFF)
    ensures Front(Encoded(point) + rest) == Some((point, |Encoded(point)|))
  {
    var e, b := Encoded(point), Encoded(point) + rest;
    assert forall i :: 0 <= i < |e| ==> b[i] == e[i];
    if point < 0x80 {
    } else if point < 0x800 {
      TwoBack(point);
    } else if point < 0x10000 {
      ThreeBack(point);
    } else {
      FourBack(point);
    }
  }

  lemma TwoBack(p: nat)
    ensures Two(0xC0 + p / 0x40, 0x80 + p % 0x40) == p
  {
  }

  lemma ThreeBack(p: nat)
    ensures Three(0xE0 + p / 0x1000, 0x80 + p / 0x40 % 0x40, 0x80 + p % 0x40) == p
  {
    var q := p / 0x40;
    assert q / 0x40 == p / 0x1000;
  }

  lemma FourBack(p: nat)
    ensures Four(0xF0 + p / 0x40000, 0x80 + p / 0x1000 % 0x40, 0x80 + p / 0x40 % 0x40, 0x80 + p % 0x40) == p
  {
    var q := p / 0x40;
    var t := q / 0x40;
    assert t == p / 0x1000 && t / 0x40 == p / 0x40000;
    assert p == q * 0x40 + p % 0x40 && q == t * 0x40 + q % 0x40 && t == t / 0x40 * 0x40 + t % 0x40;
  }

  lemma {:induction false} StepBack(point: nat, rest: Bytes)
    requires point < 0x110000 && !(0xD800 <= point <= 0xDFFF)
    requires FromUtf8(rest).Some?
    ensures FromUtf8(Encoded(point) + rest) == Some(Units(point) + FromUtf8(rest).value)
  {
    hide Encoded;
    hide Front;
    FrontOfEncoded(point, rest);
    assert (Encoded(point) + rest)[|Encoded(point)|..] == rest;
  }

  /** Decoding undoes encoding on every well-formed text. */
  lemma {:induction false} Utf8RoundTrip(s: Text)
    requires WellFormed(s)
    ensures FromUtf8(Utf8(s)) == Some(s)
    decreases |s|
  {
    hide Encoded;
    hide Front;
    if s == [] {
    } else if High(s[0]) {
      Utf8RoundTrip(s[2..]);
      StepBack(Paired(s[0], s[1]), Utf8(s[2..]));
      assert Units(Paired(s[0], s[1])) == s[..2];
      assert s == s[..2] + s[2..];
    } else {
      Utf8RoundTrip(s[1..]);
      StepBack(s[0], Utf8(s[1..]));
      assert Utf8(s) == Encoded(s[0]) + Utf8(s[1..]) && Units(s[0]) == s[..1];
      assert s == s[..1] + s[1..];
    }
  }

  lemma {:induction false} TwoEncoded(x: byte, y: byte)
    requires 0xC2 <= x < 0xE0 && Continues(y)
    ensures var p := Two(x, y); 0x80 <= p < 0x800 && Encoded(p) == [x, y]
  {
    Digits64(x as int - 0xC0, y as int - 0x80);
  }

  lemma {:induction false} ThreeEncoded(x: byte, y: byte, z: byte)
    requires 0xE0 <= x < 0xF0 && Continues(y) && Continues(z) && Three(x, y, z) >= 0x800
    ensures var p := Three(x, y, z); p < 0x10000 && Encoded(p) == [x, y, z]
  {
    var a: int, b: int, c: int := x - 0xE0, y - 0x80, z - 0x80;
    var p := Three(x, y, z);
    Parts(a, b, c);
    assert p == a * 0x1000 + b * 0x40 + c;
    assert p / 0x1000 == a && p / 0x40 % 0x40 == b && p % 0x40 == c;
  }

  // The parts of a number of three digits to the base 64.
  lemma {:induction false} Parts(a: int, b: int, c: int)
    requires 0 <= b < 0x40 && 0 <= c < 0x40
    ensures var p := a * 0x1000 + b * 0x40 + c;
            p / 0x1000 == a && p / 0x40 == a * 0x40 + b && p / 0x40 % 0x40 == b && p % 0x40 == c
  {
    Digits64(a * 0x40 + b, c);
    Digits64(a, b);
    Digits4096(a, b * 0x40 + c);
  }

  lemma {:induction false} Digits4096(q: int, r: int)
    requires 0 <= r < 0x1000
    ensures (q * 0x1000 + r) / 0x1000 == q
  {
  }

  lemma {:induction false} Digits262144(q: int, r: int)
    requires 0 <= r < 0x40000
    ensures (q * 0x40000 + r) / 0x40000 == q
  {
  }

  lemma {:induction false} FourEncoded(x: byte, y: byte, z: byte, w: byte)
    requires 0xF0 <= x < 0xF5 && Continues(y) && Continues(z) && Continues(w) && 0x10000 <= Four(x, y, z, w) < 0x110000
    ensures Encoded(Four(x, y, z, w)) == [x, y, z, w]
  {
    var a: int, b: int, c: int, d: int := x - 0xF0, y - 0x80, z - 0x80, w - 0x80;
    var p := Four(x, y, z, w);
    Parts(a * 0x40 + b, c, d);
    Digits64(a, b);
    Digits262144(a, b * 0x1000 + c * 0x40 + d);
    assert p == a * 0x40000 + b * 0x1000 + c * 0x40 + d;
    assert p / 0x40000 == a && p / 0x1000 % 0x40 == b && p / 0x40 % 0x40 == c && p % 0x40 == d;
  }

  // What the decoder takes from the front is what the encoder writes there: overlong forms and surrogates are refused.
  lemma {:induction false} FrontIsEncoded(b: Bytes)
    requires b != [] && Front(b).Some?
    ensures var (point, width) := Front(b).value; Encoded(point) == b[..width]
  {
    var (point, width) := Front(b).value;
    if width == 1 {
      assert b[..1] == [b[0]];
    } else {
      hide Encoded, Two, Three, Four;
      if width == 2 {
        assert b[..2] == [b[0], b[1]];
        TwoEncoded(b[0], b[1]);
      } else if width == 3 {
        assert b[..3] == [b[0], b[1], b[2]];
        ThreeEncoded(b[0], b[1], b[2]);
      } else {
        assert b[..4] == [b[0], b[1], b[2], b[3]];
        FourEncoded(b[0], b[1], b[2], b[3]);
      }
    }
  }

  lemma {:induction false} Digits64(q: int, r: int)
    requires 0 <= r < 0x40
    ensures (q * 0x40 + r) / 0x40 == q && (q * 0x40 + r) % 0x40 == r
  {
  }

  lemma {:induction false} UnitsEncode(point: nat, t: Text)
    requires point < 0x110000 && !(0xD800 <= point <= 0xDFFF) && WellFormed(t)
    ensures WellFormed(Units(point) + t) && Utf8(Units(point) + t) == Encoded(point) + Utf8(t)
  {
    var s := Units(point) + t;
    if point < 0x10000 {
      assert s[1..] == t;
    } else {
      assert s[2..] == t && Paired(s[0], s[1]) == point;
    }
  }

  lemma {:induction false} DecodedIsEncoded(b: Bytes)
    requires FromUtf8(b).Some?
    ensures WellFormed(FromUtf8(b).value) && Utf8(FromUtf8(b).value) == b
    decreases |b|
  {
    if b != [] {
      hide Encoded, Front, Units, Utf8, WellFormed;
      FrontIsEncoded(b);
      var (point, width) := Front(b).value;
      DecodedIsEncoded(b[width..]);
      UnitsEncode(point, FromUtf8(b[width..]).value);
      assert b == b[..width] + b[width..];
    }
  }

  /** The decoder accepts exactly the encodings of well-formed texts. */
  lemma {:induction false} Utf8Exactly(b: Bytes, s: Text)
    ensures FromUtf8(b) == Some(s) <==> WellFormed(s) && b == Utf8(s)
  {
    hide FromUtf8, Utf8, WellFormed;
    if FromUtf8(b).Some? { DecodedIsEncoded(b); }
    if WellFormed(s) { Utf8RoundTrip(s); }
  }

  // Encoding never brings in a zero byte.
  lemma {:induction false} NoZeroByte(s: Text)
    requires 0 !in s
    ensures 0 !in Utf8(s)
    decreases |s|
  {
    if s != [] {
      if |s| >= 2 { NoZeroByte(s[2..]); }
      NoZeroByte(s[1..]);
      assert s[0] != 0;
    }
  }
}

/** Canonical JSON: the printer, the strict scanner and the host's parser (frontend/src/transferProtocol.ts). */
module JsonText {
  import JsNumbers
  import opened HexDigits
  import opened Outcomes
  import opened Bytes
  import opened Utf

  const MAX_SAFE_INTEGER := JsNumbers.MAX_SAFE_INTEGER

  // `Real` is a number that is not written as a safe integer; it is read but not given a value.
  datatype Json =
    | Null
    | Bool(truth: bool)
    | Num(number: int)
    | Real(lexeme: Text)
    | Str(text: Text)
    | Arr(items: seq<Json>)
    | Obj(members: map<Text, Json>)

  const QUOTE: unit := 0x22
  const BACKSLASH: unit := 0x5C
  const COMMA: unit := 0x2C
  const COLON: unit := 0x3A
  const OPEN_ARRAY: unit := 0x5B
  const CLOSE_ARRAY: unit := 0x5D
  const OPEN_OBJECT: unit := 0x7B
  const CLOSE_OBJECT: unit := 0x7D
  const MINUS: unit := 0x2D
  const TRUE: Text := [0x74, 0x72, 0x75, 0x65]
  const FALSE: Text := [0x66, 0x61, 0x6C, 0x73, 0x65]
  const NULL: Text := [0x6E, 0x75, 0x6C, 0x6C]

  // ----- The printer -----

  // compareUtf16
  predicate Before(a: Text, b: Text) {
    b != [] && (a == [] || a[0] < b[0] || (a[0] == b[0] && Before(a[1..], b[1..])))
  }

  // The letter of a two-unit escape.
  function ShortEscape(u: unit): Option<unit> {
    if u == QUOTE || u == BACKSLASH then Some(u)
    else if u == 8 then Some(0x62)
    else if u == 9 then Some(0x74)
    else if u == 10 then Some(0x6E)
    else if u == 12 then Some(0x66)
    else if u == 13 then Some(0x72)
    else None
  }

  // JSON.stringify on one unit of a well-formed string.
  function Escaped(u: unit): (r: Text)
    ensures r != []
  {
    match ShortEscape(u)
    case Some(letter) => [BACKSLASH, letter]
    case None => if u < 0x20 then [BACKSLASH, 0x75, 0x30, 0x30, HexDigit(u / 16), HexDigit(u % 16)] else [u]
  }

  function PrintString(s: Text): Text {
    if s == [] then [QUOTE] else Escaped(s[0]) + PrintString(s[1..])
  }

  function Decimal(n: nat): (r: Text)
    ensures r != [] && forall i :: 0 <= i < |r| ==> 0x30 <= r[i] <= 0x39
    ensures r[0] == 0x30 ==> n == 0 && |r| == 1
  {
    if n < 10 then [0x30 + n] else Decimal(n / 10) + [0x30 + n % 10]
  }

  predicate Least(k: Text, ks: set<Text>) {
    k in ks && forall other :: other in ks && other != k ==> Before(k, other)
  }

  lemma {:induction false} BeforeTotal(a: Text, b: Text)
    ensures a == b || Before(a, b) || Before(b, a)
    ensures !(Before(a, b) && Before(b, a))
  {
    if a != [] && b != [] && a[0] == b[0] {
      BeforeTotal(a[1..], b[1..]);
      assert a == [a[0]] + a[1..] && b == [b[0]] + b[1..];
    }
  }

  lemma {:induction false} BeforeTransitive(a: Text, b: Text, c: Text)
    requires Before(a, b) && Before(b, c)
    ensures Before(a, c)
  {
    if a != [] && a[0] == b[0] == c[0] {
      BeforeTransitive(a[1..], b[1..], c[1..]);
    }
  }

  lemma {:induction false} HasLeast(ks: set<Text>)
    requires ks != {}
    ensures exists k :: Least(k, ks)
    decreases ks
  {
    var k :| k in ks;
    var others := ks - {k};
    if others == {} {
      assert ks == {k};
      assert Least(k, ks);
    } else {
      HasLeast(others);
      var m :| Least(m, others);
      BeforeTotal(k, m);
      if Before(m, k) {
        forall other | other in ks && other != m ensures Before(m, other) {
          if other != k { assert other in others; }
        }
        assert Least(m, ks);
      } else {
        forall other | other in ks && other != k ensures Before(k, other) {
          if other != m { BeforeTransitive(k, m, other); }
        }
        assert Least(k, ks);
      }
    }
  }

  lemma LeastIsUnique(ks: set<Text>)
    ensures forall k, m :: Least(k, ks) && Least(m, ks) ==> k == m
  {
    forall k, m | Least(k, ks) && Least(m, ks) ensures k == m {
      BeforeTotal(k, m);
    }
  }

  // Object.keys(value).sort(compareUtf16)
  function SortedKeys(ks: set<Text>): (r: seq<Text>)
    ensures |r| == |ks| && forall k :: k in r <==> k in ks
    ensures forall i, j :: 0 <= i < j < |r| ==> Before(r[i], r[j])
  {
    if ks == {} then []
    else
      HasLeast(ks);
      LeastIsUnique(ks);
      var k :| k in ks && Least(k, ks);
      [k] + SortedKeys(ks - {k})
  }

  // What canonicalJsonValue can print: safe integers and well-formed strings.
  predicate Printable(v: Json) {
    match v
    case Null => true
    case Bool(_) => true
    case Num(n) => -MAX_SAFE_INTEGER <= n <= MAX_SAFE_INTEGER
    case Real(_) => false
    case Str(s) => WellFormed(s)
    case Arr(vs) => forall i :: 0 <= i < |vs| ==> Printable(vs[i])
    case Obj(m) => forall k :: k in m ==> WellFormed(k) && Printable(m[k])
  }

  // canonicalJsonValue
  function Print(v: Json): Text
    decreases v, 0
  {
    match v
    case Null => NULL
    case Bool(b) => if b then TRUE else FALSE
    case Num(n) => if n < 0 then [MINUS] + Decimal(-n) else Decimal(n)
    case Real(lexeme) => lexeme
    case Str(s) => [QUOTE] + PrintString(s)
    case Arr(vs) => [OPEN_ARRAY] + if vs == [] then [CLOSE_ARRAY] else PrintItems(vs)
    case Obj(m) => [OPEN_OBJECT] + if m == map[] then [CLOSE_OBJECT] else PrintMembers(v, SortedKeys(m.Keys))
  }

  function PrintItems(vs: seq<Json>): Text
    requires vs != []
    decreases vs, 1
  {
    Print(vs[0]) + if |vs| == 1 then [CLOSE_ARRAY] else [COMMA] + PrintItems(vs[1..])
  }

  function PrintMembers(v: Json, ks: seq<Text>): Text
    requires v.Obj? && ks != [] && forall k :: k in ks ==> k in v.members
    decreases v, 0, |ks|
  {
    [QUOTE] + PrintString(ks[0]) + [COLON] + Print(v.members[ks[0]])
    + if |ks| == 1 then [CLOSE_OBJECT] else [COMMA] + PrintMembers(v, ks[1..])
  }

  // ----- The host's parser, as section 2 of RFC 8259 has it -----

  predicate Blank(u: unit) { u == 9 || u == 10 || u == 13 || u == 32 }

  function SkipBlanks(s: Text): (r: Text)
    ensures |r| <= |s|
  {
    if s != [] && Blank(s[0]) then SkipBlanks(s[1..]) else s
  }

  predicate Digit(u: unit) { 0x30 <= u <= 0x39 }

  // A hexadecimal digit of either case.
  function AnyHexValue(u: unit): (r: Option<int>)
    ensures r.Some? ==> 0 <= r.value < 16
  {
    if IsHex(u) then Some(HexValue(u)) else if 0x41 <= u <= 0x46 then Some(u - 0x41 + 10) else None
  }

  // The unit that four hexadecimal digits name.
  function HexUnit(s: Text): (r: Option<unit>)
    ensures r.Some? <==> |s| >= 4 && forall i :: 0 <= i < 4 ==> AnyHexValue(s[i]).Some?
  {
    if |s| >= 4 && AnyHexValue(s[0]).Some? && AnyHexValue(s[1]).Some? && AnyHexValue(s[2]).Some?
        && AnyHexValue(s[3]).Some? then
      Some(AnyHexValue(s[0]).value * 4096 + AnyHexValue(s[1]).value * 256 + AnyHexValue(s[2]).value * 16
          + AnyHexValue(s[3]).value)
    else None
  }

  function Unescape(letter: unit): Option<unit> {
    if letter == QUOTE || letter == BACKSLASH || letter == 0x2F then Some(letter)
    else if letter == 0x62 then Some(8)
    else if letter == 0x66 then Some(12)
    else if letter == 0x6E then Some(10)
    else if letter == 0x72 then Some(13)
    else if letter == 0x74 then Some(9)
    else None
  }

  function Prepend(u: unit, r: Result<(Text, Text)>): Result<(Text, Text)> {
    match r
    case Err(c) => Err(c)
    case Ok((t, rest)) => Ok(([u] + t, rest))
  }

  // A string after its opening quote: the text it stands for and what follows it.
  function ParseString(s: Text): (r: Result<(Text, Text)>)
    ensures r.Ok? ==> |r.value.1| < |s|
  {
    if s == [] then Err("invalid_json")
    else if s[0] == QUOTE then Ok(([], s[1..]))
    else if s[0] < 0x20 then Err("invalid_json")
    else if s[0] != BACKSLASH then Prepend(s[0], ParseString(s[1..]))
    else if |s| < 2 then Err("invalid_json")
    else if s[1] == 0x75 then
      if HexUnit(s[2..]).None? then Err("invalid_json") else Prepend(HexUnit(s[2..]).value, ParseString(s[6..]))
    else if Unescape(s[1]).None? then Err("invalid_json")
    else Prepend(Unescape(s[1]).value, ParseString(s[2..]))
  }

  function Digits(s: Text): (n: nat)
    ensures n <= |s|
  {
    if s != [] && Digit(s[0]) then 1 + Digits(s[1..]) else 0
  }

  function IntegerLength(s: Text): (n: nat)
    ensures n <= |s|
  {
    var sign := if s != [] && s[0] == MINUS then 1 else 0;
    var t := s[sign..];
    if t == [] || !Digit(t[0]) then 0 else if t[0] == 0x30 then sign + 1 else sign + Digits(t)
  }

  function FractionLength(s: Text): (n: nat)
    ensures n <= |s|
  {
    if s != [] && s[0] == 0x2E && Digits(s[1..]) > 0 then 1 + Digits(s[1..]) else 0
  }

  function ExponentLength(s: Text): (n: nat)
    ensures n <= |s|
  {
    if s == [] || (s[0] != 0x65 && s[0] != 0x45) then 0
    else
      var sign := if |s| > 1 && (s[1] == 0x2B || s[1] == MINUS) then 1 else 0;
      if Digits(s[1 + sign..]) > 0 then 1 + sign + Digits(s[1 + sign..]) else 0
  }

  // The length of the number at the front, 0 if there is none.
  function NumberLength(s: Text): (n: nat)
    ensures n <= |s|
  {
    var i := IntegerLength(s);
    if i == 0 then 0
    else
      var f := FractionLength(s[i..]);
      i + f + ExponentLength(s[i + f..])
  }

  function DecimalValue(s: Text): int {
    if s == [] then 0 else DecimalValue(s[..|s| - 1]) * 10 + s[|s| - 1] as int - 0x30
  }

  function NumberValue(lexeme: Text): Json
    requires lexeme != []
  {
    if IntegerLength(lexeme) < |lexeme| then Real(lexeme)
    else
      var n := if lexeme[0] == MINUS then -DecimalValue(lexeme[1..]) else DecimalValue(lexeme);
      if -MAX_SAFE_INTEGER <= n <= MAX_SAFE_INTEGER then Num(n) else Real(lexeme)
  }

  predicate StartsWith(s: Text, word: Text) {
    |s| >= |word| && s[..|word|] == word
  }

  // A value at the front of a text and what follows it. With `strict`, a repeated key is refused; without, the last
  // one stands.
  function Parse(s: Text, strict: bool): (r: Result<(Json, Text)>)
    ensures r.Ok? ==> |r.value.1| < |s|
    decreases |s|, 0
  {
    var t := SkipBlanks(s);
    if t == [] then Err("invalid_json")
    else if t[0] == QUOTE then
      match ParseString(t[1..])
      case Err(c) => Err(c)
      case Ok((text, rest)) => Ok((Str(text), rest))
    else if t[0] == OPEN_ARRAY then
      var u := SkipBlanks(t[1..]);
      if u != [] && u[0] == CLOSE_ARRAY then Ok((Arr([]), u[1..])) else ParseItems(u, [], strict)
    else if t[0] == OPEN_OBJECT then
      var u := SkipBlanks(t[1..]);
      if u != [] && u[0] == CLOSE_OBJECT then Ok((Obj(map[]), u[1..])) else ParseMembers(u, map[], strict)
    else if StartsWith(t, TRUE) then Ok((Bool(true), t[4..]))
    else if StartsWith(t, FALSE) then Ok((Bool(false), t[5..]))
    else if StartsWith(t, NULL) then Ok((Null, t[4..]))
    else
      var n := NumberLength(t);
      if n == 0 then Err("invalid_json") else Ok((NumberValue(t[..n]), t[n..]))
  }

  function ParseItems(s: Text, items: seq<Json>, strict: bool): (r: Result<(Json, Text)>)
    ensures r.Ok? ==> |r.value.1| < |s|
    decreases |s|, 1
  {
    match Parse(s, strict)
    case Err(c) => Err(c)
    case Ok((v, rest)) =>
      var t := SkipBlanks(rest);
      if t == [] then Err("invalid_json")
      else if t[0] == CLOSE_ARRAY then Ok((Arr(items + [v]), t[1..]))
      else if t[0] != COMMA then Err("invalid_json")
      else
        var u := SkipBlanks(t[1..]);
        if u != [] && u[0] == CLOSE_ARRAY then Err("invalid_json") else ParseItems(u, items + [v], strict)
  }

  function ParseMembers(s: Text, members: map<Text, Json>, strict: bool): (r: Result<(Json, Text)>)
    ensures r.Ok? ==> |r.value.1| < |s|
    decreases |s|, 1
  {
    if s == [] || s[0] != QUOTE then Err("invalid_json")
    else
      match ParseString(s[1..])
      case Err(c) => Err(c)
      case Ok((key, afterKey)) =>
        if strict && key in members then Err("duplicate_json_key")
        else
          var t := SkipBlanks(afterKey);
          if t == [] || t[0] != COLON then Err("invalid_json")
          else
            match Parse(t[1..], strict)
            case Err(c) => Err(c)
            case Ok((v, afterValue)) =>
              var u := SkipBlanks(afterValue);
              if u == [] then Err("invalid_json")
              else if u[0] == CLOSE_OBJECT then Ok((Obj(members[key := v]), u[1..]))
              else if u[0] != COMMA then Err("invalid_json")
              else
                var w := SkipBlanks(u[1..]);
                if w != [] && w[0] == CLOSE_OBJECT then Err("invalid_json")
                else ParseMembers(w, members[key := v], strict)
  }

  // ----- Parsing undoes printing -----

  lemma ShortEscapeUndone(u: unit)
    ensures ShortEscape(u).Some? ==> Unescape(ShortEscape(u).value) == Some(u) && ShortEscape(u).value != 0x75
    ensures ShortEscape(u).None? ==> u != QUOTE && u != BACKSLASH
  {
  }

  lemma LongEscapeUndone(u: unit, rest: Text)
    requires u < 0x20
    ensures HexUnit([0x30, 0x30, HexDigit(u / 16), HexDigit(u % 16)] + rest) == Some(u)
  {
  }

  // One printed unit is read back as that unit.
  lemma {:induction false} EscapedParses(u: unit, tail: Text)
    ensures ParseString(Escaped(u) + tail) == Prepend(u, ParseString(tail))
  {
    hide HexUnit, HexDigit;
    var s := Escaped(u) + tail;
    ShortEscapeUndone(u);
    if ShortEscape(u).Some? {
      assert s[0] == BACKSLASH && s[1] == ShortEscape(u).value && s[2..] == tail;
    } else if u < 0x20 {
      var hex := [0x30, 0x30, HexDigit(u / 16), HexDigit(u % 16)];
      assert s[0] == BACKSLASH && s[1] == 0x75 && s[2..] == hex + tail && s[6..] == tail;
      LongEscapeUndone(u, tail);
    } else {
      assert s[0] == u && s[1..] == tail;
    }
  }

  lemma {:induction false} StringParses(t: Text, rest: Text)
    ensures ParseString(PrintString(t) + rest) == Ok((t, rest))
    decreases |t|
  {
    hide Escaped, HexUnit, Unescape;
    if t == [] {
      assert ([QUOTE] + rest)[1..] == rest;
    } else {
      StringParses(t[1..], rest);
      assert PrintString(t) + rest == Escaped(t[0]) + (PrintString(t[1..]) + rest);
      EscapedParses(t[0], PrintString(t[1..]) + rest);
      assert [t[0]] + t[1..] == t;
    }
  }

  // Text that cannot be taken as a continuation of a number.
  predicate Delimited(rest: Text) {
    rest == [] || !(Digit(rest[0]) || rest[0] == 0x2E || rest[0] == 0x65 || rest[0] == 0x45)
  }

  lemma {:induction false} DigitsOf(ds: Text, rest: Text)
    requires forall i :: 0 <= i < |ds| ==> Digit(ds[i])
    requires rest == [] || !Digit(rest[0])
    ensures Digits(ds + rest) == |ds|
    decreases |ds|
  {
    if ds == [] {
      assert ds + rest == rest;
    } else {
      DigitsOf(ds[1..], rest);
      assert (ds + rest)[1..] == ds[1..] + rest;
    }
  }

  lemma {:induction false} DecimalBack(n: nat)
    ensures DecimalValue(Decimal(n)) == n
  {
    if n < 10 {
      assert Decimal(n)[..0] == [];
    } else {
      DecimalBack(n / 10);
      assert Decimal(n)[..|Decimal(n)| - 1] == Decimal(n / 10);
    }
  }

  lemma {:induction false} PrintedNumber(n: int)
    ensures Print(Num(n)) == (if n < 0 then [MINUS] else []) + Decimal(if n < 0 then -n else n)
  {
    hide Decimal;
  }

  lemma IntegerOf(n: int, rest: Text)
    requires rest == [] || !Digit(rest[0])
    ensures IntegerLength(Print(Num(n)) + rest) == |Print(Num(n))|
  {
    hide Print, Decimal, Digits;
    PrintedNumber(n);
    var ds := Decimal(if n < 0 then -n else n);
    var s := Print(Num(n)) + rest;
    DigitsOf(ds, rest);
    if n < 0 {
      assert s == [MINUS] + (ds + rest) && s[1..] == ds + rest;
    } else {
      assert s == ds + rest && s[0..] == s;
    }
  }

  lemma PrintedNumberLength(n: int, rest: Text)
    requires Delimited(rest)
    ensures var p := Print(Num(n)); NumberLength(p + rest) == |p| && (p + rest)[..|p|] == p && (p + rest)[|p|..] == rest
  {
    hide IntegerLength, Print, Digits;
    IntegerOf(n, rest);
    PrintedNumberFront(n);
    var p := Print(Num(n));
    assert (p + rest)[|p|..] == rest;
  }

  lemma PrintedNumberFront(n: int)
    ensures var p := Print(Num(n)); p != [] && (p[0] == MINUS <==> n < 0) && (p[0] == MINUS || Digit(p[0]))
  {
  }

  lemma PrintedNumberValue(n: int)
    requires -MAX_SAFE_INTEGER <= n <= MAX_SAFE_INTEGER
    ensures NumberValue(Print(Num(n))) == Num(n)
  {
    hide IntegerLength;
    var p := Print(Num(n));
    PrintedNumberFront(n);
    IntegerOf(n, []);
    assert p + [] == p;
    DecimalBack(if n < 0 then -n else n);
    if n < 0 {
      assert p[1..] == Decimal(-n);
    }
  }

  // A text that starts with none of the other forms is read as a number.
  lemma {:induction false} NumberParses(n: int, rest: Text, strict: bool)
    requires -MAX_SAFE_INTEGER <= n <= MAX_SAFE_INTEGER && Delimited(rest)
    ensures Parse(Print(Num(n)) + rest, strict) == Ok((Num(n), rest))
  {
    hide NumberLength, NumberValue, Print, ParseItems, ParseMembers, ParseString;
    PrintedNumberLength(n, rest);
    PrintedNumberValue(n);
    PrintedNumberFront(n);
    var s := Print(Num(n)) + rest;
    assert s[0] == Print(Num(n))[0];
    assert !StartsWith(s, TRUE) && !StartsWith(s, FALSE) && !StartsWith(s, NULL);
  }

  lemma {:induction false} WordParses(b: bool, rest: Text, strict: bool)
    ensures Parse(Print(Null) + rest, strict) == Ok((Null, rest))
    ensures Parse(Print(Bool(b)) + rest, strict) == Ok((Bool(b), rest))
  {
    hide NumberLength, NumberValue, ParseItems, ParseMembers, ParseString;
    var s, t := NULL + rest, Print(Bool(b)) + rest;
    assert s[0] == 0x6E && s[..4] == NULL && s[4..] == rest;
    assert !StartsWith(s, TRUE) && !StartsWith(s, FALSE);
    if b {
      assert t[0] == 0x74 && t[..4] == TRUE && t[4..] == rest;
    } else {
      assert t[0] == 0x66 && t[..5] == FALSE && t[5..] == rest;
      assert !StartsWith(t, TRUE);
    }
  }

  // How the three bracketed forms are read, given what stands behind the opening unit.
  lemma {:induction false} OpeningParses(open: unit, s: Text, strict: bool)
    requires open == QUOTE || (s != [] && !Blank(s[0]))
    ensures open == QUOTE && ParseString(s).Ok? ==>
              Parse([open] + s, strict) == Ok((Str(ParseString(s).value.0), ParseString(s).value.1))
    ensures open == OPEN_ARRAY ==>
              Parse([open] + s, strict) == if s[0] == CLOSE_ARRAY then Ok((Arr([]), s[1..]))
                  else ParseItems(s, [], strict)
    ensures open == OPEN_OBJECT ==>
              Parse([open] + s, strict) == if s[0] == CLOSE_OBJECT then Ok((Obj(map[]), s[1..]))
                  else ParseMembers(s, map[], strict)
  {
    hide NumberLength, NumberValue, ParseItems, ParseMembers, ParseString;
    assert ([open] + s)[1..] == s;
  }

  // A printed value starts with neither a blank nor a closing bracket.
  lemma {:induction false} PrintedFront(v: Json)
    requires Printable(v)
    ensures Print(v) != [] && !Blank(Print(v)[0]) && Print(v)[0] != CLOSE_ARRAY && Print(v)[0] != CLOSE_OBJECT
  {
    hide PrintItems, PrintMembers, PrintString;
  }

  /** Reading a printed value inside any text gives back the value and stops exactly at its end; a number needs a
      delimiter after it. */
  lemma {:induction false} Parses(v: Json, rest: Text, strict: bool)
    requires Printable(v) && (v.Num? ==> Delimited(rest))
    ensures Parse(Print(v) + rest, strict) == Ok((v, rest))
    decreases v, 0
  {
    hide Parse, ParseItems, ParseMembers, ParseString, PrintItems, PrintMembers, PrintString, Extended, SortedKeys;
    match v
    case Null => WordParses(true, rest, strict);
    case Bool(b) => WordParses(b, rest, strict);
    case Num(n) => NumberParses(n, rest, strict);
    case Str(t) =>
      var s := PrintString(t) + rest;
      StringParses(t, rest);
      OpeningParses(QUOTE, s, strict);
      assert Print(v) + rest == [QUOTE] + s;
    case Arr(vs) =>
      var s := (if vs == [] then [CLOSE_ARRAY] else PrintItems(vs)) + rest;
      assert Print(v) + rest == [OPEN_ARRAY] + s;
      if vs == [] {
        OpeningParses(OPEN_ARRAY, s, strict);
      } else {
        ItemsFront(vs);
        OpeningParses(OPEN_ARRAY, s, strict);
        ItemsParse(vs, [], rest, strict);
        assert [] + vs == vs;
      }
    case Obj(m) =>
      var ks := SortedKeys(m.Keys);
      var s := (if m == map[] then [CLOSE_OBJECT] else PrintMembers(v, ks)) + rest;
      assert Print(v) + rest == [OPEN_OBJECT] + s;
      if m == map[] {
        OpeningParses(OPEN_OBJECT, s, strict);
      } else {
        MembersFront(v, ks);
        OpeningParses(OPEN_OBJECT, s, strict);
        KeysDiffer(ks);
        MembersParse(v, ks, map[], rest, strict);
        ExtendedToAll(m, ks);
      }
  }

  lemma KeysDiffer(ks: seq<Text>)
    requires forall i, j :: 0 <= i < j < |ks| ==> Before(ks[i], ks[j])
    ensures forall i, j :: 0 <= i < j < |ks| ==> ks[i] != ks[j]
  {
    forall i, j | 0 <= i < j < |ks| ensures ks[i] != ks[j] {
      BeforeTotal(ks[i], ks[j]);
    }
  }

  lemma {:induction false} ItemsFront(vs: seq<Json>)
    requires vs != [] && Printable(vs[0])
    ensures PrintItems(vs) != [] && !Blank(PrintItems(vs)[0]) && PrintItems(vs)[0] != CLOSE_ARRAY
  {
    hide Print;
    PrintedFront(vs[0]);
  }

  lemma {:induction false} MembersFront(v: Json, ks: seq<Text>)
    requires v.Obj? && ks != [] && forall k :: k in ks ==> k in v.members
    ensures PrintMembers(v, ks) != [] && PrintMembers(v, ks)[0] == QUOTE
  {
    hide Print;
  }

  // What ParseItems does after one item.
  lemma {:induction false} ItemsStep(s: Text, items: seq<Json>, strict: bool, v: Json, mark: unit, after: Text)
    requires Parse(s, strict) == Ok((v, [mark] + after))
    requires mark == CLOSE_ARRAY || (mark == COMMA && after != [] && !Blank(after[0]) && after[0] != CLOSE_ARRAY)
    ensures ParseItems(s, items, strict)
         == if mark == CLOSE_ARRAY then Ok((Arr(items + [v]), after)) else ParseItems(after, items + [v], strict)
  {
    hide Parse;
    assert ([mark] + after)[1..] == after;
  }

  lemma {:induction false} ItemsParse(vs: seq<Json>, items: seq<Json>, rest: Text, strict: bool)
    requires vs != [] && forall i :: 0 <= i < |vs| ==> Printable(vs[i])
    ensures ParseItems(PrintItems(vs) + rest, items, strict) == Ok((Arr(items + vs), rest))
    decreases vs, 1
  {
    hide Parse, ParseItems, ParseMembers, ParseString, Print;
    var s := PrintItems(vs) + rest;
    if |vs| == 1 {
      assert s == Print(vs[0]) + ([CLOSE_ARRAY] + rest);
      Parses(vs[0], [CLOSE_ARRAY] + rest, strict);
      ItemsStep(s, items, strict, vs[0], CLOSE_ARRAY, rest);
      assert items + vs == items + [vs[0]];
    } else {
      var after := PrintItems(vs[1..]) + rest;
      assert s == Print(vs[0]) + ([COMMA] + after);
      Parses(vs[0], [COMMA] + after, strict);
      ItemsFront(vs[1..]);
      ItemsStep(s, items, strict, vs[0], COMMA, after);
      ItemsParse(vs[1..], items + [vs[0]], rest, strict);
      assert items + [vs[0]] + vs[1..] == items + vs;
    }
  }

  // `members` with the entries of `m` under the keys `ks`.
  function Extended(members: map<Text, Json>, m: map<Text, Json>, ks: seq<Text>): map<Text, Json>
    requires forall k :: k in ks ==> k in m
  {
    members + map k | k in ks :: m[k]
  }

  lemma ExtendedToAll(m: map<Text, Json>, ks: seq<Text>)
    requires forall k :: k in ks <==> k in m
    ensures Extended(map[], m, ks) == m
  {
  }

  lemma ExtendedStep(members: map<Text, Json>, m: map<Text, Json>, ks: seq<Text>)
    requires ks != [] && forall k :: k in ks ==> k in m
    ensures |ks| == 1 ==> Extended(members, m, ks) == members[ks[0] := m[ks[0]]]
    ensures Extended(members[ks[0] := m[ks[0]]], m, ks[1..]) == Extended(members, m, ks)
  {
    assert forall k :: k in ks <==> k == ks[0] || k in ks[1..];
  }

  // What ParseMembers does after one member.
  lemma {:induction false} MembersStep(
      s: Text, members: map<Text, Json>, strict: bool, key: Text, value: Text, v: Json, mark: unit, after: Text)
    requires ParseString(s) == Ok((key, [COLON] + value)) && key !in members
    requires Parse(value, strict) == Ok((v, [mark] + after))
    requires mark == CLOSE_OBJECT || (mark == COMMA && after != [] && after[0] == QUOTE)
    ensures ParseMembers([QUOTE] + s, members, strict)
         == if mark == CLOSE_OBJECT then Ok((Obj(members[key := v]), after))
             else ParseMembers(after, members[key := v], strict)
  {
    hide Parse, ParseString;
    assert ([QUOTE] + s)[1..] == s && ([COLON] + value)[1..] == value && ([mark] + after)[1..] == after;
  }

  lemma {:induction false} MembersParse(v: Json, ks: seq<Text>, members: map<Text, Json>, rest: Text, strict: bool)
    requires v.Obj? && Printable(v) && ks != [] && forall k :: k in ks ==> k in v.members && k !in members
    requires forall i, j :: 0 <= i < j < |ks| ==> ks[i] != ks[j]
    ensures ParseMembers(PrintMembers(v, ks) + rest, members, strict)
            == Ok((Obj(Extended(members, v.members, ks)), rest))
    decreases v, 0, |ks|
  {
    hide Parse, ParseItems, ParseMembers, ParseString, Print, PrintString, Extended;
    var key, x := ks[0], v.members[ks[0]];
    var members' := members[key := x];
    var mark := if |ks| == 1 then CLOSE_OBJECT else COMMA;
    var after := if |ks| == 1 then rest else PrintMembers(v, ks[1..]) + rest;
    var value := Print(x) + ([mark] + after);
    var s := PrintString(key) + ([COLON] + value);
    assert PrintMembers(v, ks) + rest == [QUOTE] + s;
    StringParses(key, [COLON] + value);
    Parses(x, [mark] + after, strict);
    if |ks| == 1 {
      MembersStep(s, members, strict, key, value, x, mark, after);
      ExtendedStep(members, v.members, ks);
    } else {
      MembersFront(v, ks[1..]);
      MembersStep(s, members, strict, key, value, x, mark, after);
      MembersParse(v, ks[1..], members', rest, strict);
      ExtendedStep(members, v.members, ks);
    }
  }

  // ----- The scanner -----

  function ScanString(s: Text): (r: Result<Text>)
    ensures r.Ok? ==> |r.value| < |s|
  {
    if s == [] then Err("invalid_json")
    else if s[0] == QUOTE then Ok(s[1..])
    else if s[0] < 0x20 then Err("invalid_json")
    else if s[0] != BACKSLASH then ScanString(s[1..])
    else if |s| < 2 then Err("invalid_json")
    else if s[1] == 0x75 then if HexUnit(s[2..]).None? then Err("invalid_json") else ScanString(s[6..])
    else if s[1] !in {QUOTE, BACKSLASH, 0x2F, 0x62, 0x66, 0x6E, 0x72, 0x74} then Err("invalid_json")
    else ScanString(s[2..])
  }

  // scanJsonValue on the text from its start index on; the result is the text from its end index on.
  function Scan(s: Text): (r: Result<Text>)
    ensures r.Ok? ==> |r.value| < |s|
    decreases |s|, 0
  {
    var t := SkipBlanks(s);
    if t == [] then Err("invalid_json")
    else if t[0] == QUOTE then ScanString(t[1..])
    else if t[0] == OPEN_ARRAY then
      var u := SkipBlanks(t[1..]);
      if u != [] && u[0] == CLOSE_ARRAY then Ok(u[1..]) else ScanItems(u)
    else if t[0] == OPEN_OBJECT then
      var u := SkipBlanks(t[1..]);
      if u != [] && u[0] == CLOSE_OBJECT then Ok(u[1..]) else ScanMembers(u, {})
    else if StartsWith(t, TRUE) then Ok(t[4..])
    else if StartsWith(t, FALSE) then Ok(t[5..])
    else if StartsWith(t, NULL) then Ok(t[4..])
    else if NumberLength(t) == 0 then Err("invalid_json")
    else Ok(t[NumberLength(t)..])
  }

  function ScanItems(s: Text): (r: Result<Text>)
    ensures r.Ok? ==> |r.value| < |s|
    decreases |s|, 1
  {
    match Scan(s)
    case Err(c) => Err(c)
    case Ok(rest) =>
      var t := SkipBlanks(rest);
      if t == [] then Err("invalid_json")
      else if t[0] == CLOSE_ARRAY then Ok(t[1..])
      else if t[0] != COMMA then Err("invalid_json")
      else
        var u := SkipBlanks(t[1..]);
        if u != [] && u[0] == CLOSE_ARRAY then Err("invalid_json") else ScanItems(u)
  }

  function ScanMembers(s: Text, keys: set<Text>): (r: Result<Text>)
    ensures r.Ok? ==> |r.value| < |s|
    decreases |s|, 1
  {
    if s == [] || s[0] != QUOTE then Err("invalid_json")
    else
      match ScanString(s[1..])
      case Err(c) => Err(c)
      case Ok(afterKey) =>
        var key := ParseString(s[1..]);
        if key.Err? then Err("invalid_json")
        else if key.value.0 in keys then Err("duplicate_json_key")
        else
          var t := SkipBlanks(afterKey);
          if t == [] || t[0] != COLON then Err("invalid_json")
          else
            match Scan(t[1..])
            case Err(c) => Err(c)
            case Ok(afterValue) =>
              var u := SkipBlanks(afterValue);
              if u == [] then Err("invalid_json")
              else if u[0] == CLOSE_OBJECT then Ok(u[1..])
              else if u[0] != COMMA then Err("invalid_json")
              else
                var w := SkipBlanks(u[1..]);
                if w != [] && w[0] == CLOSE_OBJECT then Err("invalid_json") else ScanMembers(w, keys + {key.value.0})
  }

  function RestOf<T>(r: Result<(T, Text)>): Result<Text> {
    match r
    case Err(c) => Err(c)
    case Ok((_, rest)) => Ok(rest)
  }

  lemma {:induction false} StringScans(s: Text)
    ensures ScanString(s) == RestOf(ParseString(s))
    decreases |s|
  {
    hide HexUnit;
    if s == [] || s[0] == QUOTE || s[0] < 0x20 {
    } else if s[0] != BACKSLASH {
      StringScans(s[1..]);
    } else if |s| >= 6 && s[1] == 0x75 {
      StringScans(s[6..]);
    } else if |s| >= 2 {
      StringScans(s[2..]);
    }
  }

  /** The strict scanner stops exactly where a parser that refuses repeated keys stops, and fails exactly when it does,
      with the same code. */
  lemma {:induction false} ScanIsStrictParse(s: Text)
    ensures Scan(s) == RestOf(Parse(s, true))
    decreases |s|, 0
  {
    hide ScanString, ParseString, NumberLength, NumberValue, SkipBlanks, ScanItems, ScanMembers, ParseItems,
         ParseMembers;
    var t := SkipBlanks(s);
    if t != [] {
      StringScans(t[1..]);
      var u := SkipBlanks(t[1..]);
      ScanItemsIsStrict(u, []);
      var none: map<Text, Json> := map[];
      ScanMembersIsStrict(u, none);
      assert none.Keys == {};
    }
  }

  lemma {:induction false} ScanItemsIsStrict(s: Text, items: seq<Json>)
    ensures ScanItems(s) == RestOf(ParseItems(s, items, true))
    decreases |s|, 1
  {
    hide Scan, Parse, SkipBlanks;
    ScanIsStrictParse(s);
    if Parse(s, true).Ok? {
      var (v, rest) := Parse(s, true).value;
      var t := SkipBlanks(rest);
      if t != [] {
        ScanItemsIsStrict(SkipBlanks(t[1..]), items + [v]);
      }
    }
  }

  lemma {:induction false} ScanMembersIsStrict(s: Text, members: map<Text, Json>)
    ensures ScanMembers(s, members.Keys) == RestOf(ParseMembers(s, members, true))
    decreases |s|, 1
  {
    hide Scan, Parse, SkipBlanks, ParseString, ScanString;
    if s != [] && s[0] == QUOTE {
      StringScans(s[1..]);
      if ParseString(s[1..]).Ok? {
        var (key, afterKey) := ParseString(s[1..]).value;
        var t := SkipBlanks(afterKey);
        if t != [] && t[0] == COLON {
          ScanIsStrictParse(t[1..]);
          if Parse(t[1..], true).Ok? {
            var (v, afterValue) := Parse(t[1..], true).value;
            var u := SkipBlanks(afterValue);
            if u != [] {
              ScanMembersIsStrict(SkipBlanks(u[1..]), members[key := v]);
              assert members[key := v].Keys == members.Keys + {key};
            }
          }
        }
      }
    }
  }

  /** All the scanner refuses beyond the host's parser is a repeated key; what it lets through, the parser accepts. */
  lemma {:induction false} StrictOnlyRefusesRepeats(s: Text)
    ensures Parse(s, true) == Parse(s, false) || Parse(s, true) == Err("duplicate_json_key")
    decreases |s|, 0
  {
    hide ParseString, NumberLength, NumberValue, SkipBlanks, ParseItems, ParseMembers;
    var t := SkipBlanks(s);
    if t != [] {
      var u := SkipBlanks(t[1..]);
      StrictItems(u, []);
      StrictMembers(u, map[]);
    }
  }

  lemma {:induction false} StrictItems(s: Text, items: seq<Json>)
    ensures ParseItems(s, items, true) == ParseItems(s, items, false)
            || ParseItems(s, items, true) == Err("duplicate_json_key")
    decreases |s|, 1
  {
    hide Parse, SkipBlanks;
    StrictOnlyRefusesRepeats(s);
    if Parse(s, true).Ok? {
      var (v, rest) := Parse(s, true).value;
      var t := SkipBlanks(rest);
      if t != [] {
        StrictItems(SkipBlanks(t[1..]), items + [v]);
      }
    }
  }

  lemma {:induction false} StrictMembers(s: Text, members: map<Text, Json>)
    ensures ParseMembers(s, members, true) == ParseMembers(s, members, false)
         || ParseMembers(s, members, true) == Err("duplicate_json_key")
    decreases |s|, 1
  {
    hide Parse, SkipBlanks, ParseString;
    if s != [] && s[0] == QUOTE && ParseString(s[1..]).Ok? {
      var (key, afterKey) := ParseString(s[1..]).value;
      var t := SkipBlanks(afterKey);
      if t != [] && t[0] == COLON {
        StrictOnlyRefusesRepeats(t[1..]);
        if Parse(t[1..], true).Ok? {
          var (v, afterValue) := Parse(t[1..], true).value;
          var u := SkipBlanks(afterValue);
          if u != [] {
            StrictMembers(SkipBlanks(u[1..]), members[key := v]);
          }
        }
      }
    }
  }

  /** scanJsonValue, started at a printed value inside any text, stops exactly at the value's end. */
  lemma {:induction false} ScanStopsAtEnd(v: Json, rest: Text)
    requires Printable(v) && (v.Num? ==> Delimited(rest))
    ensures Scan(Print(v) + rest) == Ok(rest)
  {
    hide Scan, Parse, Print;
    Parses(v, rest, true);
    ScanIsStrictParse(Print(v) + rest);
  }

  // ----- Whole messages -----

  // parseStrictJson
  function ParseStrict(b: Bytes): Result<Json> {
    match Decoded(b)
    case None => Err("invalid_json")
    case Some(text) =>
      if text != [] && text[0] == 0xFEFF then Err("invalid_json")
      else
        match Scan(text)
        case Err(c) => Err(c)
        case Ok(rest) =>
          if SkipBlanks(rest) != [] then Err("invalid_json")
          else
            match Parse(text, false)
            case Err(_) => Err("invalid_json")
            case Ok((v, end)) => if SkipBlanks(end) != [] then Err("invalid_json") else Ok(v)
  }

  // canonicalJsonBytes
  function CanonicalBytes(v: Json): Result<Bytes> {
    if Printable(v) then Ok(Utf8(Print(v))) else Err("invalid_json")
  }

  // parseCanonicalJson
  function ParseCanonical(b: Bytes): Result<Json> {
    match ParseStrict(b)
    case Err(c) => Err(c)
    case Ok(v) =>
      match CanonicalBytes(v)
      case Err(c) => Err(c)
      case Ok(canonical) => if canonical != b then Err("non_canonical_json") else Ok(v)
  }

  // Well-formed and free of control units; what the printer only ever produces.
  predicate Clean(t: Text) {
    WellFormed(t) && forall i :: 0 <= i < |t| ==> t[i] >= 0x20
  }

  lemma {:induction false} WellFormedAppend(a: Text, b: Text)
    requires WellFormed(a) && WellFormed(b)
    ensures WellFormed(a + b)
    decreases |a|
  {
    if a == [] {
      assert a + b == b;
    } else if High(a[0]) {
      WellFormedAppend(a[2..], b);
      assert (a + b)[2..] == a[2..] + b;
    } else {
      WellFormedAppend(a[1..], b);
      assert (a + b)[1..] == a[1..] + b;
    }
  }

  lemma CleanAppend(a: Text, b: Text)
    requires Clean(a) && Clean(b)
    ensures Clean(a + b)
  {
    WellFormedAppend(a, b);
  }

  lemma {:induction false} AsciiIsClean(a: Text)
    requires forall i :: 0 <= i < |a| ==> 0x20 <= a[i] < 0x80
    ensures Clean(a)
    decreases |a|
  {
    if a != [] { AsciiIsClean(a[1..]); }
  }

  lemma EscapedClean(u: unit)
    requires !High(u) && !Low(u)
    ensures Clean(Escaped(u))
  {
    if u < 0x20 || ShortEscape(u).Some? {
      AsciiIsClean(Escaped(u));
    } else {
      assert Escaped(u)[1..] == [];
    }
  }

  lemma PairClean(high: unit, low: unit)
    requires High(high) && Low(low)
    ensures Clean(Escaped(high) + Escaped(low))
  {
    assert Escaped(high) + Escaped(low) == [high, low] && [high, low][2..] == [];
  }

  lemma {:induction false} PrintedStringClean(s: Text)
    requires WellFormed(s)
    ensures Clean(PrintString(s))
    decreases |s|
  {
    hide Escaped, Clean;
    if s == [] {
      AsciiIsClean([QUOTE]);
    } else if High(s[0]) {
      var tail := PrintString(s[2..]);
      PrintedStringClean(s[2..]);
      PairClean(s[0], s[1]);
      assert s[1..][1..] == s[2..] && s[1..][0] == s[1];
      assert PrintString(s) == (Escaped(s[0]) + Escaped(s[1])) + tail;
      CleanAppend(Escaped(s[0]) + Escaped(s[1]), tail);
    } else {
      PrintedStringClean(s[1..]);
      EscapedClean(s[0]);
      CleanAppend(Escaped(s[0]), PrintString(s[1..]));
    }
  }

  /** The printed form of a value is well-formed text without control characters. */
  lemma {:induction false} PrintedClean(v: Json)
    requires Printable(v)
    ensures Clean(Print(v))
    decreases v, 0
  {
    hide Clean;
    match v
    case Null => AsciiIsClean(NULL);
    case Bool(b) => AsciiIsClean(TRUE); AsciiIsClean(FALSE);
    case Num(n) => AsciiIsClean(Print(v));
    case Str(s) =>
      AsciiIsClean([QUOTE]);
      PrintedStringClean(s);
      CleanAppend([QUOTE], PrintString(s));
    case Arr(vs) =>
      AsciiIsClean([OPEN_ARRAY]);
      AsciiIsClean([CLOSE_ARRAY]);
      if vs != [] { ItemsClean(vs); }
      CleanAppend([OPEN_ARRAY], if vs == [] then [CLOSE_ARRAY] else PrintItems(vs));
    case Obj(m) =>
      AsciiIsClean([OPEN_OBJECT]);
      AsciiIsClean([CLOSE_OBJECT]);
      var ks := SortedKeys(m.Keys);
      if m != map[] { MembersClean(v, ks); }
      CleanAppend([OPEN_OBJECT], if m == map[] then [CLOSE_OBJECT] else PrintMembers(v, ks));
  }

  lemma {:induction false} ItemsClean(vs: seq<Json>)
    requires vs != [] && forall i :: 0 <= i < |vs| ==> Printable(vs[i])
    ensures Clean(PrintItems(vs))
    decreases vs, 1
  {
    hide Clean, Print;
    PrintedClean(vs[0]);
    AsciiIsClean([CLOSE_ARRAY]);
    AsciiIsClean([COMMA]);
    if |vs| == 1 {
      CleanAppend(Print(vs[0]), [CLOSE_ARRAY]);
    } else {
      ItemsClean(vs[1..]);
      CleanAppend([COMMA], PrintItems(vs[1..]));
      CleanAppend(Print(vs[0]), [COMMA] + PrintItems(vs[1..]));
    }
  }

  lemma {:induction false} MembersClean(v: Json, ks: seq<Text>)
    requires v.Obj? && Printable(v) && ks != [] && forall k :: k in ks ==> k in v.members
    ensures Clean(PrintMembers(v, ks))
    decreases v, 0, |ks|
  {
    hide Clean, Print, PrintString;
    AsciiIsClean([QUOTE]);
    AsciiIsClean([COLON]);
    AsciiIsClean([CLOSE_OBJECT]);
    AsciiIsClean([COMMA]);
    PrintedStringClean(ks[0]);
    PrintedClean(v.members[ks[0]]);
    CleanAppend([QUOTE], PrintString(ks[0]));
    CleanAppend([QUOTE] + PrintString(ks[0]), [COLON]);
    var member := [QUOTE] + PrintString(ks[0]) + [COLON] + Print(v.members[ks[0]]);
    CleanAppend([QUOTE] + PrintString(ks[0]) + [COLON], Print(v.members[ks[0]]));
    if |ks| == 1 {
      CleanAppend(member, [CLOSE_OBJECT]);
    } else {
      MembersClean(v, ks[1..]);
      CleanAppend([COMMA], PrintMembers(v, ks[1..]));
      CleanAppend(member, [COMMA] + PrintMembers(v, ks[1..]));
    }
  }

  lemma {:induction false} PrintedIsAscii(v: Json)
    requires Printable(v)
    ensures Print(v) != [] && Print(v)[0] < 0x80
  {
    hide PrintItems, PrintMembers, PrintString;
  }

  lemma {:induction false} PrintedDecodes(v: Json)
    requires Printable(v)
    ensures Decoded(Utf8(Print(v))) == Some(Print(v))
  {
    hide Print;
    PrintedClean(v);
    PrintedIsAscii(v);
    Utf8RoundTrip(Print(v));
  }

  /** The accepted encodings are exactly the printer's image: a message is accepted as `v` if and only if it is the
      one encoding of `v`. */
  lemma {:induction false} CanonicalAcceptance(b: Bytes, v: Json)
    ensures ParseCanonical(b) == Ok(v) <==> Printable(v) && b == Utf8(Print(v))
  {
    hide Scan, Parse, Print, Utf8, Decoded, Printable;
    if Printable(v) && b == Utf8(Print(v)) {
      PrintedDecodes(v);
      PrintedIsAscii(v);
      assert Print(v) + [] == Print(v);
      Parses(v, [], false);
      ScanStopsAtEnd(v, []);
    }
  }

  /** Different values have different encodings, and no encoding holds a zero byte. */
  lemma {:induction false} CanonicalIsInjective(v: Json, w: Json)
    requires Printable(v) && Printable(w) && Utf8(Print(v)) == Utf8(Print(w))
    ensures v == w
  {
    hide ParseCanonical, Print, Utf8, Printable;
    CanonicalAcceptance(Utf8(Print(v)), v);
    CanonicalAcceptance(Utf8(Print(v)), w);
  }

  lemma {:induction false} CanonicalHasNoZero(v: Json)
    requires Printable(v)
    ensures 0 !in Utf8(Print(v))
  {
    hide Print, Utf8;
    PrintedClean(v);
    NoZeroByte(Print(v));
  }
}
