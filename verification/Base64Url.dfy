/** Canonical unpadded base64url (frontend/src/transferProtocol.ts, section 5 of RFC 4648). */
module Base64Url {
  import opened Outcomes
  import opened Bytes
  import opened Utf

  function Letter(n: int): unit
    requires 0 <= n < 64
  {
    if n < 26 then 0x41 + n
    else if n < 52 then 0x61 + n - 26
    else if n < 62 then 0x30 + n - 52
    else if n == 62 then 0x2D
    else 0x5F
  }

  function LetterValue(u: unit): (r: Option<int>)
    ensures r.Some? ==> 0 <= r.value < 64
  {
    if 0x41 <= u <= 0x5A then Some(u - 0x41)
    else if 0x61 <= u <= 0x7A then Some(u - 0x61 + 26)
    else if 0x30 <= u <= 0x39 then Some(u - 0x30 + 52)
    else if u == 0x2D then Some(62)
    else if u == 0x5F then Some(63)
    else None
  }

  lemma LetterBack(n: int)
    requires 0 <= n < 64
    ensures LetterValue(Letter(n)) == Some(n)
  {
  }

  function Encode(b: Bytes): Text {
    if b == [] then []
    else if |b| == 1 then [Letter(b[0] / 4), Letter(b[0] % 4 * 16)]
    else if |b| == 2 then [Letter(b[0] / 4), Letter(b[0] % 4 * 16 + b[1] / 16), Letter(b[1] % 16 * 4)]
    else
      [Letter(b[0] / 4), Letter(b[0] % 4 * 16 + b[1] / 16), Letter(b[1] % 16 * 4 + b[2] / 64), Letter(b[2] % 64)]
      + Encode(b[3..])
  }

  predicate InAlphabet(t: Text) {
    forall i :: 0 <= i < |t| ==> LetterValue(t[i]).Some?
  }

  function Value(t: Text, i: nat): (r: int)
    requires i < |t| && InAlphabet(t)
    ensures 0 <= r < 64
  {
    LetterValue(t[i]).value
  }

  // atob: bits left over at the end are dropped.
  function Bits(t: Text): Bytes
    requires InAlphabet(t)
  {
    if |t| < 2 then []
    else if |t| == 2 then [Value(t, 0) * 4 + Value(t, 1) / 16]
    else if |t| == 3 then [Value(t, 0) * 4 + Value(t, 1) / 16, Value(t, 1) % 16 * 16 + Value(t, 2) / 4]
    else
      [Value(t, 0) * 4 + Value(t, 1) / 16, Value(t, 1) % 16 * 16 + Value(t, 2) / 4, Value(t, 2) % 4 * 64 + Value(t, 3)]
      + Bits(t[4..])
  }

  // decodeBase64Url
  function Decode(t: Text, maximumBytes: nat): Result<Bytes> {
    if |t| > maximumBytes * 2 || !InAlphabet(t) || |t| % 4 == 1 then Err("invalid_base64url")
    else if t == [] then Ok([])
    else if |Bits(t)| > maximumBytes || Encode(Bits(t)) != t then Err("invalid_base64url")
    else Ok(Bits(t))
  }

  // Four letters of six bits hold three bytes.
  lemma Regroup(x: byte, y: byte, z: byte)
    ensures x / 4 * 4 + (x % 4 * 16 + y / 16) / 16 == x
    ensures (x % 4 * 16 + y / 16) % 16 * 16 + (y % 16 * 4 + z / 64) / 4 == y
    ensures (y % 16 * 4 + z / 64) % 4 * 64 + z % 64 == z
  {
  }

  lemma {:induction false} FrontLetters(b: Bytes)
    requires b != []
    ensures var t, y, z := Encode(b), if |b| > 1 then b[1] else 0, if |b| > 2 then b[2] else 0;
            && |t| >= 2 && LetterValue(t[0]) == Some(b[0] / 4) && LetterValue(t[1]) == Some(b[0] % 4 * 16 + y / 16)
            && (|b| > 1 ==> |t| >= 3 && LetterValue(t[2]) == Some(y % 16 * 4 + z / 64))
            && (|b| > 2 ==> |t| >= 4 && LetterValue(t[3]) == Some(z % 64) && t[4..] == Encode(b[3..]))
            && (|b| == 1 ==> |t| == 2) && (|b| == 2 ==> |t| == 3)
  {
    hide Letter, LetterValue;
    var y, z := if |b| > 1 then b[1] else 0, if |b| > 2 then b[2] else 0;
    LetterBack(b[0] / 4);
    LetterBack(b[0] % 4 * 16 + y / 16);
    LetterBack(y % 16 * 4 + z / 64);
    LetterBack(z % 64);
  }

  lemma {:induction false} BitsOfEncoded(b: Bytes)
    ensures InAlphabet(Encode(b)) && Bits(Encode(b)) == b
    ensures |Encode(b)| % 4 != 1 && |b| <= |Encode(b)| <= 2 * |b|
    decreases |b|
  {
    hide Encode, InAlphabet, Bits, LetterValue;
    if b == [] {
      EmptyEncodes();
    } else if |b| < 3 {
      BitsStep(b);
    } else {
      BitsOfEncoded(b[3..]);
      BitsStep(b);
    }
  }

  lemma {:induction false} BitsStep(b: Bytes)
    requires b != [] && (|b| >= 3 ==> InAlphabet(Encode(b[3..])) && Bits(Encode(b[3..])) == b[3..])
    ensures InAlphabet(Encode(b)) && Bits(Encode(b)) == b
    ensures |Encode(b)| == if |b| >= 3 then 4 + |Encode(b[3..])| else |b| + 1
  {
    hide Encode, LetterValue;
    var t := Encode(b);
    FrontLetters(b);
    Regroup(b[0], if |b| > 1 then b[1] else 0, if |b| > 2 then b[2] else 0);
    if |b| >= 3 {
      assert forall i :: 4 <= i < |t| ==> t[i] == t[4..][i - 4];
    }
    assert b == b[..if |b| >= 3 then 3 else |b|] + if |b| >= 3 then b[3..] else [];
  }

  /** A text decodes to a byte string if and only if it is that string's encoding and the string is short enough. */
  lemma {:induction false} DecodesExactly(t: Text, maximumBytes: nat, b: Bytes)
    ensures Decode(t, maximumBytes) == Ok(b) <==> t == Encode(b) && |b| <= maximumBytes
  {
    hide Encode, Bits, LetterValue;
    BitsOfEncoded(b);
    BitsOfEncoded([]);
    if t == [] {
      assert Encode([]) == [] by { EmptyEncodes(); }
    }
  }

  lemma EmptyEncodes()
    ensures Encode([]) == [] && InAlphabet([]) && Bits([]) == []
  {
  }

  lemma {:induction false} EncodeIsInjective(a: Bytes, b: Bytes)
    requires Encode(a) == Encode(b)
    ensures a == b
  {
    BitsOfEncoded(a);
    BitsOfEncoded(b);
  }

  // ----- Bit by bit -----

  /** Table 2 of RFC 4648: A to Z, a to z, 0 to 9, minus, underscore. */
  lemma {:induction false} LetterTable(n: int)
    requires 0 <= n < 64
    ensures Letter(n) == if n < 26 then 'A' as int + n else if n < 52 then 'a' as int + n - 26
                         else if n < 62 then '0' as int + n - 52 else if n == 62 then '-' as int else '_' as int
    ensures LetterValue(Letter(n)) == Some(n)
  {
  }

  // Bit `k` of a number that has `width` bits, the first being the most significant.
  function BitOf(n: nat, width: nat, k: nat): nat
    requires k < width
    decreases width
  {
    if k == width - 1 then n % 2 else BitOf(n / 2, width - 1, k)
  }

  function BitOfBytes(b: Bytes, j: nat): nat {
    if j < 8 * |b| then BitOf(b[j / 8], 8, j % 8) else 0
  }

  function BitOfText(t: Text, j: nat): nat
    requires j < 6 * |t| && InAlphabet(t)
  {
    BitOf(Value(t, j / 6), 6, j % 6)
  }

  // The bits of a number that is put together from two.
  lemma {:induction false} JoinedBits(q: nat, r: nat, high: nat, low: nat, k: nat)
    requires q < Power(high) && r < Power(low) && k < high + low
    ensures BitOf(q * Power(low) + r, high + low, k) == if k < high then BitOf(q, high, k) else BitOf(r, low, k - high)
    decreases low
  {
    var n := q * Power(low) + r;
    if low > 0 {
      assert n == 2 * (q * Power(low - 1)) + r;
      assert n / 2 == q * Power(low - 1) + r / 2 && n % 2 == r % 2;
      if k < high + low - 1 { JoinedBits(q, r / 2, high, low - 1, k); }
    }
  }

  function Power(n: nat): (p: nat)
    ensures p > 0
  {
    if n == 0 then 1 else 2 * Power(n - 1)
  }

  lemma {:induction false} GroupBits(x: byte, y: byte, z: byte, j: nat)
    requires j < 24
    ensures var letters: seq<nat> := [x / 4, x % 4 * 16 + y / 16, y % 16 * 4 + z / 64, z % 64];
            var bytes: seq<nat> := [x, y, z];
            BitOf(letters[j / 6], 6, j % 6) == BitOf(bytes[j / 8], 8, j % 8)
  {
    hide BitOf;
    assert Power(2) == 4 && Power(4) == 16 && Power(6) == 64;
    JoinedBits(x / 4, x % 4, 6, 2, j % 8);
    JoinedBits(y / 16, y % 16, 4, 4, j % 8);
    JoinedBits(z / 64, z % 64, 2, 6, j % 8);
    JoinedBits(x % 4, y / 16, 2, 4, j % 6);
    JoinedBits(y % 16, z / 64, 4, 2, j % 6);
  }

  lemma {:induction false} EncodedSize(b: Bytes)
    ensures |Encode(b)| == (8 * |b| + 5) / 6
    decreases |b|
  {
    hide Letter;
    if |b| >= 3 { EncodedSize(b[3..]); }
  }

  /** Bit by bit: the letters carry the bits of the bytes, most significant first, and zeros to fill up the last one;
      there
      are as few letters as that takes. */
  lemma {:induction false} EncodesBits(b: Bytes, j: nat)
    requires j < 6 * |Encode(b)|
    ensures |Encode(b)| == (8 * |b| + 5) / 6
    ensures InAlphabet(Encode(b)) && BitOfText(Encode(b), j) == BitOfBytes(b, j)
    decreases |b|
  {
    hide Encode, LetterValue, BitOf, Bits;
    EncodedSize(b);
    BitsOfEncoded(b);
    var t := Encode(b);
    if b != [] {
      FrontLetters(b);
      if j < 24 {
        var x, y, z := b[0], if |b| > 1 then b[1] else 0, if |b| > 2 then b[2] else 0;
        GroupBits(x, y, z, j);
        var bytes: seq<nat> := [x, y, z];
        if j >= 8 * |b| { NoBits(8, j % 8); }
        assert BitOfBytes(b, j) == BitOf(bytes[j / 8], 8, j % 8);
      } else {
        var rest := b[3..];
        BitsOfEncoded(rest);
        EncodedSize(rest);
        EncodesBits(rest, j - 24);
        assert (j - 24) / 6 == j / 6 - 4 && (j - 24) / 8 == j / 8 - 3;
        assert t[4..][(j - 24) / 6] == t[j / 6];
      }
    } else {
      EmptyEncodes();
    }
  }

  lemma {:induction false} NoBits(width: nat, k: nat)
    requires k < width
    ensures BitOf(0, width, k) == 0
    decreases width
  {
    if k < width - 1 { NoBits(width - 1, k); }
  }
}
