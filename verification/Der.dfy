/** ECDSA signatures in fixed-width P1363 form and in strict DER (frontend/src/transferProtocol.ts). */
module DerSignature {
  import opened Outcomes
  import opened Bytes

  const INVALID := "invalid_signature"

  // derLength
  function DerLength(length: nat): Result<Bytes> {
    if length > 255 then Err(INVALID)
    else if length > 127 then Ok([0x81, length])
    else Ok([length])
  }

  // The magnitude without its leading zero bytes; one byte always stays.
  function Stripped(v: Bytes): (r: Bytes)
    ensures |r| <= |v| && (|v| > 0 ==> |r| > 0)
  {
    if |v| > 1 && v[0] == 0 then Stripped(v[1..]) else v
  }

  function IntegerBody(v: Bytes): Bytes {
    var b := Stripped(v);
    if b != [] && b[0] >= 0x80 then [0] + b else b
  }

  function DerInteger(v: Bytes): Result<Bytes> {
    var body := IntegerBody(v);
    match DerLength(|body|)
    case Ok(l) => Ok([0x02] + l + body)
    case Err(c) => Err(c)
  }

  function P1363ToDer(signature: Bytes): Result<Bytes> {
    if |signature| != 64 || AllZero(signature[..32]) || AllZero(signature[32..]) then Err(INVALID)
    else
      match (DerInteger(signature[..32]), DerInteger(signature[32..]))
      case (Ok(r), Ok(s)) =>
        (match DerLength(|r| + |s|)
         case Ok(l) => Ok([0x30] + l + (r + s))
         case Err(c) => Err(c))
      case _ => Err(INVALID)
  }

  // derInteger's loop over the leading zeros.
  method StripLeadingZeros(value: Bytes) returns (body: Bytes)
    requires value != []
    ensures body == IntegerBody(value)
  {
    var start := 0;
    while start < |value| - 1 && value[start] == 0
      invariant 0 <= start < |value|
      invariant Stripped(value[start..]) == Stripped(value)
    {
      assert value[start..][1..] == value[start + 1..];
      start := start + 1;
    }
    body := value[start..];
    if body[0] >= 0x80 {
      body := [0] + body;
    }
  }

  // readDerLength: the length and the offset after it.
  function ReadLength(b: Bytes, offset: nat): Result<(nat, nat)> {
    if offset >= |b| then Err(INVALID)
    else if b[offset] < 0x80 then Ok((b[offset], offset + 1))
    else if b[offset] != 0x81 || offset + 1 >= |b| || b[offset + 1] < 128 then Err(INVALID)
    else Ok((b[offset + 1], offset + 2))
  }

  // readDerInteger: the content bytes and the offset after them.
  function ReadInteger(b: Bytes, offset: nat): Result<(Bytes, nat)> {
    if offset >= |b| || b[offset] != 0x02 then Err(INVALID)
    else
      match ReadLength(b, offset + 1)
      case Err(c) => Err(c)
      case Ok((length, next)) =>
        if length < 1 || next + length > |b| then Err(INVALID)
        else
          var v := b[next..next + length];
          if v[0] >= 0x80 || (|v| > 1 && v[0] == 0 && v[1] < 0x80) then Err(INVALID)
          else if AllZero(v) || |v| > 33 || (|v| == 33 && v[0] != 0) then Err(INVALID)
          else Ok((v, next + length))
  }

  function Normalize(v: Bytes): Result<Bytes>
    requires v != []
  {
    var u := if v[0] == 0 then v[1..] else v;
    if |u| > 32 || AllZero(u) then Err(INVALID) else Ok(Zeros(32 - |u|) + u)
  }

  function DerToP1363(b: Bytes): Result<Bytes> {
    if b == [] || b[0] != 0x30 then Err(INVALID)
    else
      match ReadLength(b, 1)
      case Err(c) => Err(c)
      case Ok((length, next)) =>
        if next + length != |b| then Err(INVALID)
        else
          match ReadInteger(b, next)
          case Err(c) => Err(c)
          case Ok((r, afterR)) =>
            match ReadInteger(b, afterR)
            case Err(c) => Err(c)
            case Ok((s, afterS)) =>
              if afterS != |b| || r == [] || s == [] then Err(INVALID)
              else
                match (Normalize(r), Normalize(s))
                case (Ok(x), Ok(y)) => Ok(x + y)
                case _ => Err(INVALID)
  }

  // ----- Integers: a nonzero 32-byte magnitude and its minimal two's-complement content -----

  predicate Minimal(v: Bytes) {
    && 1 <= |v| <= 33 && v[0] < 0x80 && !AllZero(v)
    && (|v| > 1 && v[0] == 0 ==> v[1] >= 0x80)
    && (|v| == 33 ==> v[0] == 0)
  }

  function Magnitude(v: Bytes): Bytes
    requires Minimal(v)
  {
    var u := if v[0] == 0 then v[1..] else v;
    Zeros(32 - |u|) + u
  }

  lemma {:induction false} StrippedIsSuffix(v: Bytes)
    requires !AllZero(v)
    ensures |Stripped(v)| <= |v| && Stripped(v) != [] && Stripped(v)[0] != 0
    ensures v == Zeros(|v| - |Stripped(v)|) + Stripped(v)
  {
    if |v| > 1 && v[0] == 0 {
      assert v == [0] + v[1..];
      StrippedIsSuffix(v[1..]);
    } else {
      assert Zeros(0) + v == v;
    }
  }

  lemma {:induction false} StrippedOfPadded(n: nat, u: Bytes)
    requires u != [] && u[0] != 0
    ensures Stripped(Zeros(n) + u) == u
  {
    if n == 0 {
      assert Zeros(0) + u == u;
    } else {
      assert (Zeros(n) + u)[1..] == Zeros(n - 1) + u;
      StrippedOfPadded(n - 1, u);
    }
  }

  lemma BodyIsMinimal(h: Bytes)
    requires |h| == 32 && !AllZero(h)
    ensures Minimal(IntegerBody(h)) && Magnitude(IntegerBody(h)) == h
  {
    StrippedIsSuffix(h);
    var s, v := Stripped(h), IntegerBody(h);
    assert v[|v| - |s|..] == s;
    assert exists i :: 0 <= i < |v| && v[i] != 0 by { assert v[|v| - |s|] == s[0]; }
  }

  lemma MinimalIsBody(v: Bytes)
    requires Minimal(v)
    ensures |Magnitude(v)| == 32 && !AllZero(Magnitude(v)) && IntegerBody(Magnitude(v)) == v
  {
    var u := if v[0] == 0 then v[1..] else v;
    assert u != [] && u[0] != 0 by {
      if v[0] == 0 { assert |v| > 1; }
    }
    StrippedOfPadded(32 - |u|, u);
    assert Magnitude(v)[32 - |u|] != 0;
    assert v[0] == 0 ==> v == [0] + u;
  }

  // ----- The whole signature -----

  // The only encoding the reader accepts for two minimal integers.
  function Encoding(r: Bytes, s: Bytes): Bytes
    requires |r| <= 33 && |s| <= 33
  {
    [0x30, |r| + |s| + 4, 0x02, |r|] + r + [0x02, |s|] + s
  }

  lemma WriterEncodes(sig: Bytes)
    requires |sig| == 64 && !AllZero(sig[..32]) && !AllZero(sig[32..])
    ensures var r, s := IntegerBody(sig[..32]), IntegerBody(sig[32..]);
            Minimal(r) && Minimal(s) && P1363ToDer(sig) == Ok(Encoding(r, s))
  {
    BodyIsMinimal(sig[..32]);
    BodyIsMinimal(sig[32..]);
    var r, s := IntegerBody(sig[..32]), IntegerBody(sig[32..]);
    assert [0x30] + [|r| + |s| + 4] + (([0x02] + [|r|] + r) + ([0x02] + [|s|] + s)) == Encoding(r, s);
  }

  lemma ReaderDecodes(r: Bytes, s: Bytes)
    requires Minimal(r) && Minimal(s)
    ensures DerToP1363(Encoding(r, s)) == Ok(Magnitude(r) + Magnitude(s))
  {
    var b := Encoding(r, s);
    assert b[4..4 + |r|] == r;
    var front := [0x30, |r| + |s| + 4, 0x02, |r|] + r + [0x02, |s|];
    assert b == front + s && |front| == 6 + |r|;
    assert b[|front|..] == s && b[|front|..|front| + |s|] == s;
    assert ReadInteger(b, 2) == Ok((r, 4 + |r|));
    assert ReadInteger(b, 4 + |r|) == Ok((s, 6 + |r| + |s|));
    MinimalNormalizes(r);
    MinimalNormalizes(s);
  }

  lemma MinimalNormalizes(v: Bytes)
    requires Minimal(v)
    ensures Normalize(v) == Ok(Magnitude(v))
  {
    MinimalIsBody(v);
    var u := if v[0] == 0 then v[1..] else v;
    assert u != [] && u[0] != 0 by {
      if v[0] == 0 { assert |v| > 1; }
    }
  }

  // Whatever the reader accepts is an encoding of two minimal integers, with short-form lengths throughout.
  lemma AcceptedIsEncoding(b: Bytes) returns (r: Bytes, s: Bytes)
    requires DerToP1363(b).Ok?
    ensures Minimal(r) && Minimal(s) && b == Encoding(r, s)
  {
    hide ReadInteger, Minimal, Normalize;
    var (length, next) := ReadLength(b, 1).value;
    var first := ReadInteger(b, next).value;
    var second := ReadInteger(b, first.1).value;
    r, s := first.0, second.0;
    IntegerShape(b, next);
    IntegerShape(b, first.1);
    LayoutIsEncoding(b, r, s);
  }

  lemma LayoutIsEncoding(b: Bytes, r: Bytes, s: Bytes)
    requires |r| <= 33 && |s| <= 33 && |b| == 6 + |r| + |s|
    requires b[0] == 0x30 && b[1] == |r| + |s| + 4 && b[2] == 0x02 && b[3] == |r| && b[4..4 + |r|] == r
    requires b[4 + |r|] == 0x02 && b[5 + |r|] == |s| && b[6 + |r|..] == s
    ensures b == Encoding(r, s)
  {
    assert b == b[..4] + b[4..4 + |r|] + b[4 + |r|..6 + |r|] + b[6 + |r|..];
  }

  lemma IntegerShape(b: Bytes, offset: nat)
    requires ReadInteger(b, offset).Ok?
    ensures var (v, next) := ReadInteger(b, offset).value;
            && Minimal(v) && |v| <= 33 && next == offset + 2 + |v| <= |b|
            && b[offset] == 0x02 && b[offset + 1] == |v| && b[offset + 2..next] == v
  {
  }

  /** Converting a P1363 signature succeeds exactly when it has 64 bytes and two nonzero halves, and the DER form
      converts back to it. */
  lemma P1363RoundTrip(sig: Bytes)
    ensures P1363ToDer(sig).Ok? <==> |sig| == 64 && !AllZero(sig[..32]) && !AllZero(sig[32..])
    ensures P1363ToDer(sig).Ok? ==> DerToP1363(P1363ToDer(sig).value) == Ok(sig)
  {
    if |sig| == 64 && !AllZero(sig[..32]) && !AllZero(sig[32..]) {
      WriterEncodes(sig);
      BodyIsMinimal(sig[..32]);
      BodyIsMinimal(sig[32..]);
      ReaderDecodes(IntegerBody(sig[..32]), IntegerBody(sig[32..]));
      assert sig[..32] + sig[32..] == sig;
    }
  }

  /** Every DER string the reader accepts is the one the writer produces for the signature it stands for. */
  lemma DerRoundTrip(b: Bytes)
    requires DerToP1363(b).Ok?
    ensures P1363ToDer(DerToP1363(b).value) == Ok(b)
  {
    var r, s := AcceptedIsEncoding(b);
    ReaderDecodes(r, s);
    MinimalIsBody(r);
    MinimalIsBody(s);
    var sig := Magnitude(r) + Magnitude(s);
    assert sig[..32] == Magnitude(r) && sig[32..] == Magnitude(s);
    WriterEncodes(sig);
  }

  /** No accepted signature uses a long-form length, for the sequence or for an integer. */
  lemma LongFormIsNeverAccepted(b: Bytes)
    requires DerToP1363(b).Ok?
    ensures 8 <= |b| <= 72 && b[1] == |b| - 2 && b[3] < 0x80 && 4 + b[3] + 1 < |b| && b[4 + b[3] + 1] < 0x80
  {
    var r, s := AcceptedIsEncoding(b);
  }
}
