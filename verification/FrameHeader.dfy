/** The fixed 31-byte frame header and the frame nonce (frontend/src/transferProtocol.ts). */
module FrameHeader {
  import opened Outcomes
  import opened Bytes
  import opened Utf
  import opened HexDigits
  import opened Uuids

  const FRAME_HEADER_BYTES := 31
  const MAX_FRAME_PLAINTEXT_BYTES := 65536
  const MAX_FRAME_COUNTER := 0xFFFF_FFFF_FFFF_FFFF

  datatype Direction = S2R | R2S
  datatype FrameType = Confirm | Manifest | Chunk | Complete | Receipt | Cancel | Error | FileOffer | Accept

  function Opposite(d: Direction): Direction {
    if d == S2R then R2S else S2R
  }

  datatype Header = Header(version: int, transferId: Text, direction: Direction, frameType: FrameType, counter: int,
      plaintextLength: int)

  function DirectionCode(d: Direction): byte {
    if d == S2R then 0 else 1
  }

  function TypeCode(t: FrameType): byte {
    match t
    case Confirm => 0 case Manifest => 1 case Chunk => 2 case Complete => 3 case Receipt => 4
    case Cancel => 5 case Error => 6 case FileOffer => 7 case Accept => 8
  }

  function TypeOf(code: byte): Option<FrameType> {
    if code > 8 then None
    else Some([Confirm, Manifest, Chunk, Complete, Receipt, Cancel, Error, FileOffer, Accept][code])
  }

  // validateFrameTypeDirection
  predicate TypeFitsDirection(d: Direction, t: FrameType) {
    && (t in {FileOffer, Manifest, Chunk, Complete} ==> d == S2R)
    && (t in {Receipt, Accept} ==> d == R2S)
  }

  // ----- UUIDs as text and as bytes -----

  // Where the i-th digit stands in the text, and which digit stands at a position.
  function Position(i: int): int {
    i + (if i < 8 then 0 else if i < 12 then 1 else if i < 16 then 2 else if i < 20 then 3 else 4)
  }

  function DigitAt(p: int): int {
    p - (if p < 8 then 0 else if p < 13 then 1 else if p < 18 then 2 else if p < 23 then 3 else 4)
  }

  function UuidToBytes(s: Text): (b: Bytes)
    requires HexText(s)
    ensures |b| == 16
  {
    seq(16, k requires 0 <= k < 16 => 16 * HexValue(s[Position(2 * k)]) + HexValue(s[Position(2 * k + 1)]))
  }

  function Nibble(b: Bytes, i: int): int
    requires |b| == 16 && 0 <= i < 32
  {
    if i % 2 == 0 then b[i / 2] / 16 else b[i / 2] % 16
  }

  function BytesToUuid(b: Bytes): (s: Text)
    requires |b| == 16
    ensures |s| == 36
  {
    seq(36, p requires 0 <= p < 36 => if IsHyphen(p) then HYPHEN else HexDigit(Nibble(b, DigitAt(p))))
  }

  lemma NibblesOf(s: Text, k: int)
    requires HexText(s) && 0 <= k < 16
    ensures HexDigit(UuidToBytes(s)[k] / 16) == s[Position(2 * k)]
    ensures HexDigit(UuidToBytes(s)[k] % 16) == s[Position(2 * k + 1)]
  {
    hide HexDigit;
    assert !IsHyphen(Position(2 * k)) && !IsHyphen(Position(2 * k + 1));
    var hi, lo := HexValue(s[Position(2 * k)]), HexValue(s[Position(2 * k + 1)]);
    assert UuidToBytes(s)[k] == 16 * hi + lo;
  }

  lemma DigitRoundTrip(s: Text, p: int)
    requires HexText(s) && 0 <= p < 36 && !IsHyphen(p)
    ensures HexDigit(Nibble(UuidToBytes(s), DigitAt(p))) == s[p]
  {
    hide HexText, UuidToBytes, HexDigit;
    var i := DigitAt(p);
    assert Position(i) == p;
    NibblesOf(s, i / 2);
  }

  lemma UuidTextRoundTrip(s: Text)
    requires HexText(s)
    ensures BytesToUuid(UuidToBytes(s)) == s
  {
    forall p | 0 <= p < 36 ensures BytesToUuid(UuidToBytes(s))[p] == s[p] {
      if !IsHyphen(p) {
        DigitRoundTrip(s, p);
      }
    }
  }

  lemma UuidBytesRoundTrip(b: Bytes)
    requires |b| == 16
    ensures HexText(BytesToUuid(b)) && UuidToBytes(BytesToUuid(b)) == b
  {
    var s := BytesToUuid(b);
    forall p | 0 <= p < 36 && !IsHyphen(p) ensures IsHex(s[p]) && HexValue(s[p]) == Nibble(b, DigitAt(p)) {
      HexValueOfDigit(Nibble(b, DigitAt(p)));
    }
    forall k | 0 <= k < 16 ensures UuidToBytes(s)[k] == b[k] {
      assert DigitAt(Position(2 * k)) == 2 * k && DigitAt(Position(2 * k + 1)) == 2 * k + 1;
      assert !IsHyphen(Position(2 * k)) && !IsHyphen(Position(2 * k + 1));
    }
  }

  // ----- The header -----

  function EncodeFrameHeader(h: Header): (r: Result<Bytes>)
    ensures r.Ok? ==> |r.value| == FRAME_HEADER_BYTES
  {
    if h.version != 1 then Err("unsupported_version")
    else if !IsUuid(h.transferId) then Err("invalid_handshake")
    else if h.counter < 0 || h.counter > MAX_FRAME_COUNTER then Err("invalid_counter")
    else if h.plaintextLength < 0 || h.plaintextLength > MAX_FRAME_PLAINTEXT_BYTES then Err("invalid_length")
    else if !TypeFitsDirection(h.direction, h.frameType) then Err("invalid_frame")
    else Ok(Layout(UuidToBytes(h.transferId), [DirectionCode(h.direction), TypeCode(h.frameType)],
                   BigEndian(h.counter, 8), BigEndian(h.plaintextLength, 4)))
  }

  function ParseFrameHeader(b: Bytes): Result<Header> {
    if |b| != FRAME_HEADER_BYTES then Err("invalid_length")
    else if b[0] != 1 then Err("unsupported_version")
    else if b[17] > 1 || TypeOf(b[18]).None? then Err("invalid_frame")
    else
      var direction := if b[17] == 0 then S2R else R2S;
      var frameType := TypeOf(b[18]).value;
      var length := FromBigEndian(b[27..31]);
      if length > MAX_FRAME_PLAINTEXT_BYTES then Err("invalid_length")
      else if !TypeFitsDirection(direction, frameType) then Err("invalid_frame")
      else Ok(Header(1, BytesToUuid(b[1..17]), direction, frameType, FromBigEndian(b[19..27]), length))
  }

  // The header is its five fields, one after the other.
  function Layout(id: Bytes, codes: Bytes, counter: Bytes, length: Bytes): Bytes {
    [1] + id + codes + counter + length
  }

  lemma Fields(id: Bytes, codes: Bytes, counter: Bytes, length: Bytes)
    requires |id| == 16 && |codes| == 2 && |counter| == 8 && |length| == 4
    ensures var b := Layout(id, codes, counter, length);
            && |b| == FRAME_HEADER_BYTES && b[0] == 1 && b[1..17] == id && b[17] == codes[0] && b[18] == codes[1]
            && b[19..27] == counter && b[27..31] == length
  {
  }

  lemma FieldsOf(b: Bytes)
    requires |b| == FRAME_HEADER_BYTES && b[0] == 1
    ensures b == Layout(b[1..17], [b[17], b[18]], b[19..27], b[27..31])
  {
  }

  lemma CounterWidth()
    ensures Pow256(8) == MAX_FRAME_COUNTER + 1
    ensures Pow256(4) == 0x1_0000_0000
  {
  }

  lemma TypeCodes(t: FrameType)
    ensures TypeOf(TypeCode(t)) == Some(t)
  {
  }

  lemma CodesOfTypes(code: byte)
    requires TypeOf(code).Some?
    ensures TypeCode(TypeOf(code).value) == code
  {
  }

  // What parsing makes of a header laid out from its fields.
  lemma {:induction false} ParseLayout(id: Bytes, d: Direction, t: FrameType, counter: Bytes, length: Bytes)
    requires |id| == 16 && |counter| == 8 && |length| == 4
    requires FromBigEndian(length) <= MAX_FRAME_PLAINTEXT_BYTES && TypeFitsDirection(d, t)
    ensures ParseFrameHeader(Layout(id, [DirectionCode(d), TypeCode(t)], counter, length))
         == Ok(Header(1, BytesToUuid(id), d, t, FromBigEndian(counter), FromBigEndian(length)))
  {
    Fields(id, [DirectionCode(d), TypeCode(t)], counter, length);
    TypeCodes(t);
  }

  /** Parsing inverts encoding. */
  lemma HeaderRoundTrip(h: Header)
    requires EncodeFrameHeader(h).Ok?
    ensures ParseFrameHeader(EncodeFrameHeader(h).value) == Ok(h)
  {
    CounterWidth();
    UuidTextRoundTrip(h.transferId);
    var counter, length := BigEndian(h.counter, 8), BigEndian(h.plaintextLength, 4);
    BigEndianDecodes(h.counter, 8);
    BigEndianDecodes(h.plaintextLength, 4);
    ParseLayout(UuidToBytes(h.transferId), h.direction, h.frameType, counter, length);
  }

  // Whether a printed identifier satisfies the pattern is a matter of two nibbles.
  lemma PrintedUuid(id: Bytes)
    requires |id| == 16
    ensures IsUuid(BytesToUuid(id)) <==> 1 <= id[6] / 16 <= 5 && 8 <= id[8] / 16 <= 11
  {
    hide HexText, BytesToUuid, HexDigit, UuidToBytes;
    UuidBytesRoundTrip(id);
    PrintedDigit(id, 14);
    PrintedDigit(id, 19);
    HexValueOfDigit(id[6] / 16);
    HexValueOfDigit(id[8] / 16);
  }

  lemma PrintedDigit(id: Bytes, p: int)
    requires |id| == 16 && 0 <= p < 36 && !IsHyphen(p)
    ensures BytesToUuid(id)[p] == HexDigit(Nibble(id, DigitAt(p)))
  {
    hide HexDigit;
  }

  /** Encoding a parsed header succeeds exactly when the identifier has an RFC 4122 version and variant digit, which
      parsing does not check, and then gives back the bytes that were parsed. */
  lemma HeaderReencodes(b: Bytes)
    requires ParseFrameHeader(b).Ok?
    ensures EncodeFrameHeader(ParseFrameHeader(b).value).Ok? <==> 1 <= b[7] / 16 <= 5 && 8 <= b[9] / 16 <= 11
    ensures EncodeFrameHeader(ParseFrameHeader(b).value).Ok? ==> EncodeFrameHeader(ParseFrameHeader(b).value) == Ok(b)
  {
    var h := ParseFrameHeader(b).value;
    PrintedUuid(b[1..17]);
    CounterInRange(b[19..27]);
    assert EncodeFrameHeader(h).Ok? <==> IsUuid(h.transferId);
    if IsUuid(h.transferId) {
      ReencodedLayout(b);
    }
  }

  lemma {:induction false} CounterInRange(counter: Bytes)
    requires |counter| == 8
    ensures FromBigEndian(counter) <= MAX_FRAME_COUNTER
  {
    CounterWidth();
    BigEndianEncodes(counter);
  }

  lemma ReencodedLayout(b: Bytes)
    requires ParseFrameHeader(b).Ok?
    ensures var h := ParseFrameHeader(b).value;
            HexText(h.transferId)
            && Layout(UuidToBytes(h.transferId), [DirectionCode(h.direction), TypeCode(h.frameType)],
                      BigEndian(h.counter, 8), BigEndian(h.plaintextLength, 4)) == b
  {
    UuidBytesRoundTrip(b[1..17]);
    BigEndianEncodes(b[19..27]);
    BigEndianEncodes(b[27..31]);
    CodesOfTypes(b[18]);
    FieldsOf(b);
  }

  // The parsed header of an all-zero identifier cannot be encoded again.
  lemma NilIdentifierDoesNotReencode()
    ensures var b := [1] + Zeros(30); ParseFrameHeader(b).Ok? && EncodeFrameHeader(ParseFrameHeader(b).value).Err?
  {
    var b: Bytes := [1] + Zeros(30);
    assert b[27..31] == [0, 0, 0, 0] && [0, 0, 0, 0][..3] == [0, 0, 0] && [0, 0, 0][..2] == [0, 0]
           && [0, 0][..1] == [0];
    assert FromBigEndian([0, 0]) == 0;
    assert FromBigEndian([0, 0, 0, 0]) == 0;
    HeaderReencodes(b);
  }

  // ----- The nonce -----

  function FrameNonce(prefix: Bytes, counter: int): Result<Bytes> {
    if |prefix| != 4 then Err("invalid_nonce")
    else if counter < 0 || counter > MAX_FRAME_COUNTER then Err("invalid_counter")
    else Ok(prefix + BigEndian(counter, 8))
  }

  /** Under one prefix, equal nonces come from equal counters. */
  lemma NonceIsInjective(prefix: Bytes, c: int, d: int)
    requires FrameNonce(prefix, c).Ok? && FrameNonce(prefix, d).Ok?
    requires FrameNonce(prefix, c) == FrameNonce(prefix, d)
    ensures c == d
  {
    CounterWidth();
    BigEndianDecodes(c, 8);
    BigEndianDecodes(d, 8);
    assert FrameNonce(prefix, c).value[4..] == BigEndian(c, 8) && FrameNonce(prefix, d).value[4..] == BigEndian(d, 8);
  }

  /** A nonce is the four bytes of the prefix and then the counter, most significant byte first. */
  lemma {:induction false} NonceDecodes(prefix: Bytes, counter: int)
    ensures FrameNonce(prefix, counter).Ok? <==> |prefix| == 4 && 0 <= counter < Pow256(8)
    ensures var nonce := FrameNonce(prefix, counter);
            nonce.Ok? ==>
              |nonce.value| == 12 && nonce.value[..4] == prefix && FromBigEndian(nonce.value[4..]) == counter
  {
    hide BigEndian, FromBigEndian, Pow256;
    CounterWidth();
    if FrameNonce(prefix, counter).Ok? {
      BigEndianDecodes(counter, 8);
      assert FrameNonce(prefix, counter).value[4..] == BigEndian(counter, 8);
    }
  }
}
