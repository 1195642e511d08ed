/** The messages of the signed handshake and what is derived from them (frontend/src/transferProtocol.ts). */
module HandshakeMessages {
  import opened Outcomes
  import opened Bytes
  import opened Utf
  import opened JsonText
  import opened Records
  import opened Base64Url
  import opened Uuids
  import opened Sha256Spec

  const HASH_BYTES := 32
  const NONCE_BYTES := 32
  const MAX_SPKI_BYTES := 1024

  datatype Offer = Offer(
    transferId: Text, accountEpoch: int, senderDeviceId: Text, recipientDeviceId: Text,
    senderSpki: Text, senderNonce: Text, issuedAt: int, expiresAt: int)

  datatype Answer = Answer(
    transferId: Text, accountEpoch: int, senderDeviceId: Text, recipientDeviceId: Text,
    offerHash: Text, recipientSpki: Text, recipientNonce: Text, issuedAt: int, expiresAt: int)

  function OfferKeys(): (keys: seq<Text>)
    ensures |keys| == 10 && Distinct(keys) && forall i :: 0 <= i < |keys| ==> WellFormed(keys[i])
  {
    Keys(["v", "type", "transfer_id", "account_epoch", "sender_device_id", "recipient_device_id",
          "sender_ephemeral_spki", "sender_nonce", "issued_at", "expires_at"])
  }

  function AnswerKeys(): (keys: seq<Text>)
    ensures |keys| == 11 && Distinct(keys) && forall i :: 0 <= i < |keys| ==> WellFormed(keys[i])
  {
    Keys(["v", "type", "transfer_id", "account_epoch", "sender_device_id", "recipient_device_id",
          "offer_hash", "recipient_ephemeral_spki", "recipient_nonce", "issued_at", "expires_at"])
  }

  const HANDSHAKE_OFFER: Text := TextOf("handshake_offer")
  const HANDSHAKE_ANSWER: Text := TextOf("handshake_answer")

  function OfferValues(o: Offer): seq<Json> {
    [Num(1), Str(HANDSHAKE_OFFER), Str(o.transferId), Num(o.accountEpoch), Str(o.senderDeviceId),
        Str(o.recipientDeviceId),
     Str(o.senderSpki), Str(o.senderNonce), Num(o.issuedAt), Num(o.expiresAt)]
  }

  function AnswerValues(a: Answer): seq<Json> {
    [Num(1), Str(HANDSHAKE_ANSWER), Str(a.transferId), Num(a.accountEpoch), Str(a.senderDeviceId),
        Str(a.recipientDeviceId),
     Str(a.offerHash), Str(a.recipientSpki), Str(a.recipientNonce), Num(a.issuedAt), Num(a.expiresAt)]
  }

  function OfferJson(o: Offer): Json { Record(OfferKeys(), OfferValues(o)) }
  function AnswerJson(a: Answer): Json { Record(AnswerKeys(), AnswerValues(a)) }

  // canonicalJsonBytes on a value that is known to be printable
  function Encoding(v: Json): Bytes { Utf8(Print(v)) }

  // ----- Validation -----

  predicate IsSafeNatural(v: Json) { v.Num? && 0 <= v.number <= JsonText.MAX_SAFE_INTEGER }

  function RequireUuid(v: Json): Result<Text> {
    if v.Str? && IsUuid(v.text) then Ok(v.text) else Err("invalid_handshake")
  }

  // requireFixedBase64 and requireSpkiBase64
  function RequireBase64(v: Json, minimum: nat, maximum: nat): Result<Text> {
    if !v.Str? then Err("invalid_handshake")
    else
      match Decode(v.text, MAX_SPKI_BYTES)
      case Err(c) => Err(c)
      case Ok(b) => if minimum <= |b| <= maximum then Ok(v.text) else Err("invalid_handshake")
  }

  function ValidateOffer(v: Json, now: int): Result<Offer> {
    match FieldsOf(v, OfferKeys(), "invalid_handshake", "extra_field", "missing_field")
    case Err(c) => Err(c)
    case Ok(f) =>
      if f[0] != Num(1) || f[1] != Str(HANDSHAKE_OFFER) then Err("unsupported_version")
      else if !IsSafeNatural(f[8]) || !IsSafeNatural(f[9]) then Err("invalid_handshake")
      else if f[9].number <= f[8].number || f[9].number <= now then Err("expired_handshake")
      else if RequireUuid(f[2]).Err? || !IsSafeNatural(f[3]) || RequireUuid(f[4]).Err?
          || RequireUuid(f[5]).Err? then Err("invalid_handshake")
      else if RequireBase64(f[6], 1, MAX_SPKI_BYTES).Err? then Err(RequireBase64(f[6], 1, MAX_SPKI_BYTES).code)
      else if RequireBase64(f[7], NONCE_BYTES, NONCE_BYTES).Err?
          then Err(RequireBase64(f[7], NONCE_BYTES, NONCE_BYTES).code)
      else Ok(Offer(f[2].text, f[3].number, f[4].text, f[5].text, f[6].text, f[7].text, f[8].number, f[9].number))
  }

  function ValidateAnswer(v: Json, now: int): Result<Answer> {
    match FieldsOf(v, AnswerKeys(), "invalid_handshake", "extra_field", "missing_field")
    case Err(c) => Err(c)
    case Ok(f) =>
      if f[0] != Num(1) || f[1] != Str(HANDSHAKE_ANSWER) then Err("unsupported_version")
      else if !IsSafeNatural(f[9]) || !IsSafeNatural(f[10]) then Err("invalid_handshake")
      else if f[10].number <= f[9].number || f[10].number <= now then Err("expired_handshake")
      else if RequireUuid(f[2]).Err? || !IsSafeNatural(f[3]) || RequireUuid(f[4]).Err?
          || RequireUuid(f[5]).Err? then Err("invalid_handshake")
      else if RequireBase64(f[6], HASH_BYTES, HASH_BYTES).Err?
          then Err(RequireBase64(f[6], HASH_BYTES, HASH_BYTES).code)
      else if RequireBase64(f[7], 1, MAX_SPKI_BYTES).Err? then Err(RequireBase64(f[7], 1, MAX_SPKI_BYTES).code)
      else if RequireBase64(f[8], NONCE_BYTES, NONCE_BYTES).Err?
          then Err(RequireBase64(f[8], NONCE_BYTES, NONCE_BYTES).code)
      else Ok(Answer(f[2].text, f[3].number, f[4].text, f[5].text, f[6].text, f[7].text, f[8].text, f[9].number,
          f[10].number))
  }

  // The same demands, of a core that is already a record.
  predicate SafeNatural(n: int) { 0 <= n <= JsonText.MAX_SAFE_INTEGER }

  predicate Base64Of(t: Text, minimum: nat, maximum: nat) {
    Decode(t, MAX_SPKI_BYTES).Ok? && minimum <= |Decode(t, MAX_SPKI_BYTES).value| <= maximum
  }

  predicate SoundOffer(o: Offer, now: int) {
    && SafeNatural(o.issuedAt) && SafeNatural(o.expiresAt) && o.issuedAt < o.expiresAt && now < o.expiresAt
    && IsUuid(o.transferId) && SafeNatural(o.accountEpoch) && IsUuid(o.senderDeviceId) && IsUuid(o.recipientDeviceId)
    && Base64Of(o.senderSpki, 1, MAX_SPKI_BYTES) && Base64Of(o.senderNonce, NONCE_BYTES, NONCE_BYTES)
  }

  predicate SoundAnswer(a: Answer, now: int) {
    && SafeNatural(a.issuedAt) && SafeNatural(a.expiresAt) && a.issuedAt < a.expiresAt && now < a.expiresAt
    && IsUuid(a.transferId) && SafeNatural(a.accountEpoch) && IsUuid(a.senderDeviceId) && IsUuid(a.recipientDeviceId)
    && Base64Of(a.offerHash, HASH_BYTES, HASH_BYTES) && Base64Of(a.recipientSpki, 1, MAX_SPKI_BYTES)
    && Base64Of(a.recipientNonce, NONCE_BYTES, NONCE_BYTES)
  }

  /** A value is accepted as an offer if and only if it is the record of a sound offer. */
  lemma ValidOffers(v: Json, now: int, o: Offer)
    ensures ValidateOffer(v, now) == Ok(o) <==> v == OfferJson(o) && SoundOffer(o, now)
  {
    hide FieldsOf, Record, OfferKeys, TextOf, Decode, IsUuid;
    ExactFields(v, OfferKeys(), OfferValues(o), "invalid_handshake", "extra_field", "missing_field");
    var fields := FieldsOf(v, OfferKeys(), "invalid_handshake", "extra_field", "missing_field");
    if ValidateOffer(v, now) == Ok(o) {
      assert fields.value == OfferValues(o);
    }
  }

  lemma ValidAnswers(v: Json, now: int, a: Answer)
    ensures ValidateAnswer(v, now) == Ok(a) <==> v == AnswerJson(a) && SoundAnswer(a, now)
  {
    hide FieldsOf, Record, AnswerKeys, TextOf, Decode, IsUuid;
    ExactFields(v, AnswerKeys(), AnswerValues(a), "invalid_handshake", "extra_field", "missing_field");
    var fields := FieldsOf(v, AnswerKeys(), "invalid_handshake", "extra_field", "missing_field");
    if ValidateAnswer(v, now) == Ok(a) {
      assert fields.value == AnswerValues(a);
    }
  }

  // ----- Encodings of sound messages -----

  lemma {:induction false} UuidIsWellFormed(t: Text)
    requires IsUuid(t)
    ensures WellFormed(t)
  {
    AsciiIsClean(t);
  }

  lemma {:induction false} Base64IsWellFormed(t: Text, minimum: nat, maximum: nat)
    requires Base64Of(t, minimum, maximum)
    ensures WellFormed(t)
  {
    hide Encode, Bits;
    forall i | 0 <= i < |t| ensures 0x20 <= t[i] < 0x80 {
      assert LetterValue(t[i]).Some?;
    }
    AsciiIsClean(t);
  }

  lemma OfferIsPrintable(o: Offer, now: int)
    requires SoundOffer(o, now)
    ensures Printable(OfferJson(o))
  {
    hide Record, OfferKeys, TextOf, Decode, IsUuid, WellFormed;
    TextIsWellFormed("handshake_offer");
    UuidIsWellFormed(o.transferId);
    UuidIsWellFormed(o.senderDeviceId);
    UuidIsWellFormed(o.recipientDeviceId);
    Base64IsWellFormed(o.senderSpki, 1, MAX_SPKI_BYTES);
    Base64IsWellFormed(o.senderNonce, NONCE_BYTES, NONCE_BYTES);
    RecordIsPrintable(OfferKeys(), OfferValues(o));
  }

  lemma AnswerIsPrintable(a: Answer, now: int)
    requires SoundAnswer(a, now)
    ensures Printable(AnswerJson(a))
  {
    hide Record, AnswerKeys, TextOf, Decode, IsUuid, WellFormed;
    TextIsWellFormed("handshake_answer");
    UuidIsWellFormed(a.transferId);
    UuidIsWellFormed(a.senderDeviceId);
    UuidIsWellFormed(a.recipientDeviceId);
    Base64IsWellFormed(a.offerHash, HASH_BYTES, HASH_BYTES);
    Base64IsWellFormed(a.recipientSpki, 1, MAX_SPKI_BYTES);
    Base64IsWellFormed(a.recipientNonce, NONCE_BYTES, NONCE_BYTES);
    RecordIsPrintable(AnswerKeys(), AnswerValues(a));
  }

  lemma OfferIsInjective(o: Offer, p: Offer)
    requires OfferJson(o) == OfferJson(p)
    ensures o == p
  {
    hide FieldsOf, Record, OfferKeys, TextOf;
    ExactFields(OfferJson(o), OfferKeys(), OfferValues(o), "", "", "");
    ExactFields(OfferJson(o), OfferKeys(), OfferValues(p), "", "", "");
    var f, g := OfferValues(o), OfferValues(p);
    assert f == g && f[2] == g[2] && f[3] == g[3] && f[4] == g[4] && f[5] == g[5] && f[6] == g[6] && f[7] == g[7]
           && f[8] == g[8] && f[9] == g[9];
  }

  lemma AnswerIsInjective(a: Answer, b: Answer)
    requires AnswerJson(a) == AnswerJson(b)
    ensures a == b
  {
    hide FieldsOf, Record, AnswerKeys, TextOf;
    ExactFields(AnswerJson(a), AnswerKeys(), AnswerValues(a), "", "", "");
    ExactFields(AnswerJson(a), AnswerKeys(), AnswerValues(b), "", "", "");
    var f, g := AnswerValues(a), AnswerValues(b);
    assert f == g && f[2] == g[2] && f[3] == g[3] && f[4] == g[4] && f[5] == g[5] && f[6] == g[6] && f[7] == g[7]
           && f[8] == g[8] && f[9] == g[9] && f[10] == g[10];
  }

  // ----- The transcript -----

  const TRANSCRIPT_DOMAIN: Bytes := Utf8(TextOf("secure-transfer/v1/transcript"))

  function Transcript(o: Offer, a: Answer): Bytes {
    TRANSCRIPT_DOMAIN + [0] + Encoding(OfferJson(o)) + [0] + Encoding(AnswerJson(a))
  }

  lemma SplitAtZero(x: Bytes, y: Bytes, x': Bytes, y': Bytes)
    requires 0 !in x && 0 !in x' && x + [0] + y == x' + [0] + y'
    ensures x == x' && y == y'
  {
    var s := x + [0] + y;
    assert s[|x|] == 0 && s[|x'|] == 0;
    assert x == s[..|x|] && x' == s[..|x'|] && y == s[|x| + 1..] && y' == s[|x'| + 1..];
  }

  /** The transcript determines the offer and the answer: an encoding never holds the zero byte that ends it. */
  lemma TranscriptIsInjective(o: Offer, a: Answer, o': Offer, a': Answer, now: int)
    requires SoundOffer(o, now) && SoundAnswer(a, now) && SoundOffer(o', now) && SoundAnswer(a', now)
    requires Transcript(o, a) == Transcript(o', a')
    ensures o == o' && a == a'
  {
    hide SoundOffer, SoundAnswer, OfferJson, AnswerJson, Print, Utf8, Printable, TextOf;
    OfferIsPrintable(o, now);
    OfferIsPrintable(o', now);
    AnswerIsPrintable(a, now);
    AnswerIsPrintable(a', now);
    CanonicalHasNoZero(OfferJson(o));
    CanonicalHasNoZero(OfferJson(o'));
    var t, head := Transcript(o, a), TRANSCRIPT_DOMAIN + [0];
    var x, y, x', y' := Encoding(OfferJson(o)), Encoding(AnswerJson(a)), Encoding(OfferJson(o')),
        Encoding(AnswerJson(a'));
    assert t == head + (x + [0] + y) && Transcript(o', a') == head + (x' + [0] + y');
    assert t[|head|..] == x + [0] + y && t[|head|..] == x' + [0] + y';
    SplitAtZero(x, y, x', y');
    CanonicalIsInjective(OfferJson(o), OfferJson(o'));
    CanonicalIsInjective(AnswerJson(a), AnswerJson(a'));
    OfferIsInjective(o, o');
    AnswerIsInjective(a, a');
  }

  // Uint8Array.prototype.set
  method SetAt(output: array<byte>, bytes: Bytes, offset: nat)
    requires offset + |bytes| <= output.Length
    modifies output
    ensures forall i :: 0 <= i < output.Length ==>
              output[i] == if offset <= i < offset + |bytes| then bytes[i - offset] else old(output[i])
  {
    for n := 0 to |bytes|
      invariant forall i :: 0 <= i < output.Length ==>
                  output[i] == if offset <= i < offset + n then bytes[i - offset] else old(output[i])
    {
      output[offset + n] := bytes[n];
    }
  }

  // The five pieces written into one buffer.
  method WritePieces(domain: Bytes, first: Bytes, second: Bytes) returns (output: array<byte>)
    ensures fresh(output) && output[..] == domain + [0] + first + [0] + second
  {
    var d, f := |domain|, |first|;
    output := new byte[d + 1 + f + 1 + |second|];
    SetAt(output, domain, 0);
    SetAt(output, first, d + 1);
    output[d] := 0;
    output[d + 1 + f] := 0;
    SetAt(output, second, d + f + 2);
  }

  /** transcriptBytes */
  method TranscriptBytes(o: Offer, a: Answer) returns (output: array<byte>)
    ensures fresh(output) && output[..] == Transcript(o, a)
  {
    hide OfferJson, AnswerJson, Print, Utf8, TextOf;
    output := WritePieces(TRANSCRIPT_DOMAIN, Encoding(OfferJson(o)), Encoding(AnswerJson(a)));
  }
}

/** The two roles of the handshake over an arbitrary signaling network (frontend/src/transferProtocol.ts and
    frontend/src/webrtcTestSession.ts). */
module Handshake {
  import opened Outcomes
  import opened Bytes
  import opened Utf
  import opened JsonText
  import opened Records
  import opened Base64Url
  import opened Uuids
  import opened Sha256Spec
  import opened SignedObjects
  import opened HandshakeMessages

  // An ephemeral private key.
  datatype Key = Key(id: nat)

  // What the browser's cryptography gives: the SPKI of a key pair, whether bytes are a canonical P-256 SPKI, the shared
  // secret of a private key and an SPKI, HKDF, and whether a signature fits a message its key has signed.
  datatype Crypto = Crypto(
    publicKey: Key -> Bytes, isKey: Bytes -> bool, agree: (Key, Bytes) -> Option<Bytes>,
    expand: (Bytes, Bytes, string, nat) -> Bytes, verifies: (Bytes, Bytes) -> bool)

  // Diffie-Hellman agreement does not depend on the side.
  ghost predicate Commutes(crypto: Crypto) {
    forall a: Key, b: Key :: crypto.agree(a, crypto.publicKey(b)) == crypto.agree(b, crypto.publicKey(a))
  }

  // What a session takes from its transfer record and account.
  datatype Terms = Terms(transferId: Text, accountEpoch: int, senderDeviceId: Text, recipientDeviceId: Text,
      expiresAt: int)

  datatype Role = SenderRole | RecipientRole

  datatype Material = Material(
    transcriptHash: Bytes, s2rKey: Bytes, r2sKey: Bytes, s2rPrefix: Bytes, r2sPrefix: Bytes, confirmation: Bytes,
    sendKey: Bytes, receiveKey: Bytes, sendPrefix: Bytes, receivePrefix: Bytes)

  predicate SameTerms(o: Offer, a: Answer) {
    o.transferId == a.transferId && o.accountEpoch == a.accountEpoch && o.senderDeviceId == a.senderDeviceId
        && o.recipientDeviceId == a.recipientDeviceId
  }

  // The part of deriveHandshakeMaterial after the key agreement.
  function MaterialOf(crypto: Crypto, secret: Bytes, hash: Bytes, role: Role): Material {
    var s2r, r2s := crypto.expand(secret, hash, "s2r-key", 32), crypto.expand(secret, hash, "r2s-key", 32);
    var s2rPrefix, r2sPrefix := crypto.expand(secret, hash, "s2r-nonce-prefix", 4),
        crypto.expand(secret, hash, "r2s-nonce-prefix", 4);
    var confirmation := crypto.expand(secret, hash, "confirmation", 32);
    if role == SenderRole then Material(hash, s2r, r2s, s2rPrefix, r2sPrefix, confirmation, s2r, r2s, s2rPrefix,
        r2sPrefix)
    else Material(hash, s2r, r2s, s2rPrefix, r2sPrefix, confirmation, r2s, s2r, r2sPrefix, s2rPrefix)
  }

  // deriveHandshakeMaterial
  function Derive(crypto: Crypto, o: Offer, a: Answer, key: Key, remote: Bytes, role: Role): Result<Material> {
    if !SameTerms(o, a) then Err("identity_mismatch")
    else if !crypto.isKey(remote) then Err("invalid_public_key")
    else
      match crypto.agree(key, remote)
      case None => Err("crypto_failure")
      case Some(secret) => Ok(MaterialOf(crypto, secret, Sha256(Transcript(o, a)), role))
  }

  // createHandshakeOffer
  function CreateOffer(crypto: Crypto, t: Terms, now: int, key: Key, nonce: Bytes): Result<Offer> {
    if !SafeNatural(now) || !SafeNatural(t.expiresAt) || t.expiresAt <= now
        || |nonce| != NONCE_BYTES then Err("invalid_handshake")
    else if !IsUuid(t.transferId) then Err("invalid_handshake")
    else ValidateOffer(OfferJson(Offer(t.transferId, t.accountEpoch, t.senderDeviceId, t.recipientDeviceId,
                                       Encode(crypto.publicKey(key)), Encode(nonce), now, t.expiresAt)), now)
  }

  // createHandshakeAnswer
  function CreateAnswer(
      crypto: Crypto, t: Terms, offer: Json, expiresAt: int, now: int, key: Key, nonce: Bytes): Result<Answer>
  {
    match ValidateOffer(offer, now)
    case Err(c) => Err(c)
    case Ok(o) =>
      if !SafeNatural(now) || !SafeNatural(expiresAt) || expiresAt <= now
          || |nonce| != NONCE_BYTES then Err("invalid_handshake")
      else if o.transferId != t.transferId || o.senderDeviceId != t.senderDeviceId
          || o.recipientDeviceId != t.recipientDeviceId
              || o.accountEpoch != t.accountEpoch then Err("identity_mismatch")
      else if expiresAt > o.expiresAt then Err("invalid_handshake")
      else ValidateAnswer(AnswerJson(Answer(o.transferId, o.accountEpoch, o.senderDeviceId, o.recipientDeviceId,
                                            Encode(Sha256(Encoding(OfferJson(o)))), Encode(crypto.publicKey(key)),
                                                Encode(nonce),
                                            now, expiresAt)), now)
  }

  // signedWrapper
  function Unwrap(message: Json): Result<(Json, Bytes)> {
    match FieldsOf(message, SignedKeys(), "invalid_handshake", "extra_field", "missing_field")
    case Err(c) => Err(c)
    case Ok(w) =>
      match SignatureOf(w[1])
      case Err(c) => Err(c)
      case Ok(signature) => Ok((w[0], signature))
  }

  // An ideal signature scheme: only what was signed verifies.
  predicate Genuine(crypto: Crypto, signed: set<Bytes>, message: Bytes, signature: Bytes) {
    message in signed && crypto.verifies(message, signature)
  }

  function SpkiOf(t: Text): Bytes {
    match Decode(t, MAX_SPKI_BYTES) case Ok(b) => b case Err(_) => []
  }

  // assertValidHandshakeOffer
  function CheckOffer(crypto: Crypto, t: Terms, message: Json, now: int, signed: set<Bytes>): Result<Offer> {
    match Unwrap(message)
    case Err(c) => Err(c)
    case Ok((core, signature)) =>
      match ValidateOffer(core, now)
      case Err(c) => Err(c)
      case Ok(o) =>
        if o.transferId != t.transferId || o.accountEpoch != t.accountEpoch || o.senderDeviceId != t.senderDeviceId
           || o.recipientDeviceId != t.recipientDeviceId then Err("identity_mismatch")
        else if !Genuine(crypto, signed, Encoding(OfferJson(o)), signature) then Err("invalid_signature")
        else if !crypto.isKey(SpkiOf(o.senderSpki)) then Err("invalid_public_key")
        else Ok(o)
  }

  // assertValidHandshakeAnswer
  function CheckAnswer(
      crypto: Crypto, t: Terms, offer: Offer, message: Json, now: int, signed: set<Bytes>): Result<Answer>
  {
    match Unwrap(message)
    case Err(c) => Err(c)
    case Ok((core, signature)) =>
      match ValidateOffer(OfferJson(offer), now)
      case Err(c) => Err(c)
      case Ok(o) =>
        match ValidateAnswer(core, now)
        case Err(c) => Err(c)
        case Ok(a) =>
          if a.transferId != t.transferId || a.accountEpoch != t.accountEpoch || a.senderDeviceId != t.senderDeviceId
             || a.recipientDeviceId != t.recipientDeviceId || !SameTerms(o, a) then Err("identity_mismatch")
          else if a.expiresAt > o.expiresAt then Err("invalid_handshake")
          else if Decode(a.offerHash, HASH_BYTES) != Ok(Sha256(Encoding(OfferJson(o)))) then Err("offer_mismatch")
          else if !Genuine(crypto, signed, Encoding(AnswerJson(a)), signature) then Err("invalid_signature")
          else if !crypto.isKey(SpkiOf(a.recipientSpki)) then Err("invalid_public_key")
          else Ok(a)
  }

  // ----- The two sessions -----

  // What the sender's session accepted, and what the recipient's session answered, in order.
  datatype Acceptance = Acceptance(offer: Offer, answer: Answer, key: Key, material: Material)
  datatype Reply = Reply(offer: Offer, answer: Answer, key: Key, material: Result<Material>)

  datatype SenderSession = SenderSession(started: bool, offer: Option<Offer>, key: Key, material: Option<Material>,
      accepted: seq<Acceptance>)
  datatype RecipientSession = RecipientSession(material: Option<Material>, replies: seq<Reply>)

  // start, in the sender's role
  function Started(crypto: Crypto, t: Terms, s: SenderSession, now: int, key: Key, nonce: Bytes): SenderSession {
    if s.started then s
    else
      match CreateOffer(crypto, t, now, key, nonce)
      case Err(_) => s.(started := true)
      case Ok(o) => s.(started := true, offer := Some(o), key := key)
  }

  // The handshake_answer branch of handleSignal
  function AnswerArrived(
      crypto: Crypto, t: Terms, s: SenderSession, message: Json, now: int, signed: set<Bytes>): SenderSession
  {
    if s.offer.None? then s
    else
      match CheckAnswer(crypto, t, s.offer.value, message, now, signed)
      case Err(_) => s
      case Ok(a) =>
        match Derive(crypto, s.offer.value, a, s.key, SpkiOf(a.recipientSpki), SenderRole)
        case Err(_) => s
        case Ok(m) => s.(material := Some(m), accepted := s.accepted + [Acceptance(s.offer.value, a, s.key, m)])
  }

  // The handshake_offer branch of handleSignal: the reply it creates, if it gets that far.
  function ReplyTo(
      crypto: Crypto, t: Terms, message: Json, now: int, key: Key, nonce: Bytes, signed: set<Bytes>): Option<Reply>
  {
    match CheckOffer(crypto, t, message, now, signed)
    case Err(_) => None
    case Ok(o) =>
      match CreateAnswer(crypto, t, OfferJson(o), o.expiresAt, now, key, nonce)
      case Err(_) => None
      case Ok(a) => Some(Reply(o, a, key, Derive(crypto, o, a, key, SpkiOf(o.senderSpki), RecipientRole)))
  }

  function OfferArrived(r: RecipientSession, reply: Reply): RecipientSession {
    RecipientSession(if reply.material.Ok? then Some(reply.material.value) else r.material, r.replies + [reply])
  }

  // `byRecipient` and `bySender` are all messages ever signed with the recipient's and the sender's device key.
  datatype World = World(sender: SenderSession, recipient: RecipientSession, bySender: set<Bytes>,
      byRecipient: set<Bytes>)

  // The network delivers any message at any time. A device key also signs other things, such as offers, files and
  // answers for other transfers.
  datatype Event =
    | Start(now: int, key: Key, nonce: Bytes)
    | OfferSignal(message: Json, now: int, key: Key, nonce: Bytes)
    | AnswerSignal(message: Json, now: int)
    | SenderSigns(bytes: Bytes)
    | RecipientSigns(value: Json)

  // The terms of both sessions; they need not agree.
  datatype Setting = Setting(crypto: Crypto, senderTerms: Terms, recipientTerms: Terms)

  ghost predicate IsAnswerFor(v: Json, transferId: Text) {
    exists a: Answer :: v == AnswerJson(a) && a.transferId == transferId
  }

  ghost function Next(g: Setting, w: World, e: Event): World {
    match e
    case Start(now, key, nonce) =>
      var s := Started(g.crypto, g.senderTerms, w.sender, now, key, nonce);
      w.(sender := s, bySender := if s.offer.Some? then w.bySender + {Encoding(OfferJson(s.offer.value))}
          else w.bySender)
    case OfferSignal(message, now, key, nonce) =>
      (match ReplyTo(g.crypto, g.recipientTerms, message, now, key, nonce, w.bySender)
       case None => w
       case Some(reply) =>
         w.(recipient := OfferArrived(w.recipient, reply), byRecipient := w.byRecipient
             + {Encoding(AnswerJson(reply.answer))}))
    case AnswerSignal(message, now) =>
      w.(sender := AnswerArrived(g.crypto, g.senderTerms, w.sender, message, now, w.byRecipient))
    case SenderSigns(bytes) => w.(bySender := w.bySender + {bytes})
    case RecipientSigns(v) =>
      if Printable(v) && !IsAnswerFor(v, g.senderTerms.transferId)
          then w.(byRecipient := w.byRecipient + {Encoding(v)}) else w
  }

  function Beginning(): World {
    World(SenderSession(false, None, Key(0), None, []), RecipientSession(None, []), {}, {})
  }

  ghost function After(g: Setting, events: seq<Event>): World {
    if events == [] then Beginning() else Next(g, After(g, events[..|events| - 1]), events[|events| - 1])
  }

  // ----- Agreement -----

  // The sender's sending half is the recipient's receiving half, and the other way round.
  predicate Mirrored(m: Material, n: Material) {
    && m.transcriptHash == n.transcriptHash && m.confirmation == n.confirmation
    && m.sendKey == n.receiveKey && m.receiveKey == n.sendKey
    && m.sendPrefix == n.receivePrefix && m.receivePrefix == n.sendPrefix
  }

  predicate Collision(x: Bytes, y: Bytes) {
    x != y && Sha256(x) == Sha256(y)
  }

  // The recipient made this very answer; for the sender's own offer, with mirrored keys, unless SHA-256 was broken.
  ghost predicate Agrees(acc: Acceptance, reply: Reply) {
    && reply.answer == acc.answer
    && ((reply.offer == acc.offer && reply.material.Ok? && Mirrored(acc.material, reply.material.value))
        || Collision(Encoding(OfferJson(acc.offer)), Encoding(OfferJson(reply.offer))))
  }

  ghost predicate AgreesWithSome(acc: Acceptance, replies: seq<Reply>) {
    exists j :: 0 <= j < |replies| && Agrees(acc, replies[j])
  }

  predicate OfferHeld(crypto: Crypto, s: SenderSession) {
    s.offer.Some? ==> SoundOffer(s.offer.value, -1) && s.offer.value.senderSpki == Encode(crypto.publicKey(s.key))
  }

  predicate GoodReply(crypto: Crypto, r: Reply) {
    && SoundOffer(r.offer, -1) && SoundAnswer(r.answer, -1) && SameTerms(r.offer, r.answer)
    && r.answer.offerHash == Encode(Sha256(Encoding(OfferJson(r.offer))))
    && r.answer.recipientSpki == Encode(crypto.publicKey(r.key))
    && crypto.isKey(SpkiOf(r.offer.senderSpki))
    && r.material == Derive(crypto, r.offer, r.answer, r.key, SpkiOf(r.offer.senderSpki), RecipientRole)
  }

  // Every answer for the sender's transfer that carries the recipient's signature is one of its replies.
  ghost predicate AnswersAreReplies(g: Setting, w: World) {
    forall a: Answer :: SoundAnswer(a, -1) && a.transferId == g.senderTerms.transferId
        && Encoding(AnswerJson(a)) in w.byRecipient
      ==> exists i :: 0 <= i < |w.recipient.replies| && w.recipient.replies[i].answer == a
  }

  // The last reply for which the recipient could derive keys.
  function LastDerived(replies: seq<Reply>): Option<Reply> {
    if replies == [] then None
    else if replies[|replies| - 1].material.Ok? then Some(replies[|replies| - 1])
    else LastDerived(replies[..|replies| - 1])
  }

  // Each session holds the material of its latest exchange.
  predicate MaterialIsLatest(w: World) {
    var accepted, derived := w.sender.accepted, LastDerived(w.recipient.replies);
    && (w.sender.material.Some? ==> accepted != [] && w.sender.material.value == accepted[|accepted| - 1].material)
    && (derived.Some? ==> derived.value.material.Ok?)
    && w.recipient.material == if derived.Some? then Some(derived.value.material.value) else None
  }

  // What the sender accepted is sound, and its material was derived from it.
  predicate GoodAcceptance(crypto: Crypto, acc: Acceptance) {
    && SoundOffer(acc.offer, -1) && SoundAnswer(acc.answer, -1)
       && acc.offer.senderSpki == Encode(crypto.publicKey(acc.key))
    && Derive(crypto, acc.offer, acc.answer, acc.key, SpkiOf(acc.answer.recipientSpki), SenderRole) == Ok(acc.material)
  }

  ghost predicate Inv(g: Setting, w: World) {
    && OfferHeld(g.crypto, w.sender)
    && (forall i :: 0 <= i < |w.recipient.replies| ==> GoodReply(g.crypto, w.recipient.replies[i]))
    && AnswersAreReplies(g, w) && MaterialIsLatest(w)
    && (forall i :: 0 <= i < |w.sender.accepted| ==>
          AgreesWithSome(w.sender.accepted[i], w.recipient.replies) && GoodAcceptance(g.crypto, w.sender.accepted[i]))
  }

  lemma {:induction false} SpkiBack(t: Text, b: Bytes)
    requires Base64Of(t, 1, MAX_SPKI_BYTES) && t == Encode(b)
    ensures SpkiOf(t) == b
  {
    hide Decode, Encode;
    DecodesExactly(t, MAX_SPKI_BYTES, Decode(t, MAX_SPKI_BYTES).value);
    EncodeIsInjective(b, Decode(t, MAX_SPKI_BYTES).value);
  }

  lemma SameHashSameOffer(o: Offer, p: Offer)
    requires SoundOffer(o, -1) && SoundOffer(p, -1) && Sha256(Encoding(OfferJson(o))) == Sha256(Encoding(OfferJson(p)))
    ensures o == p || Collision(Encoding(OfferJson(o)), Encoding(OfferJson(p)))
  {
    hide SoundOffer, OfferJson, Print, Utf8, Printable, Sha256;
    if Encoding(OfferJson(o)) == Encoding(OfferJson(p)) {
      OfferIsPrintable(o, -1);
      OfferIsPrintable(p, -1);
      CanonicalIsInjective(OfferJson(o), OfferJson(p));
      OfferIsInjective(o, p);
    }
  }

  // Both ends of one exchange derive the same secret.
  lemma DerivationsMirror(crypto: Crypto, o: Offer, a: Answer, k: Key, r: Key)
    requires Commutes(crypto) && SoundOffer(o, -1) && SoundAnswer(a, -1)
    requires o.senderSpki == Encode(crypto.publicKey(k)) && a.recipientSpki == Encode(crypto.publicKey(r))
    requires crypto.isKey(SpkiOf(o.senderSpki)) && Derive(crypto, o, a, k, SpkiOf(a.recipientSpki), SenderRole).Ok?
    ensures var m := Derive(crypto, o, a, k, SpkiOf(a.recipientSpki), SenderRole);
            var n := Derive(crypto, o, a, r, SpkiOf(o.senderSpki), RecipientRole);
            n.Ok? && Mirrored(m.value, n.value)
  {
    hide Encode, Sha256, Transcript, SpkiOf, IsUuid, Base64Of;
    SpkiBack(o.senderSpki, crypto.publicKey(k));
    SpkiBack(a.recipientSpki, crypto.publicKey(r));
    assert crypto.agree(k, crypto.publicKey(r)) == crypto.agree(r, crypto.publicKey(k));
  }

  // An accepted answer that is a reply agrees with it.
  lemma AcceptedAgrees(
      crypto: Crypto, t: Terms, s: SenderSession, message: Json, now: int, signed: set<Bytes>, a: Answer, m: Material,
      r: Reply)
    requires Commutes(crypto) && s.offer.Some? && OfferHeld(crypto, s) && GoodReply(crypto, r) && r.answer == a
    requires CheckAnswer(crypto, t, s.offer.value, message, now, signed) == Ok(a)
    requires Derive(crypto, s.offer.value, a, s.key, SpkiOf(a.recipientSpki), SenderRole) == Ok(m)
    ensures Agrees(Acceptance(s.offer.value, a, s.key, m), r)
  {
    hide SoundOffer, SoundAnswer, Encode, Decode, Sha256, Transcript, SpkiOf, Derive, Unwrap, OfferJson, AnswerJson,
         Print, Utf8, Mirrored, Genuine, ValidateAnswer, ValidateOffer;
    var o := s.offer.value;
    ValidOffers(OfferJson(o), now, ValidateOffer(OfferJson(o), now).value);
    OfferIsInjective(o, ValidateOffer(OfferJson(o), now).value);
    DecodesExactly(a.offerHash, HASH_BYTES, Sha256(Encoding(OfferJson(o))));
    EncodeIsInjective(Sha256(Encoding(OfferJson(o))), Sha256(Encoding(OfferJson(r.offer))));
    SameHashSameOffer(o, r.offer);
    if o == r.offer {
      DerivationsMirror(crypto, o, a, s.key, r.key);
    }
  }

  lemma SoundAtAnyTime(o: Offer, a: Answer, now: int)
    ensures SoundOffer(o, now) ==> SoundOffer(o, -1)
    ensures SoundAnswer(a, now) ==> SoundAnswer(a, -1)
  {
    hide IsUuid, Base64Of;
  }

  lemma CheckedAnswer(crypto: Crypto, t: Terms, o: Offer, message: Json, now: int, signed: set<Bytes>)
    requires CheckAnswer(crypto, t, o, message, now, signed).Ok?
    ensures var a := CheckAnswer(crypto, t, o, message, now, signed).value;
            SoundAnswer(a, -1) && a.transferId == t.transferId && Encoding(AnswerJson(a)) in signed
  {
    hide SoundAnswer, Encode, Decode, Sha256, SpkiOf, Unwrap, OfferJson, AnswerJson, Print, Utf8, ValidateAnswer,
         ValidateOffer;
    var a := CheckAnswer(crypto, t, o, message, now, signed).value;
    var core := Unwrap(message).value.0;
    ValidAnswers(core, now, a);
    SoundAtAnyTime(o, a, now);
  }

  lemma AnswerKeepsInv(g: Setting, w: World, message: Json, now: int)
    requires Commutes(g.crypto) && Inv(g, w)
    ensures Inv(g, Next(g, w, AnswerSignal(message, now)))
  {
    hide CheckAnswer, Derive, SpkiOf, SoundAnswer, SoundOffer, Encode, Agrees, GoodReply, Encoding, AnswerJson;
    var s := w.sender;
    if s.offer.Some? {
      var checked := CheckAnswer(g.crypto, g.senderTerms, s.offer.value, message, now, w.byRecipient);
      if checked.Ok? {
        var a := checked.value;
        CheckedAnswer(g.crypto, g.senderTerms, s.offer.value, message, now, w.byRecipient);
        var j :| 0 <= j < |w.recipient.replies| && w.recipient.replies[j].answer == a;
        var derived := Derive(g.crypto, s.offer.value, a, s.key, SpkiOf(a.recipientSpki), SenderRole);
        if derived.Ok? {
          AcceptedAgrees(g.crypto, g.senderTerms, s, message, now, w.byRecipient, a, derived.value,
              w.recipient.replies[j]);
        }
      }
    }
  }

  lemma CreatedOffer(crypto: Crypto, t: Terms, now: int, key: Key, nonce: Bytes)
    requires CreateOffer(crypto, t, now, key, nonce).Ok?
    ensures var o := CreateOffer(crypto, t, now, key, nonce).value;
            SoundOffer(o, -1) && o.senderSpki == Encode(crypto.publicKey(key))
  {
    hide SoundOffer, Encode, OfferJson, ValidateOffer, IsUuid;
    var core := Offer(t.transferId, t.accountEpoch, t.senderDeviceId, t.recipientDeviceId,
        Encode(crypto.publicKey(key)), Encode(nonce), now, t.expiresAt);
    var o := CreateOffer(crypto, t, now, key, nonce).value;
    ValidOffers(OfferJson(core), now, o);
    OfferIsInjective(core, o);
    SoundAtAnyTime(o, Answer([], 0, [], [], [], [], [], 0, 0), now);
  }

  lemma CreatedAnswer(crypto: Crypto, t: Terms, o: Offer, expiresAt: int, now: int, key: Key, nonce: Bytes)
    requires CreateAnswer(crypto, t, OfferJson(o), expiresAt, now, key, nonce).Ok?
    ensures var a := CreateAnswer(crypto, t, OfferJson(o), expiresAt, now, key, nonce).value;
            SoundAnswer(a, -1) && SameTerms(o, a) && a.offerHash == Encode(Sha256(Encoding(OfferJson(o))))
            && a.recipientSpki == Encode(crypto.publicKey(key))
  {
    hide SoundOffer, SoundAnswer, Encode, OfferJson, AnswerJson, ValidateOffer, ValidateAnswer, Sha256, Print, Utf8;
    var p := ValidateOffer(OfferJson(o), now).value;
    ValidOffers(OfferJson(o), now, p);
    OfferIsInjective(o, p);
    var core := Answer(o.transferId, o.accountEpoch, o.senderDeviceId, o.recipientDeviceId,
                       Encode(Sha256(Encoding(OfferJson(o)))), Encode(crypto.publicKey(key)), Encode(nonce), now,
                           expiresAt);
    var a := CreateAnswer(crypto, t, OfferJson(o), expiresAt, now, key, nonce).value;
    ValidAnswers(AnswerJson(core), now, a);
    AnswerIsInjective(core, a);
    SoundAtAnyTime(o, a, now);
  }

  lemma RepliesAreGood(crypto: Crypto, t: Terms, message: Json, now: int, key: Key, nonce: Bytes, signed: set<Bytes>)
    requires ReplyTo(crypto, t, message, now, key, nonce, signed).Some?
    ensures GoodReply(crypto, ReplyTo(crypto, t, message, now, key, nonce, signed).value)
  {
    hide SoundOffer, SoundAnswer, Encode, OfferJson, AnswerJson, ValidateOffer, CreateAnswer, Sha256, Print, Utf8,
         Unwrap, Derive, SpkiOf;
    var o := CheckOffer(crypto, t, message, now, signed).value;
    ValidOffers(Unwrap(message).value.0, now, o);
    CreatedAnswer(crypto, t, o, o.expiresAt, now, key, nonce);
    SoundAtAnyTime(o, Answer([], 0, [], [], [], [], [], 0, 0), now);
  }

  // A new reply is the only answer its signature adds.
  lemma ReplyKeepsInv(g: Setting, w: World, message: Json, now: int, key: Key, nonce: Bytes)
    requires Inv(g, w)
    ensures Inv(g, Next(g, w, OfferSignal(message, now, key, nonce)))
  {
    hide ReplyTo, GoodReply, GoodAcceptance, SoundAnswer, OfferHeld, Agrees, Encoding, AnswerJson;
    var reply := ReplyTo(g.crypto, g.recipientTerms, message, now, key, nonce, w.bySender);
    if reply.Some? {
      RepliesAreGood(g.crypto, g.recipientTerms, message, now, key, nonce, w.bySender);
      var w' := Next(g, w, OfferSignal(message, now, key, nonce));
      var n := |w.recipient.replies|;
      assert w'.recipient.replies[n] == reply.value && w'.recipient.replies[..n] == w.recipient.replies;
      forall a: Answer | SoundAnswer(a, -1) && a.transferId == g.senderTerms.transferId
          && Encoding(AnswerJson(a)) in w'.byRecipient
        ensures exists i :: 0 <= i < |w'.recipient.replies| && w'.recipient.replies[i].answer == a
      {
        if Encoding(AnswerJson(a)) in w.byRecipient {
          var i :| 0 <= i < n && w.recipient.replies[i].answer == a;
          assert w'.recipient.replies[i].answer == a;
        } else {
          GoodAnswerIsSound(g.crypto, reply.value);
          SameEncodingSameAnswer(a, reply.value.answer);
        }
      }
      forall i | 0 <= i < |w'.sender.accepted|
        ensures AgreesWithSome(w'.sender.accepted[i], w'.recipient.replies)
      {
        assert AgreesWithSome(w.sender.accepted[i], w.recipient.replies);
        var j :| 0 <= j < n && Agrees(w.sender.accepted[i], w.recipient.replies[j]);
        assert Agrees(w'.sender.accepted[i], w'.recipient.replies[j]);
      }
    }
  }

  lemma GoodAnswerIsSound(crypto: Crypto, r: Reply)
    requires GoodReply(crypto, r)
    ensures SoundAnswer(r.answer, -1)
  {
  }

  lemma SameEncodingSameAnswer(a: Answer, b: Answer)
    requires SoundAnswer(a, -1) && SoundAnswer(b, -1) && Encoding(AnswerJson(a)) == Encoding(AnswerJson(b))
    ensures a == b
  {
    hide SoundAnswer, AnswerJson, Print, Utf8, Printable;
    AnswerIsPrintable(a, -1);
    AnswerIsPrintable(b, -1);
    CanonicalIsInjective(AnswerJson(a), AnswerJson(b));
    AnswerIsInjective(a, b);
  }

  // What the recipient's key signs elsewhere is never taken for one of its answers here.
  lemma OtherSignatureKeepsInv(g: Setting, w: World, v: Json)
    requires Inv(g, w)
    ensures Inv(g, Next(g, w, RecipientSigns(v)))
  {
    hide AgreesWithSome, GoodReply, GoodAcceptance, SoundAnswer, OfferHeld, Agrees, Print, Utf8, AnswerJson, Printable;
    var w' := Next(g, w, RecipientSigns(v));
    forall a: Answer | SoundAnswer(a, -1) && a.transferId == g.senderTerms.transferId
        && Encoding(AnswerJson(a)) in w'.byRecipient
      ensures exists i :: 0 <= i < |w'.recipient.replies| && w'.recipient.replies[i].answer == a
    {
      if Encoding(AnswerJson(a)) !in w.byRecipient {
        AnswerIsPrintable(a, -1);
        CanonicalIsInjective(v, AnswerJson(a));
      }
    }
  }

  lemma StartKeepsInv(g: Setting, w: World, now: int, key: Key, nonce: Bytes)
    requires Inv(g, w)
    ensures Inv(g, Next(g, w, Start(now, key, nonce)))
  {
    hide AgreesWithSome, GoodReply, GoodAcceptance, SoundAnswer, SoundOffer, Agrees, Encoding, AnswerJson, OfferJson,
         CreateOffer, Encode;
    if CreateOffer(g.crypto, g.senderTerms, now, key, nonce).Ok? {
      CreatedOffer(g.crypto, g.senderTerms, now, key, nonce);
    }
  }

  lemma {:induction false} RunKeepsInv(g: Setting, events: seq<Event>)
    requires Commutes(g.crypto)
    ensures Inv(g, After(g, events))
  {
    hide Inv, Next, Commutes;
    if events == [] {
      BeginningInv(g);
    } else {
      var before, e := After(g, events[..|events| - 1]), events[|events| - 1];
      RunKeepsInv(g, events[..|events| - 1]);
      match e
      case Start(now, key, nonce) => StartKeepsInv(g, before, now, key, nonce);
      case OfferSignal(message, now, key, nonce) => ReplyKeepsInv(g, before, message, now, key, nonce);
      case AnswerSignal(message, now) => AnswerKeepsInv(g, before, message, now);
      case SenderSigns(bytes) => SenderSignsKeepsInv(g, before, bytes);
      case RecipientSigns(v) => OtherSignatureKeepsInv(g, before, v);
    }
  }

  lemma BeginningInv(g: Setting)
    ensures Inv(g, Beginning())
  {
  }

  lemma SenderSignsKeepsInv(g: Setting, w: World, bytes: Bytes)
    requires Inv(g, w)
    ensures Inv(g, Next(g, w, SenderSigns(bytes)))
  {
    hide AgreesWithSome, GoodReply, GoodAcceptance, SoundAnswer, OfferHeld, Agrees, Encoding, AnswerJson;
  }

  /** In every run, every answer the sender accepts was created by the recipient, for the sender's exact offer, and both
      derived the same transcript hash and confirmation and mirrored keys and nonce prefixes; otherwise the two offers
      are a collision of SHA-256. */
  lemma {:induction false} HandshakeAgreement(g: Setting, events: seq<Event>, i: nat)
    requires Commutes(g.crypto) && i < |After(g, events).sender.accepted|
    ensures var w := After(g, events);
            exists j :: 0 <= j < |w.recipient.replies| && Agrees(w.sender.accepted[i], w.recipient.replies[j])
  {
    hide After, OfferHeld, GoodReply, AnswersAreReplies, Agrees;
    RunKeepsInv(g, events);
    assert AgreesWithSome(After(g, events).sender.accepted[i], After(g, events).recipient.replies);
  }

  /** Equal transcript hashes mean equal offers and answers, unless the transcripts are a collision of SHA-256. */
  lemma TranscriptHashBinds(o: Offer, a: Answer, o': Offer, a': Answer)
    requires SoundOffer(o, -1) && SoundAnswer(a, -1) && SoundOffer(o', -1) && SoundAnswer(a', -1)
    requires Sha256(Transcript(o, a)) == Sha256(Transcript(o', a'))
    ensures (o == o' && a == a') || Collision(Transcript(o, a), Transcript(o', a'))
  {
    hide SoundOffer, SoundAnswer, Sha256, Transcript;
    if Transcript(o, a) == Transcript(o', a') {
      TranscriptIsInjective(o, a, o', a', -1);
    }
  }

  // The material the two sessions hold is mirrored.
  predicate HoldMirrored(w: World) {
    w.sender.material.Some? && w.recipient.material.Some? && Mirrored(w.sender.material.value,
        w.recipient.material.value)
  }

  predicate SameExchange(acc: Acceptance, reply: Option<Reply>) {
    reply.Some? && reply.value.offer == acc.offer && reply.value.answer == acc.answer
  }

  lemma {:induction false} LastDerivedIsReply(replies: seq<Reply>)
    ensures var last := LastDerived(replies);
            last.Some? ==> last.value in replies && last.value.material.Ok?
    decreases |replies|
  {
    if replies != [] { LastDerivedIsReply(replies[..|replies| - 1]); }
  }

  // For one acceptance and one reply with keys: the materials mirror exactly when the messages are the same.
  lemma {:induction false} MirrorsExactly(crypto: Crypto, acc: Acceptance, reply: Reply)
    requires Commutes(crypto) && GoodAcceptance(crypto, acc) && GoodReply(crypto, reply) && reply.material.Ok?
    ensures reply.offer == acc.offer && reply.answer == acc.answer ==> Mirrored(acc.material, reply.material.value)
    ensures Mirrored(acc.material, reply.material.value) ==>
              (reply.offer == acc.offer && reply.answer == acc.answer)
              || Collision(Transcript(acc.offer, acc.answer), Transcript(reply.offer, reply.answer))
  {
    hide Commutes, SoundOffer, SoundAnswer, Encode, Sha256, Transcript, SpkiOf, Encoding, OfferJson, Collision;
    if reply.offer == acc.offer && reply.answer == acc.answer {
      hide Derive;
      DerivationsMirror(crypto, acc.offer, acc.answer, acc.key, reply.key);
    } else if Mirrored(acc.material, reply.material.value) {
      TranscriptHashBinds(acc.offer, acc.answer, reply.offer, reply.answer);
    }
  }

  /** When the sessions' own material agrees. In every run in which the sender holds keys, the keys the two sessions
      hold
      are mirrored if the last answer the sender accepted belongs to the last reply the recipient derived keys for, and
      only then, unless the two transcripts are a collision of SHA-256. */
  lemma {:induction false} HeldMaterialAgreement(g: Setting, events: seq<Event>)
    requires Commutes(g.crypto) && After(g, events).sender.material.Some?
    ensures var w := After(g, events);
            && w.sender.accepted != []
            && var acc, reply := w.sender.accepted[|w.sender.accepted| - 1], LastDerived(w.recipient.replies);
               && (SameExchange(acc, reply) ==> HoldMirrored(w))
               && (HoldMirrored(w) ==>
                     SameExchange(acc, reply)
                     || (reply.Some? && Collision(Transcript(acc.offer, acc.answer),
                         Transcript(reply.value.offer, reply.value.answer))))
  {
    hide After, OfferHeld, GoodReply, GoodAcceptance, AnswersAreReplies, AgreesWithSome, Collision, Transcript,
         Mirrored, LastDerived, Commutes;
    RunKeepsInv(g, events);
    var w := After(g, events);
    LastDerivedIsReply(w.recipient.replies);
    var acc, reply := w.sender.accepted[|w.sender.accepted| - 1], LastDerived(w.recipient.replies);
    if reply.Some? {
      MirrorsExactly(g.crypto, acc, reply.value);
    }
  }

  /** A recipient that answers one offer only, as the relay's single use of an offer has it, ends with the sender's
      keys. */
  lemma {:induction false} OneReplyAgreement(g: Setting, events: seq<Event>)
    requires Commutes(g.crypto) && After(g, events).sender.material.Some? && |After(g, events).recipient.replies| <= 1
    ensures var w := After(g, events);
            && w.sender.accepted != [] && |w.recipient.replies| == 1
            && (HoldMirrored(w)
                || Collision(Encoding(OfferJson(w.sender.accepted[|w.sender.accepted| - 1].offer)),
                             Encoding(OfferJson(w.recipient.replies[0].offer))))
  {
    hide After, OfferHeld, GoodReply, GoodAcceptance, AnswersAreReplies, Collision, Encoding, OfferJson, Mirrored,
         Commutes, HoldMirrored;
    RunKeepsInv(g, events);
    HeldMaterialAgreement(g, events);
    var w := After(g, events);
    var i := |w.sender.accepted| - 1;
    assert AgreesWithSome(w.sender.accepted[i], w.recipient.replies);
  }

  // ----- Keys of their own -----

  // What is asked of HKDF: as many bytes as requested, and under one secret and salt different keys for the three
  // labels of 32-byte outputs.
  ghost predicate SeparatesKeys(crypto: Crypto) {
    && (forall ikm, salt, info, n :: |crypto.expand(ikm, salt, info, n)| == n)
    && (forall ikm, salt ::
          && crypto.expand(ikm, salt, "s2r-key", 32) != crypto.expand(ikm, salt, "r2s-key", 32)
          && crypto.expand(ikm, salt, "s2r-key", 32) != crypto.expand(ikm, salt, "confirmation", 32)
          && crypto.expand(ikm, salt, "r2s-key", 32) != crypto.expand(ikm, salt, "confirmation", 32))
  }

  // The two directions and the confirmation have different keys; the sender sends with the s2r key, the recipient with
  // the other; nonce prefixes have four bytes.
  predicate WellKeyed(m: Material, role: Role) {
    && m.s2rKey != m.r2sKey && m.s2rKey != m.confirmation && m.r2sKey != m.confirmation
    && |m.s2rKey| == |m.r2sKey| == |m.confirmation| == 32 && |m.s2rPrefix| == |m.r2sPrefix| == 4
    && (role == SenderRole ==>
          m.sendKey == m.s2rKey && m.receiveKey == m.r2sKey && m.sendPrefix == m.s2rPrefix
              && m.receivePrefix == m.r2sPrefix)
    && (role == RecipientRole ==>
          m.sendKey == m.r2sKey && m.receiveKey == m.s2rKey && m.sendPrefix == m.r2sPrefix
              && m.receivePrefix == m.s2rPrefix)
  }

  lemma {:induction false} DerivedIsWellKeyed(crypto: Crypto, secret: Bytes, hash: Bytes, role: Role)
    requires SeparatesKeys(crypto)
    ensures WellKeyed(MaterialOf(crypto, secret, hash, role), role)
    // Four bytes may coincide by chance, but the prefixes differ whenever their labels tell them apart.
    ensures crypto.expand(secret, hash, "s2r-nonce-prefix", 4) != crypto.expand(secret, hash, "r2s-nonce-prefix", 4) ==>
      MaterialOf(crypto, secret, hash, role).s2rPrefix != MaterialOf(crypto, secret, hash, role).r2sPrefix
  {
  }

  /** In every run, every material either session ever derives gives its two directions different keys, and a session
      sends with the key its peer receives with, never with the one it receives with itself. */
  lemma {:induction false} DirectionsHaveTheirOwnKeys(g: Setting, events: seq<Event>)
    requires Commutes(g.crypto) && SeparatesKeys(g.crypto)
    ensures var w := After(g, events);
            && (forall i :: 0 <= i < |w.sender.accepted| ==> WellKeyed(w.sender.accepted[i].material, SenderRole))
            && (forall j :: 0 <= j < |w.recipient.replies| && w.recipient.replies[j].material.Ok? ==>
                  WellKeyed(w.recipient.replies[j].material.value, RecipientRole))
            && (w.sender.material.Some? ==> WellKeyed(w.sender.material.value, SenderRole))
            && (w.recipient.material.Some? ==> WellKeyed(w.recipient.material.value, RecipientRole))
  {
    hide After, OfferHeld, AnswersAreReplies, AgreesWithSome, SeparatesKeys, WellKeyed, Commutes, SoundOffer,
    SoundAnswer, Encode, SpkiOf,
         Transcript, Sha256, MaterialOf, OfferJson, Encoding, LastDerived;
    RunKeepsInv(g, events);
    var w := After(g, events);
    LastDerivedIsReply(w.recipient.replies);
    forall i | 0 <= i < |w.sender.accepted| ensures WellKeyed(w.sender.accepted[i].material, SenderRole) {
      var acc := w.sender.accepted[i];
      assert GoodAcceptance(g.crypto, acc);
      var secret := g.crypto.agree(acc.key, SpkiOf(acc.answer.recipientSpki)).value;
      DerivedIsWellKeyed(g.crypto, secret, Sha256(Transcript(acc.offer, acc.answer)), SenderRole);
    }
    forall j | 0 <= j < |w.recipient.replies| && w.recipient.replies[j].material.Ok?
      ensures WellKeyed(w.recipient.replies[j].material.value, RecipientRole)
    {
      var reply := w.recipient.replies[j];
      assert GoodReply(g.crypto, reply);
      var secret := g.crypto.agree(reply.key, SpkiOf(reply.offer.senderSpki)).value;
      DerivedIsWellKeyed(g.crypto, secret, Sha256(Transcript(reply.offer, reply.answer)), RecipientRole);
    }
  }

  // Two different secrets or salts for which HKDF gives one key.
  predicate KeyCollision(crypto: Crypto, info: string, ikm: Bytes, salt: Bytes, ikm': Bytes, salt': Bytes) {
    (ikm != ikm' || salt != salt') && crypto.expand(ikm, salt, info, 32) == crypto.expand(ikm', salt', info, 32)
  }

  // The secret and the salt a session derived its keys from.
  function SenderSecret(crypto: Crypto, acc: Acceptance): Option<Bytes> {
    crypto.agree(acc.key, SpkiOf(acc.answer.recipientSpki))
  }

  function RecipientSecret(crypto: Crypto, reply: Reply): Option<Bytes> {
    crypto.agree(reply.key, SpkiOf(reply.offer.senderSpki))
  }

  /** A key is bound to its exchange: an accepted answer and a reply that share the sender's key are for the same offer
      and answer, or their transcripts are a collision of SHA-256, or the two derivations one of HKDF. */
  lemma {:induction false} SharedKeyMeansSameExchange(crypto: Crypto, acc: Acceptance, reply: Reply)
    requires GoodAcceptance(crypto, acc) && GoodReply(crypto, reply) && reply.material.Ok?
    requires acc.material.sendKey == reply.material.value.receiveKey
    ensures SenderSecret(crypto, acc).Some? && RecipientSecret(crypto, reply).Some?
    ensures var t, t' := Transcript(acc.offer, acc.answer), Transcript(reply.offer, reply.answer);
            || (reply.offer == acc.offer && reply.answer == acc.answer) || Collision(t, t')
            || KeyCollision(crypto, "s2r-key", SenderSecret(crypto, acc).value, Sha256(t),
                            RecipientSecret(crypto, reply).value, Sha256(t'))
  {
    hide SoundOffer, SoundAnswer, Encode, Sha256, Transcript, SpkiOf, Encoding, OfferJson, Collision;
    if Sha256(Transcript(acc.offer, acc.answer)) == Sha256(Transcript(reply.offer, reply.answer)) {
      TranscriptHashBinds(acc.offer, acc.answer, reply.offer, reply.answer);
    }
  }

  // ----- Terms -----

  // Offers and answers carry the terms of the session that made or took them, an answer never outlives its offer, and
  // the recipient answers only what carries the sender's signature.
  ghost predicate TermsHold(g: Setting, w: World) {
    && (w.sender.offer.Some? ==>
          HasTerms(w.sender.offer.value, g.senderTerms) && w.sender.offer.value.expiresAt == g.senderTerms.expiresAt)
    && (forall i :: 0 <= i < |w.sender.accepted| ==> ProperAcceptance(g, w.sender.accepted[i]))
    && (forall j :: 0 <= j < |w.recipient.replies| ==> ProperReply(g, w.bySender, w.recipient.replies[j]))
  }

  predicate ProperAcceptance(g: Setting, acc: Acceptance) {
    HasTerms(acc.offer, g.senderTerms) && SameTerms(acc.offer, acc.answer)
        && acc.answer.expiresAt <= acc.offer.expiresAt
  }

  predicate ProperReply(g: Setting, signed: set<Bytes>, reply: Reply) {
    && HasTerms(reply.offer, g.recipientTerms) && SameTerms(reply.offer, reply.answer)
    && reply.answer.expiresAt <= reply.offer.expiresAt && Encoding(OfferJson(reply.offer)) in signed
  }

  lemma {:induction false} CreatedTerms(crypto: Crypto, t: Terms, now: int, key: Key, nonce: Bytes)
    requires CreateOffer(crypto, t, now, key, nonce).Ok?
    ensures var o := CreateOffer(crypto, t, now, key, nonce).value;
            HasTerms(o, t) && o.expiresAt == t.expiresAt && o.issuedAt == now && now < o.expiresAt
  {
    hide Encode, OfferJson, ValidateOffer, IsUuid, Base64Of;
    var core, o := OfferFor(crypto, t, now, key, nonce), CreateOffer(crypto, t, now, key, nonce).value;
    ValidOffers(OfferJson(core), now, o);
    OfferIsInjective(core, o);
  }

  lemma {:induction false} ReplyTerms(
      crypto: Crypto, t: Terms, message: Json, now: int, key: Key, nonce: Bytes, signed: set<Bytes>)
    requires ReplyTo(crypto, t, message, now, key, nonce, signed).Some?
    ensures var reply := ReplyTo(crypto, t, message, now, key, nonce, signed).value;
            && HasTerms(reply.offer, t) && SameTerms(reply.offer, reply.answer)
            && reply.answer.expiresAt <= reply.offer.expiresAt && now < reply.answer.expiresAt
            && Encoding(OfferJson(reply.offer)) in signed
  {
    hide Encode, OfferJson, AnswerJson, ValidateOffer, ValidateAnswer, Sha256, Print, Utf8, Unwrap, Derive, SpkiOf,
         IsUuid, Base64Of;
    var o := CheckOffer(crypto, t, message, now, signed).value;
    ValidOffers(OfferJson(o), now, ValidateOffer(OfferJson(o), now).value);
    OfferIsInjective(o, ValidateOffer(OfferJson(o), now).value);
    var a := CreateAnswer(crypto, t, OfferJson(o), o.expiresAt, now, key, nonce).value;
    var core := AnswerFor(crypto, o, now, key, nonce);
    ValidAnswers(AnswerJson(core), now, a);
    AnswerIsInjective(core, a);
  }

  // What the sender accepts has its own terms and is not out of date.
  lemma {:induction false} AcceptedTerms(
      crypto: Crypto, t: Terms, o: Offer, message: Json, now: int, signed: set<Bytes>)
    requires CheckAnswer(crypto, t, o, message, now, signed).Ok?
    ensures var a := CheckAnswer(crypto, t, o, message, now, signed).value;
            HasTerms(o, t) && SameTerms(o, a) && a.expiresAt <= o.expiresAt && now < a.expiresAt
  {
    hide Encode, Decode, Sha256, SpkiOf, Unwrap, OfferJson, AnswerJson, Print, Utf8, ValidateAnswer, ValidateOffer,
         IsUuid, Base64Of;
    var p := ValidateOffer(OfferJson(o), now).value;
    ValidOffers(OfferJson(o), now, p);
    OfferIsInjective(o, p);
    ValidAnswers(Unwrap(message).value.0, now, CheckAnswer(crypto, t, o, message, now, signed).value);
  }

  /** In every run each side only makes and takes messages of its own transfer, devices and account epoch; no answer
      outlives its offer; and the recipient only ever answers offers the sender signed. */
  lemma {:induction false} TermsHoldInEveryRun(g: Setting, events: seq<Event>)
    ensures TermsHold(g, After(g, events))
    decreases |events|
  {
    hide CreateOffer, CheckAnswer, ReplyTo, Derive, SpkiOf, HasTerms, SameTerms, Encoding, OfferJson, AnswerJson,
         Printable, Print;
    if events != [] {
      var init, e := events[..|events| - 1], events[|events| - 1];
      TermsHoldInEveryRun(g, init);
      var w := After(g, init);
      match e
      case Start(now, key, nonce) =>
        if CreateOffer(g.crypto, g.senderTerms, now, key, nonce).Ok? {
          CreatedTerms(g.crypto, g.senderTerms, now, key, nonce);
        }
      case OfferSignal(message, now, key, nonce) =>
        if ReplyTo(g.crypto, g.recipientTerms, message, now, key, nonce, w.bySender).Some? {
          ReplyTerms(g.crypto, g.recipientTerms, message, now, key, nonce, w.bySender);
        }
      case AnswerSignal(message, now) =>
        if w.sender.offer.Some? && CheckAnswer(g.crypto, g.senderTerms, w.sender.offer.value, message, now,
            w.byRecipient).Ok? {
          AcceptedTerms(g.crypto, g.senderTerms, w.sender.offer.value, message, now, w.byRecipient);
        }
      case _ =>
    }
  }

  // ----- An undisturbed exchange goes through -----

  predicate SoundTerms(t: Terms) {
    && IsUuid(t.transferId) && SafeNatural(t.accountEpoch) && IsUuid(t.senderDeviceId) && IsUuid(t.recipientDeviceId)
    && SafeNatural(t.expiresAt)
  }

  predicate UsableKey(crypto: Crypto, k: Key) {
    1 <= |crypto.publicKey(k)| <= MAX_SPKI_BYTES && crypto.isKey(crypto.publicKey(k))
  }

  lemma {:induction false} EncodedIsBase64(b: Bytes, minimum: nat, maximum: nat)
    requires minimum <= |b| <= maximum <= MAX_SPKI_BYTES
    ensures Base64Of(Encode(b), minimum, maximum) && SpkiOf(Encode(b)) == b
  {
    hide Encode, Decode;
    DecodesExactly(Encode(b), MAX_SPKI_BYTES, b);
  }

  lemma {:induction false} Unwraps(core: Json, signature: Bytes)
    requires |signature| == SIGNATURE_BYTES
    ensures Unwrap(SignedJson(core, signature)) == Ok((core, signature))
  {
    hide Record, FieldsOf, SignedKeys, Encode, SignatureOf;
    var fields := [core, Str(Encode(signature))];
    ExactFields(SignedJson(core, signature), SignedKeys(), fields, "invalid_handshake", "extra_field", "missing_field");
    SignatureBack(signature);
  }

  // The offer and the answer the two sessions create.
  function OfferFor(crypto: Crypto, t: Terms, now: int, key: Key, nonce: Bytes): Offer {
    Offer(t.transferId, t.accountEpoch, t.senderDeviceId, t.recipientDeviceId,
          Encode(crypto.publicKey(key)), Encode(nonce), now, t.expiresAt)
  }

  function AnswerFor(crypto: Crypto, o: Offer, now: int, key: Key, nonce: Bytes): Answer {
    Answer(o.transferId, o.accountEpoch, o.senderDeviceId, o.recipientDeviceId,
           Encode(Sha256(Encoding(OfferJson(o)))), Encode(crypto.publicKey(key)), Encode(nonce), now, o.expiresAt)
  }

  predicate HasTerms(o: Offer, t: Terms) {
    && o.transferId == t.transferId && o.accountEpoch == t.accountEpoch
    && o.senderDeviceId == t.senderDeviceId && o.recipientDeviceId == t.recipientDeviceId
  }

  lemma {:induction false} OfferIsCreated(crypto: Crypto, t: Terms, now: int, key: Key, nonce: Bytes)
    requires SoundTerms(t) && UsableKey(crypto, key) && SafeNatural(now) && now < t.expiresAt && |nonce| == NONCE_BYTES
    ensures var o := OfferFor(crypto, t, now, key, nonce);
            && CreateOffer(crypto, t, now, key, nonce) == Ok(o) && SoundOffer(o, now) && HasTerms(o, t)
            && o.senderSpki == Encode(crypto.publicKey(key)) && SpkiOf(o.senderSpki) == crypto.publicKey(key)
  {
    hide Encode, Decode, IsUuid, OfferJson, ValidateOffer, Base64Of, SpkiOf;
    var o := OfferFor(crypto, t, now, key, nonce);
    EncodedIsBase64(crypto.publicKey(key), 1, MAX_SPKI_BYTES);
    EncodedIsBase64(nonce, NONCE_BYTES, NONCE_BYTES);
    ValidOffers(OfferJson(o), now, o);
  }

  lemma {:induction false} AnswerIsCreated(crypto: Crypto, t: Terms, o: Offer, now: int, key: Key, nonce: Bytes)
    requires SoundOffer(o, now) && HasTerms(o, t) && SafeNatural(now) && UsableKey(crypto, key)
             && |nonce| == NONCE_BYTES
    ensures var a := AnswerFor(crypto, o, now, key, nonce);
            && CreateAnswer(crypto, t, OfferJson(o), o.expiresAt, now, key, nonce) == Ok(a) && SoundAnswer(a, now)
            && SpkiOf(a.recipientSpki) == crypto.publicKey(key)
  {
    hide Encode, Decode, IsUuid, OfferJson, AnswerJson, ValidateOffer, ValidateAnswer, Base64Of, SpkiOf, Sha256, Print,
         Utf8;
    var a := AnswerFor(crypto, o, now, key, nonce);
    EncodedIsBase64(Sha256(Encoding(OfferJson(o))), HASH_BYTES, HASH_BYTES);
    EncodedIsBase64(crypto.publicKey(key), 1, MAX_SPKI_BYTES);
    EncodedIsBase64(nonce, NONCE_BYTES, NONCE_BYTES);
    ValidOffers(OfferJson(o), now, o);
    ValidAnswers(AnswerJson(a), now, a);
  }

  // A genuine offer gets a reply, however often it arrives.
  lemma {:induction false} OfferIsAnswered(
      crypto: Crypto, t: Terms, o: Offer, now: int, key: Key, nonce: Bytes, signature: Bytes, signed: set<Bytes>)
    requires SoundOffer(o, now) && HasTerms(o, t) && SafeNatural(now) && UsableKey(crypto, key)
             && |nonce| == NONCE_BYTES
    requires crypto.isKey(SpkiOf(o.senderSpki)) && |signature| == SIGNATURE_BYTES
    requires Encoding(OfferJson(o)) in signed && crypto.verifies(Encoding(OfferJson(o)), signature)
    ensures var a := AnswerFor(crypto, o, now, key, nonce);
            ReplyTo(crypto, t, SignedJson(OfferJson(o), signature), now, key, nonce, signed)
            == Some(Reply(o, a, key, Derive(crypto, o, a, key, SpkiOf(o.senderSpki), RecipientRole)))
  {
    hide SoundOffer, SoundAnswer, Encode, OfferJson, AnswerJson, ValidateOffer, SpkiOf, Print, Utf8, SignedJson, Unwrap,
         CreateAnswer, Derive, AnswerFor;
    Unwraps(OfferJson(o), signature);
    ValidOffers(OfferJson(o), now, o);
    AnswerIsCreated(crypto, t, o, now, key, nonce);
  }

  // The answer to the sender's offer is accepted.
  lemma {:induction false} AnswerIsAccepted(
      crypto: Crypto, t: Terms, o: Offer, now: int, key: Key, nonce: Bytes, signature: Bytes, signed: set<Bytes>)
    requires SoundOffer(o, now) && HasTerms(o, t) && SafeNatural(now) && UsableKey(crypto, key)
             && |nonce| == NONCE_BYTES
    requires |signature| == SIGNATURE_BYTES
    requires var message := Encoding(AnswerJson(AnswerFor(crypto, o, now, key, nonce)));
             message in signed && crypto.verifies(message, signature)
    ensures var a := AnswerFor(crypto, o, now, key, nonce);
            CheckAnswer(crypto, t, o, SignedJson(AnswerJson(a), signature), now, signed) == Ok(a)
  {
    hide SoundOffer, SoundAnswer, Encode, Decode, OfferJson, AnswerJson, ValidateOffer, ValidateAnswer, SpkiOf, Sha256,
         Print, Utf8, SignedJson, Unwrap;
    var a := AnswerFor(crypto, o, now, key, nonce);
    AnswerIsCreated(crypto, t, o, now, key, nonce);
    Unwraps(AnswerJson(a), signature);
    ValidOffers(OfferJson(o), now, o);
    ValidAnswers(AnswerJson(a), now, a);
    DecodesExactly(a.offerHash, HASH_BYTES, Sha256(Encoding(OfferJson(o))));
  }

  /** Between honest sessions with the same terms, the offer is answered, the answer is accepted, and the keys mirror.
      */
  lemma {:induction false} HonestExchange(
      crypto: Crypto, t: Terms, now: int, k: Key, r: Key, senderNonce: Bytes, recipientNonce: Bytes,
      signature: Bytes, answerSignature: Bytes)
    requires Commutes(crypto) && SoundTerms(t) && UsableKey(crypto, k) && UsableKey(crypto, r)
    requires crypto.agree(k, crypto.publicKey(r)).Some?
    requires SafeNatural(now) && now < t.expiresAt && |senderNonce| == |recipientNonce| == NONCE_BYTES
    requires |signature| == |answerSignature| == SIGNATURE_BYTES
    requires var o := OfferFor(crypto, t, now, k, senderNonce);
             && crypto.verifies(Encoding(OfferJson(o)), signature)
             && crypto.verifies(Encoding(AnswerJson(AnswerFor(crypto, o, now, r, recipientNonce))), answerSignature)
    ensures var offer := CreateOffer(crypto, t, now, k, senderNonce);
            && offer.Ok?
            && var message := SignedJson(OfferJson(offer.value), signature);
               var reply := ReplyTo(crypto, t, message, now, r, recipientNonce, {Encoding(OfferJson(offer.value))});
               && reply.Some? && reply.value.offer == offer.value
               && var a := reply.value.answer;
                  var answer := SignedJson(AnswerJson(a), answerSignature);
                  && CheckAnswer(crypto, t, offer.value, answer, now, {Encoding(AnswerJson(a))}) == Ok(a)
                  && var m := Derive(crypto, offer.value, a, k, SpkiOf(a.recipientSpki), SenderRole);
                     m.Ok? && reply.value.material.Ok? && Mirrored(m.value, reply.value.material.value)
  {
    hide Commutes, Encode, OfferJson, AnswerJson, SpkiOf, Sha256, Print, Utf8, SignedJson, ReplyTo, SoundOffer,
    SoundAnswer,
         CreateOffer, CreateAnswer, CheckAnswer, Mirrored, SoundTerms, Transcript, OfferFor;
    OfferIsCreated(crypto, t, now, k, senderNonce);
    var o := OfferFor(crypto, t, now, k, senderNonce);
    var a := AnswerFor(crypto, o, now, r, recipientNonce);
    OfferIsAnswered(crypto, t, o, now, r, recipientNonce, signature, {Encoding(OfferJson(o))});
    AnswerIsCreated(crypto, t, o, now, r, recipientNonce);
    AnswerIsAccepted(crypto, t, o, now, r, recipientNonce, answerSignature, {Encoding(AnswerJson(a))});
    SoundAtAnyTime(o, a, now);
    DerivationsMirror(crypto, o, a, k, r);
  }

  // ----- A replayed offer -----

  // What a run with a replayed offer is made of: the sender's key, two keys of the recipient, a nonce and signatures.
  datatype Replay = Replay(
    crypto: Crypto, terms: Terms, now: int, k: Key, first: Key, second: Key, nonce: Bytes, signature: Bytes,
        answerSignature: Bytes)

  function ReplayedOffer(p: Replay): Offer {
    OfferFor(p.crypto, p.terms, p.now, p.k, p.nonce)
  }

  function FirstAnswer(p: Replay): Answer {
    AnswerFor(p.crypto, ReplayedOffer(p), p.now, p.first, p.nonce)
  }

  // The same signed offer arrives twice; the sender gets the answer to the first.
  function ReplayEvents(p: Replay): seq<Event> {
    var message := SignedJson(OfferJson(ReplayedOffer(p)), p.signature);
    [Start(p.now, p.k, p.nonce), OfferSignal(message, p.now, p.first, p.nonce),
        OfferSignal(message, p.now, p.second, p.nonce),
     AnswerSignal(SignedJson(AnswerJson(FirstAnswer(p)), p.answerSignature), p.now)]
  }

  ghost predicate Playable(p: Replay) {
    && SoundTerms(p.terms) && SafeNatural(p.now) && p.now < p.terms.expiresAt
    && |p.nonce| == NONCE_BYTES && |p.signature| == |p.answerSignature| == SIGNATURE_BYTES
    && p.crypto.verifies(Encoding(OfferJson(ReplayedOffer(p))), p.signature)
    && p.crypto.verifies(Encoding(AnswerJson(FirstAnswer(p))), p.answerSignature)
    && UsableKey(p.crypto, p.k) && UsableKey(p.crypto, p.first) && UsableKey(p.crypto, p.second) && Commutes(p.crypto)
  }

  // The two exchanges give secrets from which HKDF derives different keys.
  ghost predicate Diverging(p: Replay) {
    var x, y := p.crypto.agree(p.k, p.crypto.publicKey(p.first)), p.crypto.agree(p.k, p.crypto.publicKey(p.second));
    x.Some? && y.Some?
    && forall h, h' :: p.crypto.expand(x.value, h, "s2r-key", 32) != p.crypto.expand(y.value, h', "s2r-key", 32)
  }

  function ReplayReply(p: Replay, key: Key): Reply {
    var o := ReplayedOffer(p);
    var a := AnswerFor(p.crypto, o, p.now, key, p.nonce);
    Reply(o, a, key, Derive(p.crypto, o, a, key, SpkiOf(o.senderSpki), RecipientRole))
  }

  lemma {:induction false} ReplayReplies(p: Replay, key: Key, signed: set<Bytes>)
    requires Playable(p) && UsableKey(p.crypto, key) && Encoding(OfferJson(ReplayedOffer(p))) in signed
    ensures ReplyTo(p.crypto, p.terms, SignedJson(OfferJson(ReplayedOffer(p)), p.signature), p.now, key, p.nonce,
            signed)
         == Some(ReplayReply(p, key))
  {
    hide OfferFor, AnswerFor, ReplyTo, Derive, SignedJson, OfferJson, AnswerJson, SpkiOf, SoundTerms, SoundOffer,
    Encoding,
         Encode, Commutes;
    OfferIsCreated(p.crypto, p.terms, p.now, p.k, p.nonce);
    OfferIsAnswered(p.crypto, p.terms, ReplayedOffer(p), p.now, key, p.nonce, p.signature, signed);
  }

  // The keys derived on either side of an exchange of the run.
  lemma {:induction false} ReplayKeys(p: Replay, key: Key)
    requires Playable(p) && UsableKey(p.crypto, key) && p.crypto.agree(p.k, p.crypto.publicKey(key)).Some?
    ensures var o := ReplayedOffer(p);
            var a := AnswerFor(p.crypto, o, p.now, key, p.nonce);
            var secret := p.crypto.agree(p.k, p.crypto.publicKey(key)).value;
            && Derive(p.crypto, o, a, p.k, SpkiOf(a.recipientSpki), SenderRole)
               == Ok(MaterialOf(p.crypto, secret, Sha256(Transcript(o, a)), SenderRole))
            && ReplayReply(p, key).material == Ok(MaterialOf(p.crypto, secret, Sha256(Transcript(o, a)), RecipientRole))
  {
    hide OfferFor, Transcript, Sha256, SpkiOf, SoundTerms, SoundOffer, SoundAnswer, Encode, OfferJson, AnswerJson,
    Encoding,
         CreateAnswer, CreateOffer, MaterialOf;
    OfferIsCreated(p.crypto, p.terms, p.now, p.k, p.nonce);
    AnswerIsCreated(p.crypto, p.terms, ReplayedOffer(p), p.now, key, p.nonce);
    assert p.crypto.agree(p.k, p.crypto.publicKey(key)) == p.crypto.agree(key, p.crypto.publicKey(p.k));
  }

  lemma {:induction false} ReplayAccepted(p: Replay, signed: set<Bytes>)
    requires Playable(p) && Encoding(AnswerJson(FirstAnswer(p))) in signed
    ensures CheckAnswer(p.crypto, p.terms, ReplayedOffer(p), SignedJson(AnswerJson(FirstAnswer(p)), p.answerSignature),
            p.now, signed)
         == Ok(FirstAnswer(p))
  {
    hide OfferFor, AnswerFor, CheckAnswer, SignedJson, OfferJson, AnswerJson, SoundTerms, SoundOffer, Encoding, Encode,
    Commutes,
         CreateOffer, SpkiOf;
    OfferIsCreated(p.crypto, p.terms, p.now, p.k, p.nonce);
    AnswerIsAccepted(p.crypto, p.terms, ReplayedOffer(p), p.now, p.first, p.nonce, p.answerSignature, signed);
  }

  // The state before the last event.
  lemma {:induction false} ReplayUpToAnswer(p: Replay)
    requires Playable(p)
    ensures var w := After(Setting(p.crypto, p.terms, p.terms), ReplayEvents(p)[..3]);
            && w.sender == SenderSession(true, Some(ReplayedOffer(p)), p.k, None, [])
            && w.recipient.replies == [ReplayReply(p, p.first), ReplayReply(p, p.second)]
            && Encoding(AnswerJson(FirstAnswer(p))) in w.byRecipient
            && (ReplayReply(p, p.second).material.Ok? ==>
                  w.recipient.material == Some(ReplayReply(p, p.second).material.value))
  {
    hide OfferFor, AnswerFor, CreateOffer, ReplyTo, Derive, SignedJson, OfferJson, AnswerJson, SpkiOf, SoundTerms,
    SoundOffer,
         Encoding, Encode, Commutes;
    var g, events := Setting(p.crypto, p.terms, p.terms), ReplayEvents(p);
    assert events[..3][..2] == events[..2] && events[..2][..1] == events[..1] && events[..1][..0] == [];
    OfferIsCreated(p.crypto, p.terms, p.now, p.k, p.nonce);
    var w1 := Next(g, Beginning(), events[0]);
    ReplayReplies(p, p.first, w1.bySender);
    var w2 := Next(g, w1, events[1]);
    assert w2.recipient.replies == [ReplayReply(p, p.first)];
    ReplayReplies(p, p.second, w2.bySender);
    var w3 := Next(g, w2, events[2]);
    assert After(g, []) == Beginning();
    assert After(g, events[..1]) == w1;
    assert After(g, events[..2]) == w2;
    assert After(g, events[..3]) == w3;
  }

  /** The recipient takes every genuine offer, also one it has answered before, and keeps the keys of the last. If the
      offer is replayed and the sender accepts the first answer, the two sessions hold keys that do not match. */
  lemma {:induction false} ReplayedOfferDiverges(p: Replay)
    requires Playable(p) && Diverging(p)
    ensures var w := After(Setting(p.crypto, p.terms, p.terms), ReplayEvents(p));
            w.sender.material.Some? && w.recipient.material.Some? && !HoldMirrored(w)
  {
    hide OfferFor, AnswerFor, Derive, CheckAnswer, SignedJson, OfferJson, AnswerJson, SpkiOf, SoundTerms, Encoding,
    Encode, Commutes,
         Transcript, Sha256, ReplayReply;
    var g, events := Setting(p.crypto, p.terms, p.terms), ReplayEvents(p);
    assert events[..|events| - 1] == events[..3];
    ReplayUpToAnswer(p);
    var w := After(g, events[..3]);
    ReplayAccepted(p, w.byRecipient);
    ReplayKeys(p, p.first);
    ReplayKeys(p, p.second);
  }
  // A concrete case: one-byte keys whose sum is the shared secret, which is also every derived key.
  function OneByteKey(k: Key): Bytes { [k.id % 256] }
  function IsOneByte(b: Bytes): bool { |b| == 1 }
  function SumOf(
      k: Key, b: Bytes): Option<Bytes> { if |b| == 1 then Some([(k.id % 256 + b[0] as int) % 256]) else None }
  function TheSecret(secret: Bytes, hash: Bytes, info: string, length: nat): Bytes { secret }
  function AnySignature(message: Bytes, signature: Bytes): bool { true }

  function SomeUuid(): (t: Text)
    ensures IsUuid(t)
  {
    seq(36, i => if IsHyphen(i) then HYPHEN else if i == 14 then 0x34 else if i == 19 then 0x38 else 0x30)
  }

  function SampleReplay(): Replay {
    Replay(Crypto(OneByteKey, IsOneByte, SumOf, TheSecret, AnySignature),
           Terms(SomeUuid(), 0, SomeUuid(), SomeUuid(), 2), 1, Key(0), Key(1), Key(2),
           Zeros(NONCE_BYTES), Zeros(SIGNATURE_BYTES), Zeros(SIGNATURE_BYTES))
  }

  lemma {:induction false} SampleIsPlayable()
    ensures Playable(SampleReplay())
  {
    hide OfferFor, AnswerFor, OfferJson, AnswerJson, Encoding, SomeUuid, IsUuid;
  }

  lemma {:induction false} SampleDiverges()
    ensures Diverging(SampleReplay())
  {
    hide SomeUuid;
  }

  /** A run in which the sessions end with keys that do not match. */
  lemma {:induction false} HeldMaterialCanDiverge()
    ensures var p := SampleReplay();
            var w := After(Setting(p.crypto, p.terms, p.terms), ReplayEvents(p));
            Commutes(p.crypto) && w.sender.material.Some? && w.recipient.material.Some? && !HoldMirrored(w)
  {
    hide After, ReplayEvents, HoldMirrored, SampleReplay, Diverging, OfferJson, AnswerJson, Encoding, UsableKey;
    SampleIsPlayable();
    SampleDiverges();
    ReplayedOfferDiverges(SampleReplay());
  }

  function ByLabel(secret: Bytes, hash: Bytes, info: string, length: nat): Bytes {
    seq(length, _ => if info == "s2r-key" then 1 else if info == "r2s-key" then 2 else 3)
  }

  // What is asked of the cryptography can be had.
  lemma {:induction false} SomeCryptoWillDo()
    ensures var crypto := Crypto(OneByteKey, IsOneByte, SumOf, ByLabel, AnySignature);
            Commutes(crypto) && SeparatesKeys(crypto)
  {
    var crypto := Crypto(OneByteKey, IsOneByte, SumOf, ByLabel, AnySignature);
    assert "r2s-key"[0] != "s2r-key"[0] && |"confirmation"| != |"s2r-key"|;
    forall ikm, salt, info, n ensures |crypto.expand(ikm, salt, info, n)| == n { }
    forall ikm, salt
      ensures crypto.expand(ikm, salt, "s2r-key", 32)[0] == 1 && crypto.expand(ikm, salt, "r2s-key", 32)[0] == 2
              && crypto.expand(ikm, salt, "confirmation", 32)[0] == 3
    {
    }
  }

  /** The session object in the sender's role. */
  class SenderHandshake {
    const crypto: Crypto
    const terms: Terms
    var started: bool
    var handshakeOffer: Option<Offer>
    var ephemeralKey: Key
    var material: Option<Material>
    ghost var accepted: seq<Acceptance>

    ghost function View(): SenderSession
      reads this
    {
      SenderSession(started, handshakeOffer, ephemeralKey, material, accepted)
    }

    constructor (crypto: Crypto, terms: Terms)
      ensures this.crypto == crypto && this.terms == terms && View() == Beginning().sender
    {
      this.crypto, this.terms := crypto, terms;
      started, handshakeOffer, ephemeralKey, material, accepted := false, None, Key(0), None, [];
    }

    // The offer to emit, if there is one.
    method Start(now: int, key: Key, nonce: Bytes) returns (result: Result<Option<Offer>>)
      modifies this
      ensures View() == Started(crypto, terms, old(View()), now, key, nonce)
      ensures result.Ok? && result.value.Some? ==> handshakeOffer == result.value && !old(started)
    {
      hide CreateOffer;
      if started {
        return Ok(None);
      }
      started := true;
      var offer := CreateOffer(crypto, terms, now, key, nonce);
      if offer.Err? {
        return Err(offer.code);
      }
      handshakeOffer := Some(offer.value);
      ephemeralKey := key;
      return Ok(Some(offer.value));
    }

    method OnAnswer(message: Json, now: int, signed: set<Bytes>) returns (result: Result<bool>)
      modifies this
      ensures View() == AnswerArrived(crypto, terms, old(View()), message, now, signed)
      ensures result == Ok(true) <==> accepted != old(accepted)
    {
      hide CheckAnswer, Derive, SpkiOf;
      if handshakeOffer.None? {
        return Ok(false);
      }
      var answer := CheckAnswer(crypto, terms, handshakeOffer.value, message, now, signed);
      if answer.Err? {
        return Err(answer.code);
      }
      var derived := Derive(crypto, handshakeOffer.value, answer.value, ephemeralKey,
          SpkiOf(answer.value.recipientSpki), SenderRole);
      if derived.Err? {
        return Err(derived.code);
      }
      material := Some(derived.value);
      accepted := accepted + [Acceptance(handshakeOffer.value, answer.value, ephemeralKey, derived.value)];
      return Ok(true);
    }
  }

  /** The session object in the recipient's role. */
  class RecipientHandshake {
    const crypto: Crypto
    const terms: Terms
    var material: Option<Material>
    ghost var replies: seq<Reply>

    ghost function View(): RecipientSession
      reads this
    {
      RecipientSession(material, replies)
    }

    constructor (crypto: Crypto, terms: Terms)
      ensures this.crypto == crypto && this.terms == terms && View() == Beginning().recipient
    {
      this.crypto, this.terms, material, replies := crypto, terms, None, [];
    }

    // The answer to emit; it is signed even if the keys cannot be derived.
    method OnOffer(message: Json, now: int, key: Key, nonce: Bytes, signed: set<Bytes>) returns (answer: Result<Answer>)
      modifies this
      ensures var reply := ReplyTo(crypto, terms, message, now, key, nonce, signed);
              View() == if reply.Some? then OfferArrived(old(View()), reply.value) else old(View())
      ensures answer.Ok? ==> |replies| == old(|replies|) + 1 && replies[old(|replies|)].answer == answer.value
    {
      hide CheckOffer, CreateAnswer, Derive, SpkiOf, OfferJson;
      var offer := CheckOffer(crypto, terms, message, now, signed);
      if offer.Err? {
        return Err(offer.code);
      }
      var created := CreateAnswer(crypto, terms, OfferJson(offer.value), offer.value.expiresAt, now, key, nonce);
      if created.Err? {
        return Err(created.code);
      }
      var derived := Derive(crypto, offer.value, created.value, key, SpkiOf(offer.value.senderSpki), RecipientRole);
      replies := replies + [Reply(offer.value, created.value, key, derived)];
      if derived.Err? {
        return Err(derived.code);
      }
      material := Some(derived.value);
      return Ok(created.value);
    }
  }
}

/** The encrypted channel under the keys of a handshake. */
module SecureChannel {
  import opened Outcomes
  import opened Bytes
  import opened Utf
  import H = Handshake
  import opened FrameHeader
  import C = FrameChannel

  // The key and the nonce of the x-th counter an endpoint reserves. The channel's sender has the sender's material.
  function PairOf(m: H.Material, ch: C.Channel, atSender: bool, x: nat): (Bytes, Result<Bytes>)
    requires x < |(if atSender then ch.sender else ch.receiver).reserved|
  {
    if atSender then (m.sendKey, FrameNonce(m.sendPrefix, ch.sender.reserved[x]))
    else (m.receiveKey, FrameNonce(m.receivePrefix, ch.receiver.reserved[x]))
  }

  /** Over both endpoints of a channel that runs on the keys of an accepted handshake, no key is used with one nonce
      twice, whatever the network does and whichever encryptions fail. */
  lemma {:induction false} NoPairIsUsedTwice(
      g: H.Setting, events: seq<H.Event>, i: nat, id: Text, run: seq<C.Action>, a: bool, x: nat, b: bool, y: nat)
    requires H.Commutes(g.crypto) && H.SeparatesKeys(g.crypto) && i < |H.After(g, events).sender.accepted|
    requires var m := H.After(g, events).sender.accepted[i].material;
             var ch := C.Exec(C.Fresh(id, m.confirmation, m.sendPrefix, m.receivePrefix), run);
             && x < |(if a then ch.sender else ch.receiver).reserved|
                && y < |(if b then ch.sender else ch.receiver).reserved|
             && (a != b || x != y)
    ensures var m := H.After(g, events).sender.accepted[i].material;
            var ch := C.Exec(C.Fresh(id, m.confirmation, m.sendPrefix, m.receivePrefix), run);
            PairOf(m, ch, a, x) != PairOf(m, ch, b, y)
  {
    hide H.After, C.Exec, C.Fresh, H.Commutes, H.SeparatesKeys, FrameNonce;
    H.DirectionsHaveTheirOwnKeys(g, events);
    var m := H.After(g, events).sender.accepted[i].material;
    assert H.WellKeyed(m, H.SenderRole);
    if a == b {
      C.NoncesAreFresh(id, m.confirmation, m.sendPrefix, m.receivePrefix, run, a, if x < y then x
          else y, if x < y then y else x);
    }
  }
}
