/** Which handshake messages are created and which are accepted (frontend/src/transferProtocol.ts), told by what is
    written in them. */
module HandshakeChecks {
  import opened Outcomes
  import opened Bytes
  import opened Utf
  import opened JsonText
  import opened Records
  import opened Base64Url
  import opened Uuids
  import opened Sha256Spec
  import opened SignedObjects
  import opened HandshakeMessages
  import opened Handshake

  lemma {:induction false} UnwrapsExactly(message: Json, core: Json, signature: Bytes)
    ensures Unwrap(message) == Ok((core, signature)) <==> |signature| == 64 && message == SignedJson(core, signature)
  {
    hide Record, FieldsOf, SignedKeys, Encode, Decode;
    if |signature| == 64 { Unwraps(core, signature); }
    var fields := FieldsOf(message, SignedKeys(), "invalid_handshake", "extra_field", "missing_field");
    if fields.Ok? {
      ExactFields(message, SignedKeys(), fields.value, "invalid_handshake", "extra_field", "missing_field");
      assert fields.value == [fields.value[0], fields.value[1]];
      if fields.value[1].Str? { DecodesExactly(fields.value[1].text, SIGNATURE_BYTES, signature); }
    }
  }

  lemma {:induction false} OfferValidatesItself(o: Offer, now: int)
    ensures ValidateOffer(OfferJson(o), now).Ok? <==> SoundOffer(o, now)
    ensures SoundOffer(o, now) ==> ValidateOffer(OfferJson(o), now) == Ok(o)
  {
    hide ValidateOffer, OfferJson, SoundOffer;
    ValidOffers(OfferJson(o), now, o);
    var r := ValidateOffer(OfferJson(o), now);
    if r.Ok? {
      ValidOffers(OfferJson(o), now, r.value);
      OfferIsInjective(o, r.value);
    }
  }

  lemma {:induction false} AnswerValidatesItself(a: Answer, now: int)
    ensures ValidateAnswer(AnswerJson(a), now).Ok? <==> SoundAnswer(a, now)
    ensures SoundAnswer(a, now) ==> ValidateAnswer(AnswerJson(a), now) == Ok(a)
  {
    hide ValidateAnswer, AnswerJson, SoundAnswer;
    ValidAnswers(AnswerJson(a), now, a);
    var r := ValidateAnswer(AnswerJson(a), now);
    if r.Ok? {
      ValidAnswers(AnswerJson(a), now, r.value);
      AnswerIsInjective(a, r.value);
    }
  }

  // ----- Creating -----

  /** createHandshakeOffer gives the offer of its terms, keys and nonce, exactly when that is sound. */
  lemma {:induction false} OfferCreatedExactly(crypto: Crypto, t: Terms, now: int, key: Key, nonce: Bytes, o: Offer)
    ensures CreateOffer(crypto, t, now, key, nonce) == Ok(o) <==>
            o == OfferFor(crypto, t, now, key, nonce) && SoundOffer(o, now)
  {
    hide ValidateOffer, OfferJson, Encode, Decode, IsUuid;
    var core := OfferFor(crypto, t, now, key, nonce);
    OfferValidatesItself(core, now);
    NonceSize(nonce);
  }

  lemma {:induction false} NonceSize(nonce: Bytes)
    ensures Base64Of(Encode(nonce), NONCE_BYTES, NONCE_BYTES) ==> |nonce| == NONCE_BYTES
  {
    hide Encode, Decode;
    var r := Decode(Encode(nonce), MAX_SPKI_BYTES);
    if r.Ok? {
      DecodesExactly(Encode(nonce), MAX_SPKI_BYTES, r.value);
      EncodeIsInjective(r.value, nonce);
    }
  }

  // The answer to an offer with a deadline of its own.
  function AnswerUntil(crypto: Crypto, o: Offer, expiresAt: int, now: int, key: Key, nonce: Bytes): Answer {
    AnswerFor(crypto, o, now, key, nonce).(expiresAt := expiresAt)
  }

  /** createHandshakeAnswer gives the answer with the offer's terms and hash, exactly when the offer is sound and has
      the
      session's terms, and the answer is sound and does not outlive it. */
  lemma {:induction false} AnswerCreatedExactly(
      crypto: Crypto, t: Terms, o: Offer, expiresAt: int, now: int, key: Key, nonce: Bytes, a: Answer)
    ensures CreateAnswer(crypto, t, OfferJson(o), expiresAt, now, key, nonce) == Ok(a) <==>
            && SoundOffer(o, now) && HasTerms(o, t) && expiresAt <= o.expiresAt
            && a == AnswerUntil(crypto, o, expiresAt, now, key, nonce) && SoundAnswer(a, now)
  {
    hide ValidateOffer, ValidateAnswer, OfferJson, AnswerJson, Encode, Decode, IsUuid, Sha256, Encoding, SoundOffer;
    OfferValidatesItself(o, now);
    AnswerValidatesItself(AnswerUntil(crypto, o, expiresAt, now, key, nonce), now);
    NonceSize(nonce);
  }

  // ----- Accepting -----

  // A signed message whose signature fits what was signed with the peer's key.
  ghost predicate SignedFor(crypto: Crypto, signed: set<Bytes>, message: Json, core: Json, signature: Bytes) {
    && |signature| == 64 && message == SignedJson(core, signature)
    && Encoding(core) in signed && crypto.verifies(Encoding(core), signature)
  }

  /** assertValidHandshakeOffer accepts exactly the sound offers with the session's terms that the sender signed, with a
      usable key. */
  lemma {:induction false} OfferCheckedExactly(
      crypto: Crypto, t: Terms, message: Json, now: int, signed: set<Bytes>, o: Offer)
    ensures CheckOffer(crypto, t, message, now, signed) == Ok(o) <==>
            && SoundOffer(o, now) && HasTerms(o, t) && crypto.isKey(SpkiOf(o.senderSpki))
            && exists signature :: SignedFor(crypto, signed, message, OfferJson(o), signature)
  {
    hide Unwrap, ValidateOffer, OfferJson, SoundOffer, Encoding, SpkiOf, SignedJson;
    forall signature | SignedFor(crypto, signed, message, OfferJson(o), signature)
      ensures Unwrap(message) == Ok((OfferJson(o), signature))
    {
      UnwrapsExactly(message, OfferJson(o), signature);
    }
    OfferValidatesItself(o, now);
    var unwrapped := Unwrap(message);
    if unwrapped.Ok? {
      var (core, signature) := unwrapped.value;
      UnwrapsExactly(message, core, signature);
      ValidOffers(core, now, o);
      if CheckOffer(crypto, t, message, now, signed) == Ok(o) {
        assert SignedFor(crypto, signed, message, OfferJson(o), signature);
      }
    }
  }

  /** assertValidHandshakeAnswer accepts exactly the sound answers to the session's own, still sound offer: with its
      terms
      and the session's, its hash, no later deadline, signed by the recipient, with a usable key. */
  lemma {:induction false} AnswerCheckedExactly(
      crypto: Crypto, t: Terms, offer: Offer, message: Json, now: int, signed: set<Bytes>, a: Answer)
    ensures CheckAnswer(crypto, t, offer, message, now, signed) == Ok(a) <==>
            && SoundOffer(offer, now) && HasTerms(offer, t) && SoundAnswer(a, now) && SameTerms(offer, a)
            && a.expiresAt <= offer.expiresAt && a.offerHash == Encode(Sha256(Encoding(OfferJson(offer))))
            && crypto.isKey(SpkiOf(a.recipientSpki))
            && exists signature :: SignedFor(crypto, signed, message, AnswerJson(a), signature)
  {
    hide Unwrap, ValidateOffer, ValidateAnswer, OfferJson, AnswerJson, SoundOffer, SoundAnswer, Encoding, SpkiOf,
         SignedJson, Encode, Decode, Sha256;
    forall signature | SignedFor(crypto, signed, message, AnswerJson(a), signature)
      ensures Unwrap(message) == Ok((AnswerJson(a), signature))
    {
      UnwrapsExactly(message, AnswerJson(a), signature);
    }
    OfferValidatesItself(offer, now);
    AnswerValidatesItself(a, now);
    DecodesExactly(a.offerHash, HASH_BYTES, Sha256(Encoding(OfferJson(offer))));
    var unwrapped := Unwrap(message);
    if unwrapped.Ok? {
      var (core, signature) := unwrapped.value;
      UnwrapsExactly(message, core, signature);
      ValidAnswers(core, now, a);
      if CheckAnswer(crypto, t, offer, message, now, signed) == Ok(a) {
        assert SignedFor(crypto, signed, message, AnswerJson(a), signature);
      }
    }
  }

  /** deriveHandshakeMaterial gives material exactly for an offer and an answer of the same terms and a usable key with
      which the two keys agree. */
  lemma {:induction false} DerivesExactly(crypto: Crypto, o: Offer, a: Answer, key: Key, remote: Bytes, role: Role)
    ensures Derive(crypto, o, a, key, remote, role).Ok? <==>
            SameTerms(o, a) && crypto.isKey(remote) && crypto.agree(key, remote).Some?
  {
    hide MaterialOf, Transcript, Sha256;
  }
}
