/** Which messages each handler of the file-transfer engine takes (frontend/src/fileTransfer.ts), told by what was
    written into them. */
module FileChecks {
  import opened Outcomes
  import opened Bytes
  import opened Utf
  import opened JsonText
  import opened Records
  import opened Base64Url
  import opened Sha256Spec
  import opened ChunkSplit
  import opened SignedObjects
  import opened Payloads
  import opened FrameHeader
  import opened FrameStream
  import opened FrameChannel
  import opened FileEngine

  // The one encoding of a value.
  ghost predicate Carries(body: Bytes, v: Json) { CanonicalBytes(v) == Ok(body) }

  lemma {:induction false} CarriedIsParsed(body: Bytes, v: Json)
    ensures ParseCanonical(body) == Ok(v) <==> Carries(body, v)
  {
    hide ParseCanonical, Printable, Print, Utf8;
    CanonicalAcceptance(body, v);
  }

  lemma {:induction false} ParsedIsCarried(body: Bytes)
    ensures ParseCanonical(body).Ok? ==> Carries(body, ParseCanonical(body).value)
  {
    hide ParseCanonical, Carries;
    if ParseCanonical(body).Ok? { CarriedIsParsed(body, ParseCanonical(body).value); }
  }

  // ----- The sender -----

  /** handleAccept takes the acceptance of its own transfer, once, and an engine that has ended stays ended. */
  lemma {:induction false} AcceptTakenExactly(c: Config, s: Sender, body: Bytes)
    ensures var (s', result) := HandleAccept(c, s, body);
            && (result.Ok? <==> !s.remoteAccepted && Carries(body, AcceptJson(c.transferId)))
            && (result.Err? ==> s' == s)
            && (result.Ok? ==> s'.remoteAccepted && !s'.acceptance.Pending? && (Ended(s.state) ==> s'.state == s.state))
  {
    hide ParseCanonical, AcceptOf, AcceptJson, Carries, Record;
    CarriedIsParsed(body, AcceptJson(c.transferId));
    AcceptReadsBack(c.transferId);
    var v := ParseCanonical(body);
    if v.Ok? {
      ParsedIsCarried(body);
      AcceptExactly(v.value, c.transferId);
      AcceptIsAcceptJson(c.transferId);
    }
  }

  lemma {:induction false} AcceptIsAcceptJson(transferId: Text)
    ensures AcceptJson(transferId)
         == Record(Keys(["v", "type", "transfer_id"]), [Num(1), Str(TextOf("file_accept")), Str(transferId)])
  {
    hide TextOf, Record;
  }

  /** handleReceipt takes exactly the receipt of its own transfer for the size and the digest it declared, once the
      completion record was sent. */
  lemma {:induction false} ReceiptTakenExactly(c: Config, s: Sender, body: Bytes)
    ensures var (s', result) := HandleReceipt(c, s, body);
            && (result.Ok? <==>
                  && s.completionSent && s.sentCompletion.Some? && IsDigest(s.sentCompletion.value.sha256)
                  && Carries(body, ReceiptJson(TransferReceipt(c.transferId, s.sentCompletion.value.byteCount,
                                                               s.sentCompletion.value.sha256))))
            && (result.Err? ==> s' == s) && (result.Ok? ==> s'.state == Completed && !s'.receipt.Pending?)
  {
    hide ParseCanonical, ReceiptOf, ReceiptJson, Carries, IsDigest;
    ParsedIsCarried(body);
    var v := ParseCanonical(body);
    if v.Ok? && ReceiptOf(v.value).Ok? { ReceiptExactly(v.value, ReceiptOf(v.value).value); }
    if s.sentCompletion.Some? {
      var receipt := TransferReceipt(c.transferId, s.sentCompletion.value.byteCount, s.sentCompletion.value.sha256);
      CarriedIsParsed(body, ReceiptJson(receipt));
      ReceiptExactly(ReceiptJson(receipt), receipt);
    }
  }

  // ----- The receiver -----

  // What the browser makes of an offer's name and type.
  function Sanitized(c: Config, core: OfferCore): OfferCore {
    core.(fileName := c.host.fileName(core.fileName), mediaType := c.host.mediaType(core.mediaType))
  }

  // The body carries an offer for this transfer whose sanitised core the sender signed.
  ghost predicate CarriesOffer(c: Config, body: Bytes, signed: set<Bytes>, core: OfferCore, signature: Bytes) {
    && core.transferId == c.transferId && |signature| == SIGNATURE_BYTES
    && SizesFit(TransferManifest(core.fileName, core.mediaType, core.byteCount, MAX_CHUNK_SIZE))
    && Carries(body, SignedJson(OfferJson(core), signature))
    && CanonicalBytes(OfferJson(Sanitized(c, core))).Ok?
    && CanonicalBytes(OfferJson(Sanitized(c, core))).value in signed
    && c.verifies(CanonicalBytes(OfferJson(Sanitized(c, core))).value, signature)
  }

  lemma {:induction false} OfferIsTaken(
      c: Config, r: Receiver, body: Bytes, signed: set<Bytes>, core: OfferCore, signature: Bytes)
    requires r.offered.None? && r.manifest.None? && CarriesOffer(c, body, signed, core, signature)
    ensures var (r', result) := HandleFileOffer(c, r, body, signed);
            result.Ok? && r'.offered == Some(TransferManifest(c.host.fileName(core.fileName),
                                                              c.host.mediaType(core.mediaType), core.byteCount,
                                                              MAX_CHUNK_SIZE))
  {
    hide ParseCanonical, OfferOf, SignedJson, OfferJson, CanonicalBytes, SizesFit, Carries;
    CarriedIsParsed(body, SignedJson(OfferJson(core), signature));
    OfferReads(c.host, core, signature);
  }

  lemma {:induction false} TakenWasOffer(c: Config, r: Receiver, body: Bytes, signed: set<Bytes>)
    returns (core: OfferCore, signature: Bytes)
    requires HandleFileOffer(c, r, body, signed).1.Ok?
    ensures r.offered.None? && r.manifest.None? && CarriesOffer(c, body, signed, core, signature)
  {
    hide ParseCanonical, OfferOf, SignedJson, OfferJson, CanonicalBytes, SizesFit, Carries;
    ParsedIsCarried(body);
    var v := ParseCanonical(body).value;
    signature := OfferOf(c.host, v).value.2;
    core := OfferWasSigned(c.host, v);
    OfferReads(c.host, core, signature);
  }

  /** handleFileOffer takes an offer, the first one, exactly when it is for this transfer, its name and type are of a
      fitting size, and what the browser makes of it was signed by the sender. */
  lemma {:induction false} FileOfferTakenExactly(c: Config, r: Receiver, body: Bytes, signed: set<Bytes>)
    ensures var (r', result) := HandleFileOffer(c, r, body, signed);
            && (result.Ok? <==> r.offered.None? && r.manifest.None?
                                && exists core, signature :: CarriesOffer(c, body, signed, core, signature))
            && (result.Err? ==> r' == r)
  {
    hide CarriesOffer, ParseCanonical, OfferOf, OfferJson, CanonicalBytes;
    if HandleFileOffer(c, r, body, signed).1.Ok? {
      var core, signature := TakenWasOffer(c, r, body, signed);
    }
    if core, signature :| CarriesOffer(c, body, signed, core, signature) {
      if r.offered.None? && r.manifest.None? { OfferIsTaken(c, r, body, signed, core, signature); }
    }
  }

  /** accept succeeds exactly between the offer and the manifest, if its frame can be made or was made before; it makes
      at most one frame. */
  lemma {:induction false} AcceptsExactly(c: Config, x: ReceiverSide, peer: Endpoint)
    ensures var (y, result) := Accepts(c, x, peer);
            var f := Frame(Accept, BodyOf(AcceptJson(c.transferId)));
            && (result.Ok? <==> x.r.offered.Some? && x.r.manifest.None?
                                && (x.r.acceptanceSent || SendFrame(x.r.state, x.link, peer, f).Some?))
            && (x.r.offered.None? || x.r.manifest.Some? ==> y == x)
            && (result.Ok? ==> y.r == x.r.(accepted := true)
                               && y.link.made == x.link.made + if x.r.acceptanceSent then [] else [f])
  {
    hide BodyOf, AcceptJson, Acted, Confirmed;
  }

  // The body carries a manifest that agrees with the offer.
  ghost predicate CarriesManifest(c: Config, body: Bytes, offered: TransferManifest, m: TransferManifest) {
    && SizesFit(m) && Carries(body, ManifestJson(m)) && c.host.fileName(m.fileName) == offered.fileName
    && c.host.mediaType(m.mediaType) == offered.mediaType && m.byteCount == offered.byteCount
  }

  /** handleManifest takes a manifest, once, exactly when the file was offered and accepted and the manifest agrees with
      the offer in name, type and size. */
  lemma {:induction false} ManifestTakenExactly(c: Config, r: Receiver, body: Bytes)
    ensures var (r', result) := HandleManifest(c, r, body);
            && (result.Ok? <==> r.accepted && r.offered.Some? && r.manifest.None?
                                && exists m :: CarriesManifest(c, body, r.offered.value, m))
            && (result.Ok? ==> r' == r.(manifest := r'.manifest, digest := Some(Digest([], false)), state := Receiving)
                               && r'.manifest.Some? && r'.manifest.value.byteCount == r.offered.value.byteCount)
  {
    hide ParseCanonical, ManifestOf, ManifestJson, Carries, SizesFit;
    ParsedIsCarried(body);
    var v := ParseCanonical(body);
    if v.Ok? { ManifestExactly(c.host, v.value); }
    if HandleManifest(c, r, body).1.Ok? {
      var m :| SizesFit(m) && v.value == ManifestJson(m);
      assert CarriesManifest(c, body, r.offered.value, m);
    }
    if r.offered.Some? && exists m :: CarriesManifest(c, body, r.offered.value, m) {
      var m :| CarriesManifest(c, body, r.offered.value, m);
      CarriedIsParsed(body, ManifestJson(m));
    }
  }

  /** handleChunk takes a chunk exactly when the file has begun, and the chunk has the declared size or is the whole
      rest. */
  lemma {:induction false} ChunkTakenExactly(r: Receiver, chunk: Bytes)
    ensures var (r', result) := HandleChunk(r, chunk);
            && (result.Ok? <==>
                  && r.manifest.Some? && r.digest.Some? && !r.digest.value.final && chunk != []
                  && (|chunk| == r.manifest.value.chunkSize || |chunk| == r.manifest.value.byteCount - r.receivedBytes)
                  && |chunk| <= r.manifest.value.chunkSize && r.receivedBytes + |chunk| <= r.manifest.value.byteCount)
            && (result.Err? ==> r' == r)
  {
  }

  // The completion record for what the receiver holds.
  function Expected(c: Config, r: Receiver): CompleteCore
    requires r.digest.Some?
  {
    CompleteCore(c.transferId, r.receivedBytes, r.receivedChunks, Encode(Sha256(r.digest.value.input)),
                 Encode(c.transcriptHash))
  }

  ghost predicate CarriesCompletion(c: Config, body: Bytes, signed: set<Bytes>, core: CompleteCore, signature: Bytes) {
    && |signature| == SIGNATURE_BYTES && Carries(body, SignedJson(CompleteJson(core), signature))
    && CanonicalBytes(CompleteJson(core)).Ok? && CanonicalBytes(CompleteJson(core)).value in signed
    && c.verifies(CanonicalBytes(CompleteJson(core)).value, signature)
  }

  lemma {:induction false} DecodedDigest(t: Text, d: Bytes)
    requires |d| == DIGEST_BYTES
    ensures Decode(t, DIGEST_BYTES) == Ok(d) <==> t == Encode(d)
  {
    hide Encode, Decode;
    DecodesExactly(t, DIGEST_BYTES, d);
  }

  lemma {:induction false} CompletionIsTaken(c: Config, r: Receiver, body: Bytes, signed: set<Bytes>, signature: Bytes)
    requires |c.transcriptHash| == DIGEST_BYTES && r.manifest.Some? && r.digest.Some?
    requires r.receivedBytes == r.manifest.value.byteCount
    requires CarriesCompletion(c, body, signed, Expected(c, r), signature)
    ensures HandleComplete(c, r, body, signed).1
         == Ok(TransferReceipt(c.transferId, r.receivedBytes, Encode(Sha256(r.digest.value.input))))
  {
    hide ParseCanonical, CompleteOf, SignedJson, CompleteJson, CanonicalBytes, Carries, Decode, Encode, Sha256, Join,
         IsDigest;
    var core := Expected(c, r);
    CarriedIsParsed(body, SignedJson(CompleteJson(core), signature));
    CompleteReadsBack(core, Sha256(r.digest.value.input), c.transcriptHash, signature);
    DecodedDigest(core.sha256, Sha256(r.digest.value.input));
    DecodedDigest(core.transcriptHash, c.transcriptHash);
  }

  lemma {:induction false} TakenWasCompletion(c: Config, r: Receiver, body: Bytes, signed: set<Bytes>)
    returns (signature: Bytes)
    requires |c.transcriptHash| == DIGEST_BYTES && HandleComplete(c, r, body, signed).1.Ok?
    ensures r.manifest.Some? && r.digest.Some? && r.receivedBytes == r.manifest.value.byteCount
    ensures CarriesCompletion(c, body, signed, Expected(c, r), signature)
  {
    hide ParseCanonical, CompleteOf, SignedJson, CompleteJson, CanonicalBytes, Carries, Decode, Encode, Sha256, Join,
         IsDigest;
    ParsedIsCarried(body);
    var v := ParseCanonical(body).value;
    var core := CompleteOf(v).value.0;
    signature := CompleteOf(v).value.1;
    CompleteExactly(v, core, signature);
    DecodedDigest(core.sha256, Sha256(r.digest.value.input));
    DecodedDigest(core.transcriptHash, c.transcriptHash);
    assert core == Expected(c, r);
  }

  /** handleComplete takes exactly the completion record, signed by the sender, of what the receiver holds: its size,
      its number of chunks, its digest, for this transfer and this handshake. */
  lemma {:induction false} CompletionTakenExactly(c: Config, r: Receiver, body: Bytes, signed: set<Bytes>)
    requires |c.transcriptHash| == DIGEST_BYTES
    ensures HandleComplete(c, r, body, signed).1.Ok? <==>
            && r.manifest.Some? && r.digest.Some? && r.receivedBytes == r.manifest.value.byteCount
            && exists signature :: CarriesCompletion(c, body, signed, Expected(c, r), signature)
  {
    hide CarriesCompletion, HandleComplete, Expected;
    if HandleComplete(c, r, body, signed).1.Ok? {
      var signature := TakenWasCompletion(c, r, body, signed);
    }
    if r.manifest.Some? && r.digest.Some? && r.receivedBytes == r.manifest.value.byteCount {
      if signature :| CarriesCompletion(c, body, signed, Expected(c, r), signature) {
        CompletionIsTaken(c, r, body, signed, signature);
      }
    }
  }
}
