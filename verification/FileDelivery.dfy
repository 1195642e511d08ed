/** The engines accept what they should: an undisturbed transfer of any file goes through. */
module FileDelivery {
  import opened Outcomes
  import opened Bytes
  import opened Utf
  import opened JsonText
  import opened Records
  import opened Base64Url
  import opened Sha256Spec
  import opened ChunkSplit
  import opened SignedObjects
  import opened Payloads
  import opened Uuids
  import opened FileEngine

  // handleChunk on one chunk after the other, up to the first that is refused.
  function ChunksHandled(r: Receiver, chunks: seq<Bytes>): (Receiver, Result<()>)
    decreases |chunks|
  {
    if chunks == [] then (r, Ok(()))
    else
      var (r', result) := HandleChunk(r, chunks[0]);
      if result.Err? then (r', result) else ChunksHandled(r', chunks[1..])
  }

  // A receiver that has taken a manifest and is hashing.
  predicate Taking(r: Receiver) {
    r.manifest.Some? && r.digest.Some? && !r.digest.value.final
  }

  /** A list of chunks is taken if and only if every length fits, and is then all the receiver has gained. */
  lemma {:induction false} ChunksTaken(r: Receiver, chunks: seq<Bytes>)
    requires Taking(r)
    ensures var (r', result) := ChunksHandled(r, chunks);
            && (result.Ok? <==> AllFit(r.receivedBytes, Lengths(chunks), r.manifest.value.byteCount,
               r.manifest.value.chunkSize))
            && (result.Ok? ==> r' == r.(digest := Some(Digest(r.digest.value.input + Join(chunks), false)),
               chunks := r.chunks + chunks,
                                        receivedBytes := r.receivedBytes + Total(Lengths(chunks)),
                                            receivedChunks := r.receivedChunks + |chunks|))
    decreases |chunks|
  {
    if chunks == [] {
      assert r.digest.value.input + Join([]) == r.digest.value.input && r.chunks + [] == r.chunks;
    } else {
      var lengths := Lengths(chunks);
      assert lengths[1..] == Lengths(chunks[1..]) && lengths[0] == |chunks[0]|;
      var (r1, result) := HandleChunk(r, chunks[0]);
      if result.Ok? {
        ChunksTaken(r1, chunks[1..]);
        assert r.chunks + [chunks[0]] + chunks[1..] == r.chunks + chunks;
        assert r.digest.value.input + chunks[0] + Join(chunks[1..]) == r.digest.value.input + Join(chunks);
      }
    }
  }

  /** Chunks pass handleChunk and reach the declared size exactly when they are cut as the sending loop cuts. */
  lemma {:induction false} OnlyTheSendersCut(r: Receiver, chunks: seq<Bytes>)
    requires Taking(r) && r.receivedBytes == 0 && r.manifest.value.chunkSize > 0
    ensures var (r', result) := ChunksHandled(r, chunks);
            var m := r.manifest.value;
            (result.Ok? && r'.receivedBytes == m.byteCount) <==> Lengths(chunks) == CutLengths(m.byteCount, m.chunkSize)
  {
    hide ChunksHandled, AllFit, CutLengths, Lengths, Total;
    ChunksTaken(r, chunks);
    ChunkSplitIsUnique(Lengths(chunks), r.manifest.value.byteCount, r.manifest.value.chunkSize);
  }

  // ----- Encodings -----

  lemma {:induction false} BodyParses(v: Json)
    requires Printable(v)
    ensures CanonicalBytes(v) == Ok(BodyOf(v)) && ParseCanonical(BodyOf(v)) == Ok(v)
  {
    hide ParseCanonical, Printable;
    CanonicalAcceptance(BodyOf(v), v);
  }

  lemma {:induction false} Base64IsPrintable(b: Bytes)
    ensures Printable(Str(Encode(b)))
  {
    hide Encode, Bits;
    BitsOfEncoded(b);
    var t := Encode(b);
    forall i | 0 <= i < |t| ensures 0x20 <= t[i] < 0x80 {
      assert LetterValue(t[i]).Some?;
    }
    AsciiIsClean(t);
  }

  lemma {:induction false} SignedIsPrintable(core: Json, signature: Bytes)
    requires Printable(core)
    ensures Printable(SignedJson(core, signature))
  {
    hide Encode, Record, SignedKeys, Printable;
    Base64IsPrintable(signature);
    RecordIsPrintable(SignedKeys(), [core, Str(Encode(signature))]);
  }

  lemma {:induction false} TextsArePrintable(id: Text)
    requires IsUuid(id)
    ensures Printable(Str(id)) && Printable(Str(FILE_OFFER)) && Printable(Str(FILE_ACCEPT))
            && Printable(Str(FILE_COMPLETE))
    ensures Printable(Str(FILE_RECEIPT)) && Printable(Str(VERIFIED))
  {
    hide TextOf;
    AsciiIsClean(id);
    TextIsWellFormed("file_offer");
    TextIsWellFormed("file_accept");
    TextIsWellFormed("file_complete");
    TextIsWellFormed("file_receipt");
    TextIsWellFormed("verified");
  }

  // A file whose offer and manifest can be written.
  predicate Presentable(c: Config) {
    ValidConfig(c) && SizesFit(ManifestOfFile(c)) && WellFormed(c.fileName) && WellFormed(c.mediaType)
  }

  // A file that the engines can announce: its name and type pass through the browser unchanged.
  predicate Announceable(c: Config) {
    Presentable(c) && Settled(c.host, c.fileName, c.mediaType)
  }

  lemma {:induction false} PayloadsArePrintable(c: Config)
    requires Presentable(c)
    ensures Printable(OfferJson(OfferOfFile(c))) && Printable(ManifestJson(ManifestOfFile(c)))
  {
    hide TextOf, Record, OfferKeys, ManifestKeys, Utf8, WellFormed, IsUuid;
    TextsArePrintable(c.transferId);
    RecordIsPrintable(OfferKeys(), [Num(1), Str(FILE_OFFER), Str(c.transferId), Str(c.fileName), Str(c.mediaType),
        Num(|c.file|)]);
    RecordIsPrintable(ManifestKeys(), [Str(c.fileName), Str(c.mediaType), Num(|c.file|), Num(c.chunkSize)]);
  }

  lemma ResultsArePrintable(c: Config, count: nat)
    requires Announceable(c) && count <= |c.file|
    ensures Printable(CompleteJson(Completion(c, count)))
    ensures Printable(ReceiptJson(TransferReceipt(c.transferId, |c.file|, Encode(Sha256(c.file)))))
  {
    hide TextOf, Record, CompleteKeys, ReceiptKeys, Utf8, Encode, Sha256, WellFormed;
    TextsArePrintable(c.transferId);
    Base64IsPrintable(Sha256(c.file));
    Base64IsPrintable(c.transcriptHash);
    RecordIsPrintable(CompleteKeys(), [Num(1), Str(FILE_COMPLETE), Str(c.transferId), Num(|c.file|), Num(count),
                                       Str(Encode(Sha256(c.file))), Str(Encode(c.transcriptHash))]);
    RecordIsPrintable(ReceiptKeys(), [Num(1), Str(FILE_RECEIPT), Str(c.transferId), Num(|c.file|),
        Str(Encode(Sha256(c.file))), Str(VERIFIED)]);
  }

  // ----- One handler after the other -----

  lemma OfferTaken(c: Config, r: Receiver, signature: Bytes, signed: set<Bytes>)
    requires Announceable(c) && |signature| == SIGNATURE_BYTES && r.offered.None? && r.manifest.None?
    requires BodyOf(OfferJson(OfferOfFile(c))) in signed && c.verifies(BodyOf(OfferJson(OfferOfFile(c))), signature)
    ensures HandleFileOffer(c, r, BodyOf(SignedJson(OfferJson(OfferOfFile(c)), signature)), signed)
         == (r.(offered := Some(ManifestOfFile(c).(chunkSize := MAX_CHUNK_SIZE)),
             offerMessage := Some(BodyOf(OfferJson(OfferOfFile(c))))), Ok(()))
  {
    hide Printable, ParseCanonical, CanonicalBytes, OfferOf, TextOf, SignedJson, OfferJson, Utf8, WellFormed;
    var core := OfferOfFile(c);
    PayloadsArePrintable(c);
    SignedIsPrintable(OfferJson(core), signature);
    BodyParses(SignedJson(OfferJson(core), signature));
    BodyParses(OfferJson(core));
    OfferReadsBack(c.host, core, signature);
  }

  /** The receiver takes the sender's signed offer if and only if its browser leaves the name and the media type as they
      are: otherwise the message whose signature it checks is not the one that was signed. */
  lemma {:induction false} OfferTakenExactly(c: Config, r: Receiver, signature: Bytes)
    requires Presentable(c) && |signature| == SIGNATURE_BYTES && r.offered.None? && r.manifest.None?
    requires c.verifies(BodyOf(OfferJson(OfferOfFile(c))), signature)
    ensures var body := BodyOf(SignedJson(OfferJson(OfferOfFile(c)), signature));
            var taken := HandleFileOffer(c, r, body, {BodyOf(OfferJson(OfferOfFile(c)))}).1;
            taken.Ok? <==> Settled(c.host, c.fileName, c.mediaType)
  {
    hide Printable, ParseCanonical, OfferOf, SignedJson, OfferJson, Utf8, WellFormed, IsUuid, Print;
    var core := OfferOfFile(c);
    var signed := {BodyOf(OfferJson(core))};
    if Settled(c.host, c.fileName, c.mediaType) {
      OfferTaken(c, r, signature, signed);
    } else {
      PayloadsArePrintable(c);
      SignedIsPrintable(OfferJson(core), signature);
      BodyParses(SignedJson(OfferJson(core), signature));
      OfferReads(c.host, core, signature);
      var changed := core.(fileName := c.host.fileName(c.fileName), mediaType := c.host.mediaType(c.mediaType));
      if Printable(OfferJson(changed)) && BodyOf(OfferJson(changed)) == BodyOf(OfferJson(core)) {
        CanonicalIsInjective(OfferJson(changed), OfferJson(core));
        OfferIsInjective(changed, core);
      }
    }
  }

  lemma ManifestTaken(c: Config, r: Receiver)
    requires Announceable(c) && r.accepted && r.manifest.None?
    requires r.offered == Some(ManifestOfFile(c).(chunkSize := MAX_CHUNK_SIZE))
    ensures HandleManifest(c, r, BodyOf(ManifestJson(ManifestOfFile(c))))
         == (r.(manifest := Some(ManifestOfFile(c)), digest := Some(Digest([], false)), state := Receiving), Ok(()))
  {
    hide Printable, ParseCanonical, BodyOf, ManifestOf, ManifestJson, Utf8, WellFormed;
    PayloadsArePrintable(c);
    BodyParses(ManifestJson(ManifestOfFile(c)));
    ManifestReadsBack(c.host, ManifestOfFile(c));
  }

  lemma {:induction false} FileTaken(c: Config, r: Receiver)
    requires Announceable(c) && r.manifest == Some(ManifestOfFile(c)) && r.digest == Some(Digest([], false))
    requires r.chunks == [] && r.receivedBytes == 0 && r.receivedChunks == 0
    ensures var chunks := Split(c.file, c.chunkSize);
            var (r', result) := ChunksHandled(r, chunks);
            result.Ok? && r' == r.(digest := Some(Digest(c.file, false)), chunks := chunks, receivedBytes := |c.file|,
                receivedChunks := |chunks|)
  {
    hide ChunksHandled, AllFit, CutLengths, Total, Join, Split, Utf8, WellFormed, TextOf;
    var chunks := Split(c.file, c.chunkSize);
    SplitIsCut(c.file, c.chunkSize);
    SplitJoins(c.file, c.chunkSize);
    ChunksTaken(r, chunks);
    ChunkSplitIsUnique(Lengths(chunks), |c.file|, c.chunkSize);
    assert AllFit(0, Lengths(chunks), |c.file|, c.chunkSize) && Total(Lengths(chunks)) == |c.file|;
    assert r.digest.value.input + Join(chunks) == c.file && r.chunks + chunks == chunks;
  }

  lemma {:induction false} NoMoreChunksThanBytes(file: Bytes, chunkSize: nat)
    requires chunkSize > 0
    ensures |Split(file, chunkSize)| <= |file|
  {
    if |file| > chunkSize { NoMoreChunksThanBytes(file[chunkSize..], chunkSize); }
  }

  // The file as it is published when it has gone through: its bytes, its name and its type.
  function WholeDelivery(c: Config): ReceivedFile {
    ReceivedFile(c.file, c.fileName, c.mediaType, |c.file|, Encode(Sha256(c.file)))
  }

  lemma CompletionTaken(c: Config, r: Receiver, signature: Bytes, signed: set<Bytes>)
    requires Announceable(c) && |signature| == SIGNATURE_BYTES
    requires r.manifest == Some(ManifestOfFile(c)) && r.digest == Some(Digest(c.file, false))
             && r.chunks == Split(c.file, c.chunkSize)
    requires r.receivedBytes == |c.file| && r.receivedChunks == |r.chunks|
    requires var message := BodyOf(CompleteJson(Completion(c, |r.chunks|)));
             message in signed && c.verifies(message, signature)
    ensures HandleComplete(c, r, BodyOf(SignedJson(CompleteJson(Completion(c, |r.chunks|)), signature)), signed).1
         == Ok(TransferReceipt(c.transferId, |c.file|, Encode(Sha256(c.file))))
    ensures HandleComplete(c, r, BodyOf(SignedJson(CompleteJson(Completion(c, |r.chunks|)), signature)),
            signed).0.awaiting
         == Some(WholeDelivery(c))
  {
    hide Printable, ParseCanonical, CanonicalBytes, CompleteOf, TextOf, SignedJson, CompleteJson, Utf8, WellFormed,
         Split, Sha256, Encode, Decode, Join;
    var core := Completion(c, |r.chunks|);
    NoMoreChunksThanBytes(c.file, c.chunkSize);
    SplitJoins(c.file, c.chunkSize);
    ResultsArePrintable(c, |r.chunks|);
    SignedIsPrintable(CompleteJson(core), signature);
    BodyParses(SignedJson(CompleteJson(core), signature));
    BodyParses(CompleteJson(core));
    CompleteReadsBack(core, Sha256(c.file), c.transcriptHash, signature);
    DecodesExactly(core.sha256, DIGEST_BYTES, Sha256(c.file));
    DecodesExactly(core.transcriptHash, DIGEST_BYTES, c.transcriptHash);
  }

  lemma ReceiptTaken(c: Config, s: Sender, count: nat)
    requires Announceable(c) && s.completionSent && s.sentCompletion == Some(Completion(c, count)) && s.receipt.Pending?
    ensures var receipt := TransferReceipt(c.transferId, |c.file|, Encode(Sha256(c.file)));
            HandleReceipt(c, s, BodyOf(ReceiptJson(receipt)))
                == (s.(receipt := Resolved(receipt), state := Completed), Ok(()))
  {
    hide Printable, ParseCanonical, BodyOf, ReceiptOf, ReceiptJson, TextOf, Utf8, WellFormed, Sha256, Encode;
    var receipt := TransferReceipt(c.transferId, |c.file|, Encode(Sha256(c.file)));
    ResultsArePrintable(c, 0);
    BodyParses(ReceiptJson(receipt));
    ReceiptReadsBack(receipt, Sha256(c.file));
  }

  /** The frames of the sender's script, handled in order by a receiver that accepts, all pass; the receiver verifies
      the file and its receipt is the one the sender takes. */
  lemma ScriptIsAccepted(c: Config, offerSignature: Bytes, completeSignature: Bytes, signed: set<Bytes>, s: Sender)
    requires Announceable(c) && c.accepted && |offerSignature| == |completeSignature| == SIGNATURE_BYTES
    requires BodyOf(OfferJson(OfferOfFile(c))) in signed && c.verifies(BodyOf(OfferJson(OfferOfFile(c))),
             offerSignature)
    requires var message := BodyOf(CompleteJson(Completion(c, |Split(c.file, c.chunkSize)|)));
             message in signed && c.verifies(message, completeSignature)
    requires s.completionSent && s.sentCompletion == Some(Completion(c, |Split(c.file, c.chunkSize)|))
             && s.receipt.Pending?
    ensures var chunks := Split(c.file, c.chunkSize);
            var r0 := NewReceiver(c);
            var (r1, offered) := HandleFileOffer(c, r0, BodyOf(SignedJson(OfferJson(OfferOfFile(c)), offerSignature)),
                signed);
            var (r2, started) := HandleManifest(c, r1, BodyOf(ManifestJson(ManifestOfFile(c))));
            var (r3, taken) := ChunksHandled(r2, chunks);
            var (r4, receipt) := HandleComplete(c, r3, BodyOf(SignedJson(CompleteJson(Completion(c, |chunks|)),
                completeSignature)), signed);
            && offered.Ok? && started.Ok? && taken.Ok? && receipt.Ok?
            && r4.awaiting == Some(ReceivedFile(c.file, c.fileName, c.mediaType, |c.file|, Encode(Sha256(c.file))))
            && HandleReceipt(c, s, BodyOf(ReceiptJson(receipt.value)))
               == (s.(receipt := Resolved(receipt.value), state := Completed), Ok(()))
  {
    assert c.chunkSize > 0;
    hide Announceable, BodyOf, HandleFileOffer, HandleManifest, ChunksHandled, HandleComplete, HandleReceipt,
         OfferJson, ManifestJson, CompleteJson, SignedJson, ReceiptJson, Completion, OfferOfFile, ManifestOfFile,
         Split, TextOf, ValidConfig;
    var r0 := NewReceiver(c);
    OfferTaken(c, r0, offerSignature, signed);
    var r1 := HandleFileOffer(c, r0, BodyOf(SignedJson(OfferJson(OfferOfFile(c)), offerSignature)), signed).0;
    ManifestTaken(c, r1);
    var r2 := HandleManifest(c, r1, BodyOf(ManifestJson(ManifestOfFile(c)))).0;
    FileTaken(c, r2);
    CompletionTaken(c, ChunksHandled(r2, Split(c.file, c.chunkSize)).0, completeSignature, signed);
    ReceiptTaken(c, s, |Split(c.file, c.chunkSize)|);
  }
}
