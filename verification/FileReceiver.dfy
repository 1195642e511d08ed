/** The receiving half of the engine object: its fields and the handlers that change them
    (frontend/src/fileTransfer.ts). */
module FileReceiver {
  import opened Outcomes
  import opened Bytes
  import opened Utf
  import opened JsonText
  import opened JsonScanner
  import opened Records
  import opened Base64Url
  import opened Sha256Spec
  import opened JsNumbers
  import opened IncrementalHash
  import opened ChunkSplit
  import opened SignedObjects
  import opened Payloads
  import opened FileEngine

  class FileTransferReceiver {
    const config: Config
    var state: State
    var accepted: bool
    var acceptanceSent: bool
    var offered: Option<TransferManifest>
    var manifest: Option<TransferManifest>
    var digest: IncrementalSha256?
    var chunks: seq<Bytes>
    var receivedBytes: nat
    var receivedChunks: nat
    var received: Option<ReceivedFile>
    var broken: bool
    var awaiting: Option<ReceivedFile>
    ghost var offerMessage: Option<Bytes>
    ghost var verified: Option<(CompleteCore, Bytes)>

    ghost function Repr(): set<object>
      reads this
    {
      {this} + if digest == null then {} else {digest, digest.state, digest.buffer}
    }

    ghost function Hashed(): Option<Digest>
      reads Repr()
    {
      if digest == null then None else Some(Digest(digest.input, digest.finalDigest.Some?))
    }

    ghost function View(): Receiver
      reads Repr()
    {
      Receiver(state, accepted, acceptanceSent, offered, manifest, Hashed(), chunks, receivedBytes, receivedChunks,
               received, broken, awaiting, offerMessage, verified)
    }

    // The hash object has seen what the counter says, and that is within the size the manifest declares.
    ghost predicate Valid()
      reads Repr()
    {
      && (manifest.Some? ==> manifest.value.byteCount <= MAX_TRANSFER_BYTES)
      && (digest != null ==>
            digest.Valid() && manifest.Some? && |digest.input| == receivedBytes <= manifest.value.byteCount)
      && (manifest.None? ==> digest == null && receivedBytes == 0)
    }

    constructor (config: Config)
      ensures Valid() && this.config == config && fresh(Repr())
      ensures View() == NewReceiver(config)
    {
      this.config := config;
      state, accepted, acceptanceSent := Idle, config.accepted, false;
      offered, manifest, digest := None, None, null;
      chunks, receivedBytes, receivedChunks, received, broken := [], 0, 0, None, false;
      awaiting, offerMessage, verified := None, None, None;
    }

    // cleanupReceiver
    method CleanupReceiver()
      requires Valid()
      modifies this
      ensures Valid() && View() == Cleaned(old(View()))
    {
      chunks, digest := [], null;
      manifest := None;
      receivedBytes, receivedChunks := 0, 0;
    }

    method OnFileOffer(body: Bytes, signed: set<Bytes>) returns (result: Result<()>)
      requires Valid()
      modifies this
      ensures Valid() && (View(), result) == HandleFileOffer(config, old(View()), body, signed)
    {
      hide ParseCanonical, OfferOf, CanonicalBytes, OfferJson, TextOf;
      if offered.Some? || manifest.Some? {
        return Err("invalid_state");
      }
      var parsed := ParseCanonicalJson(body);
      if parsed.Err? {
        return Err(parsed.code);
      }
      var offer := OfferOf(config.host, parsed.value);
      if offer.Err? {
        return Err(offer.code);
      }
      var (core, offeredManifest, signature) := offer.value;
      if core.transferId != config.transferId {
        return Err("identity_mismatch");
      }
      var message := CanonicalBytes(OfferJson(core));
      if message.Err? {
        return Err(message.code);
      }
      if !Verifies(config, signed, message.value, signature) {
        return Err("invalid_signature");
      }
      offered, offerMessage := Some(offeredManifest), Some(message.value);
      return Ok(());
    }

    method OnManifest(body: Bytes) returns (result: Result<()>)
      requires Valid()
      modifies this
      ensures Valid() && (View(), result) == HandleManifest(config, old(View()), body)
      ensures digest != null && digest != old(digest) ==> fresh(digest) && fresh(digest.state) && fresh(digest.buffer)
    {
      hide ParseCanonical, ManifestOf, IncrementalSha256.Valid;
      if !accepted {
        return Err("not_accepted");
      }
      if offered.None? {
        return Err("offer_required");
      }
      if manifest.Some? {
        return Err("invalid_state");
      }
      var parsed := ParseCanonicalJson(body);
      if parsed.Err? {
        return Err(parsed.code);
      }
      var m := ManifestOf(config.host, parsed.value);
      if m.Err? {
        return Err(m.code);
      }
      manifest := Some(m.value);
      if m.value.fileName != offered.value.fileName || m.value.mediaType != offered.value.mediaType
          || m.value.byteCount != offered.value.byteCount {
        return Err("offer_mismatch");
      }
      StartDigest();
      state := Receiving;
      return Ok(());
    }

    method StartDigest()
      modifies this`digest
      ensures digest != null && digest.Valid() && Hashed() == Some(Digest([], false))
      ensures fresh(digest) && fresh(digest.state) && fresh(digest.buffer)
    {
      hide HashBlocks, Sha256;
      digest := new IncrementalSha256();
    }

    // receiverDigest.update, which can only fail after the digest was taken.
    method Absorb(chunk: Bytes) returns (hashed: bool)
      requires Valid() && digest != null && |chunk| <= MAX_TRANSFER_BYTES
      modifies digest, digest.state, digest.buffer
      ensures digest.Valid() && hashed == !old(Hashed()).value.final
      ensures Hashed() == if hashed then Some(Digest(old(digest.input) + chunk, false)) else old(Hashed())
    {
      hide HashBlocks, Sha256;
      var updated := digest.Update(chunk);
      hashed := updated.Ok?;
    }

    method OnChunk(chunk: Bytes) returns (result: Result<()>)
      requires Valid()
      modifies Repr()
      ensures Valid() && digest == old(digest) && (View(), result) == HandleChunk(old(View()), chunk)
    {
      hide IncrementalSha256.Valid;
      if manifest.None? || digest == null {
        return Err("invalid_state");
      }
      var remaining := manifest.value.byteCount - receivedBytes;
      if remaining <= 0 || |chunk| == 0 || |chunk| > manifest.value.chunkSize || |chunk| > remaining {
        return Err("invalid_chunk");
      }
      var isFinalChunk := |chunk| == remaining;
      if !isFinalChunk && |chunk| != manifest.value.chunkSize {
        return Err("invalid_chunk");
      }
      var hashed := Absorb(chunk);
      if !hashed {
        return Err("digest_finalized");
      }
      chunks := chunks + [chunk];
      receivedBytes := receivedBytes + |chunk|;
      receivedChunks := receivedChunks + 1;
      return Ok(());
    }

    // Up to the receipt, which is then sent.
    method OnComplete(body: Bytes, signed: set<Bytes>) returns (result: Result<TransferReceipt>)
      requires Valid()
      modifies Repr()
      ensures Valid() && digest == old(digest) && (View(), result) == HandleComplete(config, old(View()), body, signed)
    {
      hide ParseCanonical, CompleteOf, CanonicalBytes, CompleteJson, TextOf, Decode, Sha256, HashBlocks, Join;
      if manifest.None? || digest == null {
        return Err("invalid_state");
      }
      var parsed := ParseCanonicalJson(body);
      if parsed.Err? {
        return Err(parsed.code);
      }
      var complete := CompleteOf(parsed.value);
      if complete.Err? {
        return Err(complete.code);
      }
      var (core, signature) := complete.value;
      if core.transferId != config.transferId || core.byteCount != manifest.value.byteCount
         || core.chunkCount != receivedChunks || receivedBytes != manifest.value.byteCount {
        return Err("digest_mismatch");
      }
      if Decode(core.transcriptHash, DIGEST_BYTES) != Ok(config.transcriptHash) {
        return Err("transcript_mismatch");
      }
      var hash := digest.Digest();
      if Decode(core.sha256, DIGEST_BYTES) != hash {
        return Err("digest_mismatch");
      }
      var message := CanonicalBytes(CompleteJson(core));
      if message.Err? {
        return Err(message.code);
      }
      if !Verifies(config, signed, message.value, signature) {
        return Err("invalid_signature");
      }
      var blob := Join(chunks);
      awaiting := Some(ReceivedFile(blob, manifest.value.fileName, manifest.value.mediaType, receivedBytes,
          core.sha256));
      verified := Some((core, blob));
      return Ok(TransferReceipt(config.transferId, receivedBytes, core.sha256));
    }

    // handleComplete after its receipt was sent.
    method OnReceiptSent()
      requires Valid() && awaiting.Some?
      modifies this
      ensures Valid() && View() == old(View()).(received := old(awaiting), chunks := [], digest := None,
              state := Completed)
    {
      received := awaiting;
      chunks, digest := [], null;
      state := Completed;
    }

    // fail, after a handler threw: the queue of messages stays rejected.
    method Fail()
      requires Valid()
      modifies this
      ensures Valid() && View() == ReceiverFailed(old(View()))
    {
      if !Ended(state) {
        CleanupReceiver();
        state := Failed;
      }
      broken := true;
    }
  }
}
