/** The JSON payloads of file-transfer frames (frontend/src/fileTransfer.ts). */
module Payloads {
  import opened Outcomes
  import opened Bytes
  import opened Utf
  import opened JsonText
  import opened Records
  import opened Base64Url
  import opened SignedObjects
  import opened ChunkSplit

  const MAX_FILE_NAME_BYTES := 255
  const MAX_MEDIA_TYPE_BYTES := 127
  const DIGEST_BYTES := 32

  // What the browser makes of a file name and a media type hint.
  datatype Host = Host(fileName: Text -> Text, mediaType: Text -> Text)

  datatype TransferManifest = TransferManifest(fileName: Text, mediaType: Text, byteCount: nat, chunkSize: nat)
  datatype OfferCore = OfferCore(transferId: Text, fileName: Text, mediaType: Text, byteCount: nat)
  datatype CompleteCore = CompleteCore(transferId: Text, byteCount: nat, chunkCount: nat, sha256: Text,
      transcriptHash: Text)
  datatype TransferReceipt = TransferReceipt(transferId: Text, byteCount: nat, sha256: Text)

  predicate KeySet(keys: seq<Text>, n: nat) {
    |keys| == n && Distinct(keys) && forall i :: 0 <= i < |keys| ==> WellFormed(keys[i]) && |keys[i]| <= 30
  }

  function ManifestKeys(
      ): (keys: seq<Text>) ensures KeySet(keys, 4) { Keys(["file_name", "media_type", "byte_count", "chunk_size"]) }
  function OfferKeys(
      ): (keys: seq<Text>) ensures KeySet(keys,
      6) { Keys(["v", "type", "transfer_id", "file_name", "media_type", "byte_count"]) }
  function CompleteKeys(
      ): (keys: seq<Text>) ensures KeySet(keys,
      7) { Keys(["v", "type", "transfer_id", "byte_count", "chunk_count", "sha256", "transcript_hash"]) }
  function ReceiptKeys(
      ): (keys: seq<Text>) ensures KeySet(keys,
      6) { Keys(["v", "type", "transfer_id", "byte_count", "sha256", "status"]) }
  function AcceptKeys(): (keys: seq<Text>) ensures KeySet(keys, 3) { Keys(["v", "type", "transfer_id"]) }
  function TerminalKeys(): (keys: seq<Text>) ensures KeySet(keys, 3) { Keys(["v", "type", "code"]) }

  const FILE_OFFER: Text := TextOf("file_offer")
  const FILE_ACCEPT: Text := TextOf("file_accept")
  const FILE_COMPLETE: Text := TextOf("file_complete")
  const FILE_RECEIPT: Text := TextOf("file_receipt")
  const VERIFIED: Text := TextOf("verified")

  // ----- What the sender writes -----

  function ManifestJson(m: TransferManifest): Json {
    Record(ManifestKeys(), [Str(m.fileName), Str(m.mediaType), Num(m.byteCount), Num(m.chunkSize)])
  }

  function OfferJson(c: OfferCore): Json {
    Record(OfferKeys(), [Num(1), Str(FILE_OFFER), Str(c.transferId), Str(c.fileName), Str(c.mediaType),
        Num(c.byteCount)])
  }

  function CompleteJson(c: CompleteCore): Json {
    Record(CompleteKeys(),
           [Num(1), Str(FILE_COMPLETE), Str(c.transferId), Num(c.byteCount), Num(c.chunkCount), Str(c.sha256),
               Str(c.transcriptHash)])
  }

  function ReceiptJson(r: TransferReceipt): Json {
    Record(ReceiptKeys(),
           [Num(1), Str(FILE_RECEIPT), Str(r.transferId), Num(r.byteCount), Str(r.sha256), Str(VERIFIED)])
  }

  function AcceptJson(transferId: Text): Json {
    Record(AcceptKeys(), [Num(1), Str(FILE_ACCEPT), Str(transferId)])
  }

  // ----- What the other side reads -----

  // record and requireExactKeys
  function ReadFields(v: Json, keys: seq<Text>, code: string): (r: Result<seq<Json>>)
    ensures r.Ok? ==> |r.value| == |keys|
  {
    FieldsOf(v, keys, code, "invalid_payload", "invalid_payload")
  }

  predicate PrintableAscii(t: Text) {
    forall i :: 0 <= i < |t| ==> 0x20 <= t[i] <= 0x7E
  }

  function ManifestFrom(host: Host, name: Json, media: Json, count: Json, chunk: Json): (r: Result<TransferManifest>)
    ensures r.Ok? ==> r.value.byteCount <= MAX_TRANSFER_BYTES && 1 <= r.value.chunkSize <= MAX_CHUNK_SIZE
  {
    if !name.Str? || |Utf8(name.text)| > MAX_FILE_NAME_BYTES then Err("invalid_manifest")
    else if !media.Str? || |Utf8(media.text)| > MAX_MEDIA_TYPE_BYTES
        || !PrintableAscii(media.text) then Err("invalid_manifest")
    else if !count.Num? || count.number < 0 then Err("invalid_manifest")
    else if count.number > MAX_TRANSFER_BYTES then Err("file_too_large")
    else if !chunk.Num? || chunk.number < 1 || chunk.number > MAX_CHUNK_SIZE then Err("invalid_manifest")
    else Ok(TransferManifest(host.fileName(name.text), host.mediaType(media.text), count.number, chunk.number))
  }

  function ManifestOf(host: Host, v: Json): (r: Result<TransferManifest>)
    ensures r.Ok? ==> r.value.byteCount <= MAX_TRANSFER_BYTES && 1 <= r.value.chunkSize <= MAX_CHUNK_SIZE
  {
    match ReadFields(v, ManifestKeys(), "invalid_manifest")
    case Err(c) => Err(c)
    case Ok(f) => ManifestFrom(host, f[0], f[1], f[2], f[3])
  }

  // parseFileOffer. The manifest it builds goes through the canonical encoding and back, which changes nothing.
  function OfferOf(host: Host, v: Json): Result<(OfferCore, TransferManifest, Bytes)> {
    match ReadFields(v, SignedKeys(), "invalid_file_offer")
    case Err(c) => Err(c)
    case Ok(w) =>
      match ReadFields(w[0], OfferKeys(), "invalid_file_offer")
      case Err(c) => Err(c)
      case Ok(f) =>
        if f[0] != Num(1) || f[1] != Str(FILE_OFFER) || !f[2].Str? then Err("invalid_file_offer")
        else
          match ManifestFrom(host, f[3], f[4], f[5], Num(MAX_CHUNK_SIZE))
          case Err(c) => Err(c)
          case Ok(m) =>
            match SignatureOf(w[1])
            case Err(c) => Err(c)
            case Ok(signature) => Ok((OfferCore(f[2].text, m.fileName, m.mediaType, m.byteCount), m, signature))
  }

  // parseComplete
  function CompleteOf(v: Json): Result<(CompleteCore, Bytes)> {
    match ReadFields(v, SignedKeys(), "invalid_complete")
    case Err(c) => Err(c)
    case Ok(w) =>
      match ReadFields(w[0], CompleteKeys(), "invalid_complete")
      case Err(c) => Err(c)
      case Ok(f) =>
        if f[0] != Num(1) || f[1] != Str(FILE_COMPLETE) || !f[2].Str? then Err("invalid_complete")
        else if !f[3].Num? || f[3].number < 0 || !f[4].Num? || f[4].number < 0 then Err("invalid_manifest")
        else if !f[5].Str? || !f[6].Str? then Err("invalid_complete")
        else if Decode(f[5].text, DIGEST_BYTES).Err? || Decode(f[6].text, DIGEST_BYTES).Err?
            then Err("invalid_base64url")
        else if |Decode(f[5].text, DIGEST_BYTES).value| != DIGEST_BYTES
            || |Decode(f[6].text, DIGEST_BYTES).value| != DIGEST_BYTES then
          Err("invalid_complete")
        else
          match SignatureOf(w[1])
          case Err(c) => Err(c)
          case Ok(signature) => Ok((CompleteCore(f[2].text, f[3].number, f[4].number, f[5].text, f[6].text), signature))
  }

  // parseReceipt
  function ReceiptOf(v: Json): Result<TransferReceipt> {
    match ReadFields(v, ReceiptKeys(), "invalid_receipt")
    case Err(c) => Err(c)
    case Ok(f) =>
      if f[0] != Num(1) || f[1] != Str(FILE_RECEIPT) || f[5] != Str(VERIFIED) || !f[2].Str? || !f[4].Str? then
        Err("invalid_receipt")
      else if !f[3].Num? || f[3].number < 0 then Err("invalid_manifest")
      else
        match Decode(f[4].text, DIGEST_BYTES)
        case Err(c) => Err(c)
        case Ok(digest) => if |digest| != DIGEST_BYTES then Err("invalid_receipt")
            else Ok(TransferReceipt(f[2].text, f[3].number, f[4].text))
  }

  // The checks of handleAccept on its payload.
  function AcceptOf(v: Json, transferId: Text): Result<()> {
    match ReadFields(v, AcceptKeys(), "invalid_accept")
    case Err(c) => Err(c)
    case Ok(f) =>
      if f[0] != Num(1) || f[1] != Str(FILE_ACCEPT) || f[2] != Str(transferId) then Err("invalid_accept") else Ok(())
  }

  predicate PlainCode(t: Text) {
    1 <= |t| <= 64 && forall i :: 0 <= i < |t| ==> 0x61 <= t[i] <= 0x7A || 0x30 <= t[i] <= 0x39 || t[i] == 0x5F
  }

  // The checks of handleTerminalPayload; the result is the code the peer gave.
  function TerminalOf(v: Json, kind: Text, remote: string): Result<Text> {
    match ReadFields(v, TerminalKeys(), remote)
    case Err(c) => Err(c)
    case Ok(f) =>
      if f[0] != Num(1) || f[1] != Str(kind) || !f[2].Str? || !PlainCode(f[2].text) then Err("invalid_payload")
          else Ok(f[2].text)
  }

  // ----- Reading undoes writing -----

  lemma ReadsBack(keys: seq<Text>, values: seq<Json>, code: string)
    requires |keys| == |values| && Distinct(keys)
    ensures ReadFields(Record(keys, values), keys, code) == Ok(values)
  {
    ExactFields(Record(keys, values), keys, values, code, "invalid_payload", "invalid_payload");
  }

  /** The completion record the sender writes is the one the receiver reads. */
  lemma {:induction false} CompleteReadsBack(c: CompleteCore, digest: Bytes, transcript: Bytes, signature: Bytes)
    requires |signature| == SIGNATURE_BYTES && |digest| == |transcript| == DIGEST_BYTES
    requires c.sha256 == Encode(digest) && c.transcriptHash == Encode(transcript)
    ensures CompleteOf(SignedJson(CompleteJson(c), signature)) == Ok((c, signature))
  {
    hide TextOf, ReadFields, Record, Encode, Decode, SignatureOf, CompleteKeys, SignedKeys;
    var fields := [Num(1), Str(FILE_COMPLETE), Str(c.transferId), Num(c.byteCount), Num(c.chunkCount), Str(c.sha256),
        Str(c.transcriptHash)];
    ReadsBack(CompleteKeys(), fields, "invalid_complete");
    ReadsBack(SignedKeys(), [CompleteJson(c), Str(Encode(signature))], "invalid_complete");
    SignatureBack(signature);
    DecodesExactly(c.sha256, DIGEST_BYTES, digest);
    DecodesExactly(c.transcriptHash, DIGEST_BYTES, transcript);
  }

  lemma {:induction false} ReceiptReadsBack(r: TransferReceipt, digest: Bytes)
    requires |digest| == DIGEST_BYTES && r.sha256 == Encode(digest)
    ensures ReceiptOf(ReceiptJson(r)) == Ok(r)
  {
    hide TextOf, ReadFields, Record, Encode, Decode, ReceiptKeys;
    ReadsBack(ReceiptKeys(), [Num(1), Str(FILE_RECEIPT), Str(r.transferId), Num(r.byteCount), Str(r.sha256),
        Str(VERIFIED)], "invalid_receipt");
    DecodesExactly(r.sha256, DIGEST_BYTES, digest);
  }

  lemma AcceptReadsBack(transferId: Text)
    ensures AcceptOf(AcceptJson(transferId), transferId) == Ok(())
  {
    hide TextOf, ReadFields, Record, AcceptKeys;
    ReadsBack(AcceptKeys(), [Num(1), Str(FILE_ACCEPT), Str(transferId)], "invalid_accept");
  }

  // The host leaves the name and the media type as they are.
  predicate Settled(host: Host, fileName: Text, mediaType: Text) {
    host.fileName(fileName) == fileName && host.mediaType(mediaType) == mediaType
  }

  predicate SizesFit(m: TransferManifest) {
    && |Utf8(m.fileName)| <= MAX_FILE_NAME_BYTES
    && |Utf8(m.mediaType)| <= MAX_MEDIA_TYPE_BYTES && PrintableAscii(m.mediaType)
    && m.byteCount <= MAX_TRANSFER_BYTES && 1 <= m.chunkSize <= MAX_CHUNK_SIZE
  }

  predicate PlainManifest(host: Host, m: TransferManifest) {
    Settled(host, m.fileName, m.mediaType) && SizesFit(m)
  }

  lemma ManifestReadsBack(host: Host, m: TransferManifest)
    requires PlainManifest(host, m)
    ensures ManifestOf(host, ManifestJson(m)) == Ok(m)
  {
    hide TextOf, ReadFields, Record, ManifestKeys, Utf8;
    ReadsBack(ManifestKeys(), [Str(m.fileName), Str(m.mediaType), Num(m.byteCount), Num(m.chunkSize)],
        "invalid_manifest");
  }

  // A well-sized offer is read with the name and the media type the host makes of them.
  lemma {:induction false} OfferReads(host: Host, c: OfferCore, signature: Bytes)
    requires |signature| == SIGNATURE_BYTES && SizesFit(TransferManifest(c.fileName, c.mediaType, c.byteCount,
             MAX_CHUNK_SIZE))
    ensures var name, media := host.fileName(c.fileName), host.mediaType(c.mediaType);
            OfferOf(host, SignedJson(OfferJson(c), signature))
            == Ok((c.(fileName := name, mediaType := media), TransferManifest(name, media, c.byteCount,
                MAX_CHUNK_SIZE), signature))
  {
    hide TextOf, ReadFields, Record, OfferKeys, SignedKeys, Utf8, SignatureOf, Encode;
    var fields := [Num(1), Str(FILE_OFFER), Str(c.transferId), Str(c.fileName), Str(c.mediaType), Num(c.byteCount)];
    ReadsBack(OfferKeys(), fields, "invalid_file_offer");
    ReadsBack(SignedKeys(), [OfferJson(c), Str(Encode(signature))], "invalid_file_offer");
    SignatureBack(signature);
  }

  lemma {:induction false} OfferReadsBack(host: Host, c: OfferCore, signature: Bytes)
    requires |signature| == SIGNATURE_BYTES
    requires PlainManifest(host, TransferManifest(c.fileName, c.mediaType, c.byteCount, MAX_CHUNK_SIZE))
    ensures OfferOf(host, SignedJson(OfferJson(c), signature))
         == Ok((c, TransferManifest(c.fileName, c.mediaType, c.byteCount, MAX_CHUNK_SIZE), signature))
  {
    hide SizesFit, OfferOf, SignedJson, OfferJson;
    OfferReads(host, c, signature);
  }

  lemma {:induction false} OfferIsInjective(c: OfferCore, d: OfferCore)
    requires OfferJson(c) == OfferJson(d)
    ensures c == d
  {
    hide TextOf, ReadFields, Record, OfferKeys;
    var f := [Num(1), Str(FILE_OFFER), Str(c.transferId), Str(c.fileName), Str(c.mediaType), Num(c.byteCount)];
    var g := [Num(1), Str(FILE_OFFER), Str(d.transferId), Str(d.fileName), Str(d.mediaType), Num(d.byteCount)];
    ReadsBack(OfferKeys(), f, "");
    ReadsBack(OfferKeys(), g, "");
    assert f == g && f[2] == g[2] && f[3] == g[3] && f[4] == g[4] && f[5] == g[5];
  }

  // ----- What is accepted -----

  lemma {:induction false} ReadsExactly(v: Json, keys: seq<Text>, code: string)
    requires Distinct(keys)
    ensures ReadFields(v, keys, code).Ok? ==> v == Record(keys, ReadFields(v, keys, code).value)
  {
    hide Record;
    match ReadFields(v, keys, code)
    case Err(_) =>
    case Ok(f) => ExactFields(v, keys, f, code, "invalid_payload", "invalid_payload");
  }

  ghost predicate IsDigest(t: Text) { exists d :: |d| == DIGEST_BYTES && t == Encode(d) }

  lemma {:induction false} DigestIsDecoded(t: Text)
    ensures IsDigest(t) <==> Decode(t, DIGEST_BYTES).Ok? && |Decode(t, DIGEST_BYTES).value| == DIGEST_BYTES
  {
    hide Encode, Decode;
    var r := Decode(t, DIGEST_BYTES);
    if r.Ok? {
      DecodesExactly(t, DIGEST_BYTES, r.value);
    }
    if IsDigest(t) {
      var d :| |d| == DIGEST_BYTES && t == Encode(d);
      DecodesExactly(t, DIGEST_BYTES, d);
    }
  }

  /** handleAccept takes the acceptance of this transfer and nothing else. */
  lemma {:induction false} AcceptExactly(v: Json, transferId: Text)
    ensures AcceptOf(v, transferId).Ok? <==>
            v == Record(Keys(["v", "type", "transfer_id"]), [Num(1), Str(TextOf("file_accept")), Str(transferId)])
  {
    hide TextOf, ReadFields, Record;
    AcceptReadsBack(transferId);
    assert AcceptKeys() == Keys(["v", "type", "transfer_id"]);
    ReadsExactly(v, AcceptKeys(), "invalid_accept");
    if AcceptOf(v, transferId).Ok? {
      var f := ReadFields(v, AcceptKeys(), "invalid_accept").value;
      assert f == [f[0], f[1], f[2]];
    }
  }

  /** parseReceipt takes exactly the receipts that were written, with any digest of the right length. */
  lemma {:induction false} ReceiptExactly(v: Json, r: TransferReceipt)
    ensures ReceiptOf(v) == Ok(r) <==> v == ReceiptJson(r) && IsDigest(r.sha256)
  {
    hide TextOf, ReadFields, Record, Encode, Decode, ReceiptKeys;
    if v == ReceiptJson(r) && IsDigest(r.sha256) {
      var d :| |d| == DIGEST_BYTES && r.sha256 == Encode(d);
      ReceiptReadsBack(r, d);
    }
    ReadsExactly(v, ReceiptKeys(), "invalid_receipt");
    if ReceiptOf(v) == Ok(r) {
      var f := ReadFields(v, ReceiptKeys(), "invalid_receipt").value;
      assert f == [f[0], f[1], f[2], f[3], f[4], f[5]];
      DigestIsDecoded(r.sha256);
    }
  }

  lemma {:induction false} SignatureExactly(v: Json, signature: Bytes)
    ensures SignatureOf(v) == Ok(signature) <==> |signature| == SIGNATURE_BYTES && v == Str(Encode(signature))
  {
    hide Encode, Decode;
    if v.Str? { DecodesExactly(v.text, SIGNATURE_BYTES, signature); }
  }

  lemma {:induction false} SignedExactly(v: Json, code: string, f: seq<Json>, signature: Bytes)
    requires ReadFields(v, SignedKeys(), code) == Ok(f) && SignatureOf(f[1]) == Ok(signature)
    ensures |signature| == SIGNATURE_BYTES && v == SignedJson(f[0], signature)
  {
    hide ReadFields, Record, Encode, SignatureOf, SignedKeys;
    ReadsExactly(v, SignedKeys(), code);
    SignatureExactly(f[1], signature);
    assert f == [f[0], f[1]];
  }

  /** parseComplete takes exactly the signed completion records that were written. */
  lemma {:induction false} CompleteExactly(v: Json, c: CompleteCore, signature: Bytes)
    ensures CompleteOf(v) == Ok((c, signature)) <==>
            && |signature| == SIGNATURE_BYTES && v == SignedJson(CompleteJson(c), signature)
            && IsDigest(c.sha256) && IsDigest(c.transcriptHash)
  {
    hide TextOf, ReadFields, Record, Encode, Decode, CompleteKeys, SignedKeys, SignatureOf, SignedJson;
    if |signature| == SIGNATURE_BYTES && v == SignedJson(CompleteJson(c), signature)
       && IsDigest(c.sha256) && IsDigest(c.transcriptHash) {
      var d :| |d| == DIGEST_BYTES && c.sha256 == Encode(d);
      var t :| |t| == DIGEST_BYTES && c.transcriptHash == Encode(t);
      CompleteReadsBack(c, d, t, signature);
    }
    if CompleteOf(v) == Ok((c, signature)) {
      var w := ReadFields(v, SignedKeys(), "invalid_complete").value;
      SignedExactly(v, "invalid_complete", w, signature);
      ReadsExactly(w[0], CompleteKeys(), "invalid_complete");
      var f := ReadFields(w[0], CompleteKeys(), "invalid_complete").value;
      assert f == [f[0], f[1], f[2], f[3], f[4], f[5], f[6]];
      DigestIsDecoded(c.sha256);
      DigestIsDecoded(c.transcriptHash);
    }
  }

  /** parseManifest takes exactly the manifests that were written for a name and a media type of a fitting size, and
      gives the name and the type the browser makes of them. */
  lemma {:induction false} ManifestExactly(host: Host, v: Json)
    ensures ManifestOf(host, v).Ok? <==> exists m :: SizesFit(m) && v == ManifestJson(m)
    ensures forall m :: SizesFit(m) && v == ManifestJson(m) ==>
              ManifestOf(host, v) == Ok(m.(fileName := host.fileName(m.fileName),
                  mediaType := host.mediaType(m.mediaType)))
  {
    hide TextOf, ReadFields, Record, ManifestKeys, Utf8, PrintableAscii;
    forall m | SizesFit(m) && v == ManifestJson(m)
      ensures ManifestOf(host, v)
           == Ok(m.(fileName := host.fileName(m.fileName), mediaType := host.mediaType(m.mediaType)))
    {
      ReadsBack(ManifestKeys(), [Str(m.fileName), Str(m.mediaType), Num(m.byteCount), Num(m.chunkSize)],
                "invalid_manifest");
    }
    if ManifestOf(host, v).Ok? {
      ReadsExactly(v, ManifestKeys(), "invalid_manifest");
      var f := ReadFields(v, ManifestKeys(), "invalid_manifest").value;
      assert f == [f[0], f[1], f[2], f[3]];
      assert SizesFit(TransferManifest(f[0].text, f[1].text, f[2].number, f[3].number));
    }
  }

  ghost predicate IsSignedOffer(v: Json, c: OfferCore, signature: Bytes) {
    && |signature| == SIGNATURE_BYTES && v == SignedJson(OfferJson(c), signature)
    && SizesFit(TransferManifest(c.fileName, c.mediaType, c.byteCount, MAX_CHUNK_SIZE))
  }

  lemma {:induction false} OfferWasSigned(host: Host, v: Json) returns (c: OfferCore)
    requires OfferOf(host, v).Ok?
    ensures IsSignedOffer(v, c, OfferOf(host, v).value.2)
  {
    hide TextOf, ReadFields, Record, OfferKeys, SignedKeys, Utf8, SignatureOf, SignedJson, PrintableAscii;
    var w := ReadFields(v, SignedKeys(), "invalid_file_offer").value;
    SignedExactly(v, "invalid_file_offer", w, OfferOf(host, v).value.2);
    ReadsExactly(w[0], OfferKeys(), "invalid_file_offer");
    var f := ReadFields(w[0], OfferKeys(), "invalid_file_offer").value;
    assert f == [f[0], f[1], f[2], f[3], f[4], f[5]];
    c := OfferCore(f[2].text, f[3].text, f[4].text, f[5].number);
    assert w[0] == OfferJson(c);
  }

  /** parseFileOffer takes exactly the signed offers of a name and a media type of a fitting size. */
  lemma {:induction false} OfferExactly(host: Host, v: Json)
    ensures OfferOf(host, v).Ok? <==> exists c, signature :: IsSignedOffer(v, c, signature)
  {
    hide OfferOf, SignedJson, OfferJson, SizesFit;
    if c, signature :| IsSignedOffer(v, c, signature) {
      OfferReads(host, c, signature);
    }
    if OfferOf(host, v).Ok? {
      var c := OfferWasSigned(host, v);
    }
  }

  // The payload of a cancel or error frame.
  function TerminalJson(kind: Text, code: Text): Json {
    Record(TerminalKeys(), [Num(1), Str(kind), Str(code)])
  }

  /** handleTerminalPayload takes exactly the payloads that sendTerminalFrame writes for a code. */
  lemma {:induction false} TerminalExactly(v: Json, kind: Text, remote: string, code: Text)
    ensures TerminalOf(v, kind, remote) == Ok(code) <==>
            && 1 <= |code| <= 64 && v == TerminalJson(kind, code)
            && forall i :: 0 <= i < |code| ==>
                 'a' as int <= code[i] <= 'z' as int || '0' as int <= code[i] <= '9' as int || code[i] == '_' as int
  {
    hide TextOf, ReadFields, Record, TerminalKeys;
    ReadsBack(TerminalKeys(), [Num(1), Str(kind), Str(code)], remote);
    ReadsExactly(v, TerminalKeys(), remote);
    if TerminalOf(v, kind, remote) == Ok(code) {
      var f := ReadFields(v, TerminalKeys(), remote).value;
      assert f == [f[0], f[1], f[2]];
    }
  }
}
