# A model of the secure file transfer

This project models the parts of the repository that have to be right for a file to arrive unchanged, and for the server's
limits to hold, and proves what they promise. It has five parts.

* **Frames and the file engine.** Two ordered frame streams exchange encrypted frames over a network that may drop,
  repeat, reorder, truncate and invent whatever it likes (`FrameHeader.dfy`, `FrameStream.dfy`). On top of them run the
  sending and the receiving engine (`ChunkSplit.dfy`, `Payloads.dfy`, `FileEngine.dfy`, `FileReceiver.dfy`); what every run
  of the two keeps is in `FileSafety.dfy`. That the engines also accept what they should is in `FileDelivery.dfy`, handler
  by handler, and in `FileRun.dfy`, which exhibits a run over the encrypted channel that delivers any announceable file
  (`PayloadSizes.dfy`: every payload fits into a frame). `FileChecks.dfy` says of each handler exactly which messages it
  takes, `FileSending.dfy` when sendFile goes on, `FileStops.dfy` how transfers are cancelled, fail and end. The cipher
  is ideal: a log of what was sealed under which nonce and header.
* **Codecs and the handshake.** UTF-8 and canonical JSON with its strict scanner (`Json.dfy`, `JsonScanner.dfy`), whose
  printer writes the shortest text (`JsonShortest.dfy`) and whose strings and numbers follow the grammar
  (`JsonGrammar.dfy`), base64url (`Base64Url.dfy`), UUIDs (`Uuid.dfy`), objects with exact fields and signed objects
  (`Records.dfy`), DER signatures (`Der.dfy`), and the signed offer/answer handshake of two sessions with the channel that
  uses its keys (`Handshake.dfy`, `HandshakeChecks.dfy`). Signatures are ideal logs; the hash is SHA-256 itself, so what
  depends on it is stated as "or these two byte strings are a collision".
* **Incremental SHA-256** (`Sha256.dfy`; its functions bit by bit and its constants as roots of primes in
  `Sha256Bits.dfy`): FIPS 180-4, JavaScript's number and bit operations, and the buffering object.
* **The presence and signaling manager with the transfer lifecycle** (`Presence.dfy`, `Signaling.dfy`, `Transfers.dfy`),
  as state machines over their lock-held sections.
* **The fixed-window rate limiter in two implementations** (`RateLimit.dfy`).

Objects whose fields the source updates are classes; each method is proved against a pure step function, and the
properties of whole runs are lemmas about sequences of those steps. `dafny verify dfyconfig.toml` checks everything.

Findings that are not what a reader of the code would expect:

* A header can be parsed and then not be encodable again: parsing takes any 16 identifier bytes, encoding insists on an
  RFC 4122 version and variant. `FrameHeader.HeaderReencodes` gives the exact condition, `NilIdentifierDoesNotReencode` a case.
* The rate limiter admits at most 2L - 1 uses in any interval of one window, not 2L, and only L if the window is a single
  tick; both bounds are attained, for every limit and window (`SlidingIntervalBound`, `SlidingIntervalBoundIsMet`).
* The signaling caps hold in every run if and only if the retention is at least the transfer lifetime
  (`SignalingRuns.RetentionIsExact`); with a shorter retention `ReplayWhenForgottenEarly` is a run that forwards a
  single-use message twice.
* The keys the two handshake sessions hold at the end need not match. The recipient answers every genuine offer, also one
  it has answered before, and keeps the keys of the last; if an offer is replayed and the sender accepts the first answer,
  the sessions hold different keys (`ReplayedOfferDiverges`, with a concrete case in `HeldMaterialCanDiverge`).
  `HeldMaterialAgreement` gives the exact condition: the keys match if and only if the last answer the sender accepted
  belongs to the last reply the recipient derived keys for, up to a SHA-256 collision of the two transcripts. That every
  accepted answer was made for the sender's exact offer holds in every run (`HandshakeAgreement`).
* A file name that the receiver's browser sanitises again, to something else, makes the receiver refuse the genuine
  signed offer, and nothing else does (`OfferTakenExactly`).
* createFrame checks the order of frames against the last one whose encryption has ended. The order holds if calls do not
  overlap (`SealedOrderLanguage`); two that do both pass (`OverlappingCallsBothPass`). The receiver's own test does not
  depend on that (`FrameOrderLanguage`).
* Disconnecting a whole account leaves the outbound queues of its sockets behind for good (`ForgottenQueuesStay`). It is
  the only way a queue outlives its socket and the clean-up of a pruning pass (`QueuesAreAccountedFor`).
* An engine that was closed can start receiving again. A message that is waiting in the receive queue when the receiver
  ends is still handled, and a manifest that passes its checks sets the state back to receiving
  (`ClosedReceiverCanRevive`); no other message does (`ReceiverRevivesExactly`), and a sender never leaves its end
  (`SenderEndsForGood`).

## Model

| member | source | states |
|---|---|---|
| FrameChannel.PrefixIntegrity | frontend/src/transferProtocol.ts:1763-1895 | with an ideal cipher and any network, the frames receiveFrame returned are in order exactly those the peer sealed under counters 0, 1, 2, ...; none unless the first is the matching confirmation |
| FrameChannel.FrameOrderLanguage | frontend/src/transferProtocol.ts:1825-1895 | in every run the delivered types spell a word of confirm, file_offer?, (manifest, chunk*, complete?)?, (cancel or error)*, and of confirm, accept?, receipt?, (cancel or error)* the other way |
| FrameChannel.OrderIsLanguage | frontend/src/transferProtocol.ts:1692-1723 | the orders that sequenceTypeAllowed and the direction test let through are exactly those two languages (both directions) |
| FrameChannel.NoncesAreFresh | frontend/src/transferProtocol.ts:1646-1680 | over every interleaving of createFrame calls and failed encryptions neither endpoint uses a nonce twice, and at most 2^64 counters are reserved |
| FrameChannel.NothingBeforeConfirmation | frontend/src/transferProtocol.ts:1763-1823 | in every run an endpoint that has sealed anything but a confirmation sealed the confirmation of the handshake first, under counter 0, and so did its peer |
| FrameChannel.RunKeepsInv | frontend/src/transferProtocol.ts:1763-1895 | every step at either endpoint, including a receiveFrame interrupted by others while it decrypts, keeps the channel invariant |
| FrameChannel.EndpointStep | frontend/src/transferProtocol.ts:1763-1895 | one step of one endpoint keeps counters, receiving state and both prefix relations |
| FrameChannel.FrameGoesThrough | frontend/src/transferProtocol.ts:1763-1895 | a frame that createFrame makes and the network delivers next is returned by the peer with its type and plaintext |
| FrameChannel.ExpectedIsReceived | frontend/src/transferProtocol.ts:1825-1895 | receiveFrame returns the frame when counter, type, identity and confirmation are the expected ones |
| FrameChannel.ReceivesExactly | frontend/src/transferProtocol.ts:1825-1895 | receiveFrame returns a frame if and only if its bytes are the header of the next counter, from the peer, for this transfer, of an allowed type, and the ciphertext opens to a plaintext of that length |
| FrameChannel.ForeignFramesAreRefused | frontend/src/transferProtocol.ts:1831-1840 | a frame of another transfer or of the own direction is refused as such, whatever decryption would give |
| FrameChannel.SealedOrderLanguage | frontend/src/transferProtocol.ts:1763-1823 | in every run in which an endpoint starts no createFrame call while another is encrypting, the types it seals spell a word of its language |
| FrameChannel.OverlappingCallsBothPass | frontend/src/transferProtocol.ts:1763-1823 | without that, two offers can be under way at once, which is no word of it |
| FrameChannel.WireFrameSplits | frontend/src/transferProtocol.ts:1582-1599 | splitting a frame gives back the header and ciphertext it was put together from |
| FrameStream.Admit | frontend/src/transferProtocol.ts:1862-1889 | admitting a decrypted frame leaves the sending half alone, never moves the counter back and changes the rest only with it |
| FrameStream.Received | frontend/src/transferProtocol.ts:1825-1895 | the same of a whole receiveFrame call, refused or not |
| FrameStream.OpenStream | frontend/src/transferProtocol.ts:1738-1749 | a stream exists exactly for a valid identifier and a 32-byte confirmation, and starts at counter zero, unconfirmed |
| FrameStream.FrameStreamGuard.constructor | frontend/src/transferProtocol.ts:1738-1749 | the fields of a new stream |
| FrameStream.FrameStreamGuard.ReserveFrame | frontend/src/transferProtocol.ts:1763-1811 | which createFrame calls are refused, with which code and no change; otherwise the header and the one counter reserved |
| FrameStream.FrameStreamGuard.FrameCreated | frontend/src/transferProtocol.ts:1818-1823 | the state after an encryption ended |
| FrameStream.FrameStreamGuard.ReceiveFrame | frontend/src/transferProtocol.ts:1825-1895 | result and new state of receiveFrame for every input and every outcome of the decryption |
| FrameHeader.HeaderRoundTrip | frontend/src/transferProtocol.ts:1480-1528 | parsing inverts encoding |
| FrameHeader.HeaderReencodes | frontend/src/transferProtocol.ts:1480-1528 | re-encoding a parsed header gives back the same bytes, and succeeds exactly when the identifier has a valid version and variant |
| FrameHeader.NilIdentifierDoesNotReencode | frontend/src/transferProtocol.ts:1480-1528 | the all-zero identifier parses and cannot be encoded |
| FrameHeader.UuidTextRoundTrip | frontend/src/transferProtocol.ts:1429-1447 | bytesToUuid inverts uuidToBytes |
| FrameHeader.UuidBytesRoundTrip | frontend/src/transferProtocol.ts:1429-1447 | uuidToBytes inverts bytesToUuid |
| FrameHeader.NonceIsInjective | frontend/src/transferProtocol.ts:1530-1540 | under one prefix equal nonces come from equal counters |
| FrameHeader.NonceDecodes | frontend/src/transferProtocol.ts:1530-1540 | a nonce is the prefix and then the counter, most significant byte first; it exists exactly for a 4-byte prefix and a 64-bit counter |
| FileSafety.ReceivedFileIsSentFile | frontend/src/fileTransfer.ts:902-1342 | in every run of one sendFile call against any network and any users, a received file is byte for byte the file sent, with its length and digest, under the name and the media type the browser makes of those sent |
| FileSafety.ReceiptMeansVerified | frontend/src/fileTransfer.ts:902-1342 | if sendFile returns a receipt, it is for this file, and the receiver passed every check of handleComplete (length, chunk count, transcript, digest, signature) on exactly the file's bytes |
| FileSafety.NothingIsSentBeforeAcceptance | frontend/src/fileTransfer.ts:941-1000 | in every run nothing of the file is sent, not even its manifest, before the receiver has accepted it and found its offer signed by the sender |
| FileSafety.ChunksNeedOfferAndAcceptance | frontend/src/fileTransfer.ts:1155-1277 | no chunk is held without an acceptance and a genuine signed offer, and never more bytes than the manifest declares, at most 250 MiB |
| FileSafety.DeliveredIsScript | frontend/src/fileTransfer.ts:902-1000 | what the receiver has, up to a frame that is not a cancellation, is the sender's confirmation and the first frames of offer, manifest, chunks, completion |
| FileSafety.SenderStepOk | frontend/src/fileTransfer.ts:862-1050 | everything that can happen at the sender keeps its frames a beginning of that script and its receipt genuine |
| FileSafety.ReceiverStepOk | frontend/src/fileTransfer.ts:1002-1317 | everything that can happen at the receiver keeps its buffer equal to the delivered chunks, hashed and counted |
| FileSafety.RunOk | frontend/src/fileTransfer.ts:701-1463 | both invariants hold in every reachable state |
| FileSafety.CheckedIsCompletion | frontend/src/fileTransfer.ts:1262-1290 | a completion record that passes the checks against the file's chunks is the sender's own |
| FileRun.FileGoesThrough | frontend/src/fileTransfer.ts:862-1342 | for every announceable file of any size and chunk size there is a run of both engines over the encrypted channel in which the receiver ends with exactly that file, its name, type, size and digest, and sendFile returns its receipt |
| FileRun.SenderDelivers | frontend/src/fileTransfer.ts:1116-1153 | a frame the sender made, once encrypted and delivered, is handled by the receiver, and both directions stay in step |
| FileRun.ReceiverDelivers | frontend/src/fileTransfer.ts:1116-1153 | the same of a frame the receiver made |
| FileRun.SendingAll | frontend/src/fileTransfer.ts:965-979 | from the manifest on, the loop brings every chunk over, and the receiver then holds the whole file, hashed and counted |
| FileRun.OfferFits | frontend/src/fileTransfer.ts:941-955 | the signed offer fits into a frame |
| FileRun.CompleteFits | frontend/src/fileTransfer.ts:980-999 | the signed completion record fits into a frame |
| FileStops.ReceiverIsStopped | frontend/src/fileTransfer.ts:1344-1362 | a cancel or error frame that reaches a receiver that has not ended fails it and drops everything it had of the file; the receive queue breaks exactly if the payload is malformed |
| FileStops.SenderIsStopped | frontend/src/fileTransfer.ts:1344-1414 | the same of the sender, whose pending waits are rejected |
| FileStops.RefusedMessageFails | frontend/src/fileTransfer.ts:1045-1049 | a message that receiveFrame refuses fails a receiver that has not ended and drops the file, and no later message changes it |
| FileStops.StopIsRead | frontend/src/fileTransfer.ts:1344-1376 | the payload sendTerminalFrame writes is read back with its code |
| FileStops.EndedHoldsNothing | frontend/src/fileTransfer.ts:1386-1439 | in every run an engine that has ended holds no chunk and no hash, and leaves no sendFile call waiting |
| FileStops.StopsAreFinal | frontend/src/fileTransfer.ts:1002-1050 | in every run an engine to which a cancel or error frame was ever delivered, or whose receive queue broke, has ended |
| FileStops.StopReachesReceiver | frontend/src/fileTransfer.ts:1344-1384 | from any state in which both engines work, the sender's cancellation, encrypted and delivered, fails the receiver and drops what it had |
| FileStops.SenderEndsForGood | frontend/src/fileTransfer.ts:862-1050 | a sender that has ended has ended in every later state of the run |
| FileStops.ReceiverRevivesExactly | frontend/src/fileTransfer.ts:1002-1235 | of all messages still in its queue when a receiver ends, exactly a manifest that passes every check sets it to receiving again |
| FileStops.ClosedReceiverCanRevive | frontend/src/fileTransfer.ts:1002-1235 | for every announceable file a run in which that happens to a closed receiver |
| FileStops.AcceptanceIsTheUsers | frontend/src/fileTransfer.ts:876-896 | in every run a file is accepted only if the engine was set up to accept or its user accepted |
| FileChecks.AcceptTakenExactly | frontend/src/fileTransfer.ts:1186-1206 | handleAccept takes exactly the acceptance of its own transfer, once, and never takes an ended engine out of its end |
| FileChecks.ReceiptTakenExactly | frontend/src/fileTransfer.ts:1319-1342 | handleReceipt takes exactly the receipt for the size and the digest that were declared, once the completion record was sent |
| FileChecks.FileOfferTakenExactly | frontend/src/fileTransfer.ts:1155-1184 | handleFileOffer takes the first offer exactly when it is for this transfer, fits, and what the browser makes of it was signed by the sender |
| FileChecks.AcceptsExactly | frontend/src/fileTransfer.ts:876-896 | accept succeeds exactly between the offer and the manifest, if its frame can be made or was, and makes one frame |
| FileChecks.ManifestTakenExactly | frontend/src/fileTransfer.ts:1208-1235 | handleManifest takes a manifest, once, exactly when the file was offered and accepted and name, type and size agree with the offer |
| FileChecks.ChunkTakenExactly | frontend/src/fileTransfer.ts:1237-1260 | handleChunk takes a chunk exactly when the file has begun and the chunk has the declared size or is the whole rest |
| FileChecks.CompletionTakenExactly | frontend/src/fileTransfer.ts:1262-1311 | handleComplete takes exactly the signed completion record of what the receiver holds: its size, its chunks, its digest, this transfer, this handshake |
| FileSending.SendFileStartsExactly | frontend/src/fileTransfer.ts:902-930 | sendFile fails at once exactly when the engine has ended, a completion record was sent, or the file is over 250 MiB |
| FileSending.GoesOnExactly | frontend/src/fileTransfer.ts:929-999 | sendFile goes on exactly when what it waits for has happened: both confirmations, the acceptance, its last frame, the receipt |
| FileSending.OneFrameAtATime | frontend/src/fileTransfer.ts:952-999 | in every run at most one frame of sendFile, its last, is waiting for its encryption |
| FileSending.TooLargeIsNeverSent | frontend/src/fileTransfer.ts:919-925 | in every run nothing is sent of a file over 250 MiB, not even its offer |
| FileDelivery.ScriptIsAccepted | frontend/src/fileTransfer.ts:928-1342 | the script of any announceable file, handled in order, passes every handler, the file to publish is the one sent, and the receipt is the one the sender takes |
| FileDelivery.OfferTakenExactly | frontend/src/fileTransfer.ts:1155-1184 | the genuine signed offer is taken if and only if sanitising its name and media type again changes nothing |
| FileDelivery.ChunksTaken | frontend/src/fileTransfer.ts:1237-1260 | a list of chunks is taken exactly when all lengths fit, and is then all the receiver has gained |
| FileDelivery.OnlyTheSendersCut | frontend/src/fileTransfer.ts:1237-1260 | chunks pass handleChunk and reach the declared size exactly when they are cut as the sending loop cuts |
| FileDelivery.OfferTaken | frontend/src/fileTransfer.ts:1155-1184 | the sender's signed offer is accepted and recorded |
| FileDelivery.ManifestTaken | frontend/src/fileTransfer.ts:1208-1235 | the sender's manifest is accepted after its offer and starts the hash |
| FileDelivery.CompletionTaken | frontend/src/fileTransfer.ts:1262-1317 | the sender's completion record passes and yields the receipt for the file and the file to publish |
| FileDelivery.ReceiptTaken | frontend/src/fileTransfer.ts:1319-1342 | that receipt resolves the sender's wait |
| FileReceiver.FileTransferReceiver.constructor | frontend/src/fileTransfer.ts:723-752 | the fields of a new receiver |
| FileReceiver.FileTransferReceiver.CleanupReceiver | frontend/src/fileTransfer.ts:1429-1439 | everything buffered is dropped, nothing else changes |
| FileReceiver.FileTransferReceiver.OnFileOffer | frontend/src/fileTransfer.ts:1155-1184 | the step of handleFileOffer up to the acceptance |
| FileReceiver.FileTransferReceiver.OnManifest | frontend/src/fileTransfer.ts:1208-1235 | the step of handleManifest, including the manifest it leaves behind when it does not match the offer |
| FileReceiver.FileTransferReceiver.OnChunk | frontend/src/fileTransfer.ts:1237-1260 | the step of handleChunk with the incremental hash object |
| FileReceiver.FileTransferReceiver.OnComplete | frontend/src/fileTransfer.ts:1262-1313 | the step of handleComplete up to its receipt; the hash object's digest is the one-shot hash of what it absorbed |
| FileReceiver.FileTransferReceiver.OnReceiptSent | frontend/src/fileTransfer.ts:1313-1317 | the file is published and the buffer dropped |
| FileReceiver.FileTransferReceiver.Fail | frontend/src/fileTransfer.ts:1386-1402 | the buffer is dropped unless the engine had ended |
| ChunkSplit.ChunkSplitIsUnique | frontend/src/fileTransfer.ts:1237-1260 | lengths pass the size test and reach the count exactly when they are the loop's |
| ChunkSplit.CutShape | frontend/src/fileTransfer.ts:965-979 | the loop makes ceil(n/c) chunks, all c bytes but possibly the last, which is not empty |
| ChunkSplit.NeverOverfull | frontend/src/fileTransfer.ts:1237-1260 | chunks that pass never exceed the declared count |
| ChunkSplit.SplitIsCut | frontend/src/fileTransfer.ts:965-979 | the lengths of the chunks of a file depend only on its size |
| ChunkSplit.SplitJoins | frontend/src/fileTransfer.ts:965-979 | the chunks put the file together again |
| ChunkSplit.NextChunk | frontend/src/fileTransfer.ts:965-979 | one turn of the loop takes the next chunk |
| ChunkSplit.CutAndHash | frontend/src/fileTransfer.ts:965-986 | the loop emits exactly the split of the file and its digest is SHA-256 of the file |
| Payloads.ManifestFrom | frontend/src/fileTransfer.ts:255-288 | an accepted manifest declares at most 250 MiB and chunks of 1 to 65536 bytes |
| Payloads.ManifestOf | frontend/src/fileTransfer.ts:255-288 | the same of the whole object |
| Payloads.OfferReadsBack | frontend/src/fileTransfer.ts:290-336 | parseFileOffer gives back the offer, manifest and signature that were written |
| Payloads.CompleteReadsBack | frontend/src/fileTransfer.ts:338-389 | parseComplete gives back the record and signature that were written |
| Payloads.ReceiptReadsBack | frontend/src/fileTransfer.ts:391-413 | parseReceipt gives back the receipt that was written |
| Payloads.ManifestReadsBack | frontend/src/fileTransfer.ts:255-288 | parseManifest gives back the manifest that was written |
| Payloads.AcceptReadsBack | frontend/src/fileTransfer.ts:1186-1201 | the acceptance accept writes is the one handleAccept takes |
| Payloads.AcceptExactly | frontend/src/fileTransfer.ts:1190-1198 | the payload of an acceptance passes if and only if it is the record that accept writes for this transfer |
| Payloads.ReceiptExactly | frontend/src/fileTransfer.ts:391-413 | parseReceipt gives a receipt if and only if it is given the record of it, with a digest of 32 bytes |
| Payloads.CompleteExactly | frontend/src/fileTransfer.ts:338-389 | parseComplete gives a record and signature if and only if it is given the signed record, with digests of 32 bytes |
| Payloads.ManifestExactly | frontend/src/fileTransfer.ts:255-288 | parseManifest accepts exactly the records of manifests of a fitting size, and gives the name and type the browser makes of them |
| Payloads.OfferExactly | frontend/src/fileTransfer.ts:290-336 | parseFileOffer accepts exactly the signed records of offers of a fitting size |
| Payloads.TerminalExactly | frontend/src/fileTransfer.ts:1344-1353 | handleTerminalPayload gives a code if and only if it is a plain code in the record sendTerminalFrame writes |
| JsonText.Parses | frontend/src/transferProtocol.ts:133-202 | reading a printed value inside any text gives back the value and stops at its end (a number needs a delimiter), with and without refusal of repeated keys |
| JsonText.CanonicalAcceptance | frontend/src/transferProtocol.ts:361-368 | a message is accepted as a value if and only if it is that value's one encoding |
| JsonGrammar.StringGrammar | frontend/src/transferProtocol.ts:229-257 | a text is read as a string literal and a rest if and only if it consists of ways of writing the units (section 7 of RFC 8259), a quote and the rest |
| JsonGrammar.NumberGrammar | frontend/src/transferProtocol.ts:329-342 | the number that is read is the longest prefix that is a number of section 6 of RFC 8259 |
| JsonGrammar.BlanksAreSkipped | frontend/src/transferProtocol.ts:216-227 | the four blanks of section 2 of RFC 8259, and nothing else, are skipped in front of a value |
| JsonGrammar.RepeatsAreNoError | frontend/src/transferProtocol.ts:344-358 | JSON.parse alone refuses no repeated key: its only error is a malformed text |
| JsonGrammar.KeysAscend | frontend/src/transferProtocol.ts:102-110 | the keys are written once each and ascend: behind their common beginning the earlier one ends or has the smaller UTF-16 unit |
| JsonShortest.PrintIsShortest | frontend/src/transferProtocol.ts:133-202 | no text that JSON.parse reads as a value is shorter than its canonical encoding |
| JsonShortest.StringIsShortest | frontend/src/transferProtocol.ts:137-140 | no string literal for a text is shorter than the one that is written |
| JsonShortest.PlainPrintsAsItself | frontend/src/transferProtocol.ts:137-140 | a text without quotes, backslashes and control characters is written as itself between quotes, a solidus included |
| JsonShortest.ControlPrints | frontend/src/transferProtocol.ts:137-140 | a control character without a short escape is written with four lower-case hexadecimal digits |
| JsonShortest.NumberIsShortest | frontend/src/transferProtocol.ts:144-159 | no number literal for a safe integer is shorter than the one that is written |
| JsonText.ScanStopsAtEnd | frontend/src/transferProtocol.ts:259-342 | scanJsonValue started at a printed value inside any text stops exactly at its end |
| JsonText.ScanIsStrictParse | frontend/src/transferProtocol.ts:259-342 | the scanner accepts, stops and fails, with the same code, exactly as a parser that refuses repeated keys |
| JsonText.StrictOnlyRefusesRepeats | frontend/src/transferProtocol.ts:344-358 | all the scanner refuses beyond JSON.parse is a repeated key, so JSON.parse never fails after it |
| JsonText.CanonicalIsInjective | frontend/src/transferProtocol.ts:200-202 | different values have different encodings |
| JsonText.CanonicalHasNoZero | frontend/src/transferProtocol.ts:200-202 | no encoding holds a zero byte |
| JsonText.PrintedClean | frontend/src/transferProtocol.ts:133-193 | printed text is well-formed and free of control characters |
| JsonText.StringParses | frontend/src/transferProtocol.ts:137-140 | a printed string is read back, whatever follows |
| JsonText.NumberParses | frontend/src/transferProtocol.ts:144-159 | a printed safe integer is read back before any delimiter |
| JsonText.SortedKeys | frontend/src/transferProtocol.ts:102-110 | keys come out once each, in UTF-16 order |
| JsonScanner.SkipWhitespace | frontend/src/transferProtocol.ts:216-227 | the index behind the blanks |
| JsonScanner.ScanJsonString | frontend/src/transferProtocol.ts:229-257 | the end index of a string, or the error, as the suffix definition has it |
| JsonScanner.ScanJsonValue | frontend/src/transferProtocol.ts:259-342 | the end index of a value, or the error, as the suffix definition has it |
| JsonScanner.ScanArray | frontend/src/transferProtocol.ts:265-284 | the same of the array loop |
| JsonScanner.ScanObject | frontend/src/transferProtocol.ts:285-327 | the same of the object loop, with its set of keys |
| JsonScanner.ParseKey | frontend/src/transferProtocol.ts:295-300 | JSON.parse on the slice of a key gives the key the string stands for |
| JsonScanner.ParseStrictJson | frontend/src/transferProtocol.ts:344-358 | decoding, scanning and parsing a whole message |
| JsonScanner.ParseCanonicalJson | frontend/src/transferProtocol.ts:361-368 | the same with the canonical comparison, for which CanonicalAcceptance holds |
| Utf.Utf8Exactly | frontend/src/transferProtocol.ts:200-214 | the decoder accepts exactly the encodings of well-formed texts: nothing overlong, no surrogates |
| Utf.Utf8RoundTrip | frontend/src/transferProtocol.ts:200-214 | decoding undoes encoding on every well-formed text |
| Utf.CheckWellFormed | frontend/src/transferProtocol.ts:112-131 | the loop accepts exactly texts whose surrogates are paired |
| Utf.NoZeroByte | frontend/src/transferProtocol.ts:200-202 | encoding never brings in a zero byte |
| Base64Url.DecodesExactly | frontend/src/transferProtocol.ts:68-100 | a text decodes to a byte string if and only if it is its encoding and the string is short enough |
| Base64Url.EncodeIsInjective | frontend/src/transferProtocol.ts:68-75 | different bytes have different encodings |
| Base64Url.EncodesBits | frontend/src/transferProtocol.ts:68-75 | the letters carry the bits of the bytes, most significant first, with zeros to fill up the last letter and no letter more |
| Base64Url.LetterTable | frontend/src/transferProtocol.ts:68-75 | which letter stands for which six bits, as table 2 of RFC 4648 has it |
| Records.ExactFields | frontend/src/transferProtocol.ts:761-776 | an object passes requireExactKeys with certain values if and only if it is the record of those values |
| DerSignature.P1363RoundTrip | frontend/src/transferProtocol.ts:486-574 | p1363ToDer succeeds exactly on 64 bytes with two nonzero halves, and derToP1363 undoes it |
| DerSignature.DerRoundTrip | frontend/src/transferProtocol.ts:486-574 | p1363ToDer undoes derToP1363 on every DER string it accepts |
| DerSignature.LongFormIsNeverAccepted | frontend/src/transferProtocol.ts:501-574 | no accepted signature uses a long-form length |
| DerSignature.AcceptedIsEncoding | frontend/src/transferProtocol.ts:546-574 | an accepted string is the DER sequence of two minimal integers |
| DerSignature.BodyIsMinimal | frontend/src/transferProtocol.ts:473-484 | the integers that are written are minimal and positive |
| DerSignature.MinimalIsBody | frontend/src/transferProtocol.ts:516-544 | every integer the reader accepts is the one the writer makes for its magnitude |
| DerSignature.StripLeadingZeros | frontend/src/transferProtocol.ts:473-484 | the loop that drops leading zeros |
| HandshakeMessages.ValidOffers | frontend/src/transferProtocol.ts:811-840 | a value is a valid offer if and only if it is the record of an offer that meets the listed demands |
| HandshakeMessages.ValidAnswers | frontend/src/transferProtocol.ts:842-872 | the same of answers |
| HandshakeMessages.TranscriptIsInjective | frontend/src/transferProtocol.ts:1149-1169 | the transcript determines the offer and the answer |
| HandshakeMessages.WritePieces | frontend/src/transferProtocol.ts:1149-1169 | the buffer that is written piece by piece is the concatenation |
| HandshakeMessages.TranscriptBytes | frontend/src/transferProtocol.ts:1149-1169 | the buffer is the transcript |
| Handshake.HandshakeAgreement | frontend/src/webrtcTestSession.ts:203-273 | in every run, each answer the sender accepts was created by the recipient for the sender's exact offer, with the same transcript hash and mirrored keys, or the two offers are a SHA-256 collision |
| Handshake.HeldMaterialAgreement | frontend/src/webrtcTestSession.ts:203-273 | in every run in which the sender holds keys, the keys the two sessions hold are mirrored if and only if the last accepted answer belongs to the last reply with derived keys, or the two transcripts are a SHA-256 collision |
| Handshake.MirrorsExactly | frontend/src/transferProtocol.ts:1225-1302 | the keys of one acceptance and one reply mirror exactly when offer and answer are the same, or the transcripts collide |
| Handshake.ReplayedOfferDiverges | frontend/src/webrtcTestSession.ts:203-241 | if a signed offer arrives twice and the sender accepts the first answer, the sessions hold keys that do not match, whenever the two secrets give different keys |
| Handshake.HeldMaterialCanDiverge | frontend/src/webrtcTestSession.ts:203-241 | a concrete such run |
| Handshake.OneReplyAgreement | frontend/src/webrtcTestSession.ts:203-273 | a corollary: a recipient that answered one offer ends with material that mirrors the sender's, or the two offers collide |
| Handshake.HonestExchange | frontend/src/transferProtocol.ts:934-1302 | between honest sessions whose signatures verify their own messages, the offer is answered, the answer accepted, and the keys mirror |
| Handshake.TranscriptHashBinds | frontend/src/transferProtocol.ts:1171-1176 | equal transcript hashes mean equal offers and answers, or a collision |
| Handshake.DerivationsMirror | frontend/src/transferProtocol.ts:1225-1302 | both ends of one exchange derive the same hash, confirmation and crossed keys |
| Handshake.DerivedIsWellKeyed | frontend/src/transferProtocol.ts:1225-1302 | if HKDF separates labels, every derived material gives its two directions different keys of 32 bytes with prefixes of 4 |
| Handshake.DirectionsHaveTheirOwnKeys | frontend/src/webrtcTestSession.ts:203-273 | in every run the material either session holds or derived gives its two directions different keys, and neither is the confirmation |
| Handshake.SharedKeyMeansSameExchange | frontend/src/transferProtocol.ts:1225-1302 | an acceptance and a reply that share a key are of one exchange, or HKDF or SHA-256 collides |
| Handshake.TermsHoldInEveryRun | frontend/src/webrtcTestSession.ts:139-273 | in every run each side only makes and takes messages of its own transfer, devices and epoch, and no answer outlives its offer |
| SecureChannel.NoPairIsUsedTwice | frontend/src/transferProtocol.ts:1225-1680 | over both endpoints of a channel on the keys of an accepted handshake, no pair of key and nonce is used twice |
| Handshake.AcceptedAgrees | frontend/src/transferProtocol.ts:1083-1123 | an accepted answer that is one of the recipient's replies belongs to the sender's offer |
| Handshake.CreatedOffer | frontend/src/transferProtocol.ts:934-965 | a created offer is sound and carries the ephemeral key |
| Handshake.CreatedAnswer | frontend/src/transferProtocol.ts:967-1014 | a created answer is sound, has the offer's terms and hash, and carries the ephemeral key |
| Handshake.CheckedAnswer | frontend/src/transferProtocol.ts:1083-1123 | an accepted answer is sound, for this transfer, and carries the recipient's signature |
| HandshakeChecks.OfferCreatedExactly | frontend/src/transferProtocol.ts:934-965 | createHandshakeOffer gives an offer if and only if it is that of the terms, key and nonce it was given, and sound |
| HandshakeChecks.AnswerCreatedExactly | frontend/src/transferProtocol.ts:967-1014 | createHandshakeAnswer gives an answer if and only if the offer is sound and has the session's terms and the answer has the offer's, its hash and no later deadline, and is sound |
| HandshakeChecks.OfferCheckedExactly | frontend/src/transferProtocol.ts:1046-1068 | assertValidHandshakeOffer accepts exactly the sound offers with the session's terms, signed by the sender, with a usable key |
| HandshakeChecks.AnswerCheckedExactly | frontend/src/transferProtocol.ts:1083-1123 | assertValidHandshakeAnswer accepts exactly the sound answers to the session's own sound offer: same terms, its hash, no later deadline, signed by the recipient, with a usable key |
| HandshakeChecks.DerivesExactly | frontend/src/transferProtocol.ts:1225-1302 | deriveHandshakeMaterial gives material exactly for equal terms and a usable key with which the keys agree |
| Handshake.RepliesAreGood | frontend/src/webrtcTestSession.ts:203-241 | every reply answers a genuine offer and has the material derived from the two |
| Handshake.OtherSignatureKeepsInv | frontend/src/transferProtocol.ts:1083-1123 | what the recipient's key signs elsewhere is never taken for an answer here |
| Handshake.RunKeepsInv | frontend/src/webrtcTestSession.ts:139-273 | the invariant of both sessions in every run |
| Handshake.SenderHandshake.constructor | frontend/src/webrtcTestSession.ts:69-72 | a session before its start |
| Handshake.SenderHandshake.Start | frontend/src/webrtcTestSession.ts:139-169 | the offer is made once, with its key |
| Handshake.SenderHandshake.OnAnswer | frontend/src/webrtcTestSession.ts:243-273 | the handshake_answer branch of handleSignal |
| Handshake.RecipientHandshake.constructor | frontend/src/webrtcTestSession.ts:69-72 | a session before any offer |
| Handshake.RecipientHandshake.OnOffer | frontend/src/webrtcTestSession.ts:203-241 | the handshake_offer branch of handleSignal |
| IncrementalHash.HashParts | frontend/src/fileTransfer.ts:435-538 | for every sequence of updates the digest is padded one-shot SHA-256 of the concatenation; it fails exactly when the padded length is no safe integer |
| IncrementalHash.IncrementalSha256.constructor | frontend/src/fileTransfer.ts:435-441 | the state of a new hash object |
| IncrementalHash.IncrementalSha256.Update | frontend/src/fileTransfer.ts:443-473 | when update throws, and otherwise that the state is the fold of compression over full blocks and the buffer the tail |
| IncrementalHash.IncrementalSha256.FillBuffer | frontend/src/fileTransfer.ts:453-463 | topping up a partly filled buffer |
| IncrementalHash.IncrementalSha256.ProcessBlocks | frontend/src/fileTransfer.ts:464-467 | the loop over whole blocks |
| IncrementalHash.IncrementalSha256.StoreTail | frontend/src/fileTransfer.ts:468-471 | the rest goes to the buffer |
| IncrementalHash.IncrementalSha256.Digest | frontend/src/fileTransfer.ts:475-494 | the digest is SHA-256 of the input, again on every later call |
| IncrementalHash.Process | frontend/src/fileTransfer.ts:496-538 | processing a block is the compression function of FIPS 180-4 |
| IncrementalHash.AddTo | frontend/src/fileTransfer.ts:530-537 | the last additions of process, each exact below 2^53 |
| JsNumbers.SumOfTwo | frontend/src/fileTransfer.ts:524-537 | a sum of two words followed by an unsigned shift is the sum modulo 2^32, exact before it |
| IncrementalHash.FillSchedule | frontend/src/fileTransfer.ts:496-512 | the schedule loop computes the 64 words of section 6.2.2 |
| IncrementalHash.PaddingMatches | frontend/src/fileTransfer.ts:475-494 | the padding length computed from the buffer is the least one of section 5.1.1 |
| IncrementalHash.StateBytes | frontend/src/fileTransfer.ts:486-490 | the output loop serialises the state |
| JsNumbers.ScheduleWord | frontend/src/fileTransfer.ts:503-512 | the JavaScript expression, all sums exact below 2^53, is the word of the standard |
| JsNumbers.Temporary1 | frontend/src/fileTransfer.ts:514-517 | the same of the first temporary word |
| JsNumbers.Temporary2 | frontend/src/fileTransfer.ts:518-520 | the same of the second temporary word |
| JsNumbers.RotateRight | frontend/src/fileTransfer.ts:430-432 | rotateRight is the rotation, as a signed 32-bit number |
| Sha256Bits.RotationByBits | frontend/src/fileTransfer.ts:430-432 | bit i of a rotation is bit i + n of the word, round its 32 bits |
| Sha256Bits.ChoiceByBits | frontend/src/fileTransfer.ts:514-517 | bit i of Ch is that of y or z, as the bit of x says |
| Sha256Bits.MajorityByBits | frontend/src/fileTransfer.ts:518-520 | bit i of Maj is set if and only if at least two of the three are |
| Sha256Bits.SigmasByBits | frontend/src/fileTransfer.ts:503-520 | bit i of each of the four sigma functions is the parity of three bits of the word |
| Sha256Bits.ConstantsAreCubeRoots | frontend/src/fileTransfer.ts:419-428 | the 64 constants are the first 32 bits of the fractional parts of the cube roots of the first 64 primes |
| Sha256Bits.InitialIsSquareRoots | frontend/src/fileTransfer.ts:415-417 | the initial hash value comes in the same way from the square roots of the first 8 primes |
| SignalingRuns.SingleUse | backend/app/presence.py:509-611 | in the deployed configuration no run forwards two messages of one single-use type for one transfer from one device |
| SignalingRuns.RetentionIsExact | backend/app/presence.py:734-745 | the caps hold in every run if and only if the retention is at least the transfer lifetime |
| SignalingRuns.ReplayWhenForgottenEarly | backend/app/presence.py:734-745 | with a shorter retention a concrete run forwards a single-use message twice |
| SignalingRuns.CapsHoldInEveryRun | backend/app/presence.py:509-611 | no run forwards more messages of a type than its cap for one transfer and device |
| SignalingRuns.ForwardsExactly | backend/app/presence.py:509-611 | a message goes to the other participant exactly when it fits a live transfer that is being set up, comes from the device that may send it, and budget is left; an offer of either kind moves an accepted transfer to negotiating, and nothing else changes a record |
| SignalingRuns.OnlyTheEntitledAreForwarded | backend/app/presence.py:567-577 | in every run each forwarded offer came from the transfer's sender, each answer from its recipient, each candidate from one of the two, and went to the other |
| SignalingRuns.DeadTransferIsReleased | backend/app/presence.py:509-611 | a message for a transfer that is over gives back what the transfer had used |
| SignalingRuns.BudgetsConservedInEveryRun | backend/app/presence.py:734-804 | the budgets are conserved, and owned by their transfers' accounts, in every reachable state, whatever the retention |
| SignalingRuns.RunKeepsInv | backend/app/presence.py:509-611 | state is dropped only once the transfer can never be active again |
| SignalingBudget.ChargeConserves | backend/app/presence.py:747-780 | recording a use keeps every total equal to the sum it stands for, and every cap |
| SignalingBudget.ReleaseConserves | backend/app/presence.py:782-793 | releasing gives the owner back exactly what the transfer had used |
| SignalingBudget.ReleasesExactly | backend/app/presence.py:782-793 | releasing takes one usage away and nothing else, and lowers the total of its owner by what it had used |
| SignalingBudget.PrunesExactly | backend/app/presence.py:734-745 | a pruning pass keeps exactly the usages updated less than the retention ago, unchanged |
| SignalingBudget.ReleaseAllConserves | backend/app/presence.py:734-745 | the same of a pruning pass, and nothing else is dropped |
| SignalingBudget.TotalsAreDetermined | backend/app/presence.py:734-804 | account totals are determined by the usages, absent exactly when zero |
| SignalingBudget.SignalingState.constructor | backend/app/presence.py:225-248 | no usage and no totals |
| SignalingBudget.SignalingState.RecordSignalingUse | backend/app/presence.py:747-780 | the step of recording a use |
| SignalingBudget.SignalingState.ReleaseSignaling | backend/app/presence.py:782-793 | the step of releasing a transfer |
| SignalingBudget.SignalingState.PruneSignalingState | backend/app/presence.py:734-745 | the pruning loop releases exactly the stale usages |
| SocketRegistry.RegistrySafety | backend/app/presence.py:255-288 | in every interleaving of lock sections at most 8 sockets an account and 512 in all, no empty account map, a queue of its own for every registered connection |
| SocketRegistry.StepIsSafe | backend/app/presence.py:255-374 | every lock section keeps the registry safe |
| SocketRegistry.RegistersExactly | backend/app/presence.py:255-288 | a registration succeeds exactly when it replaces a socket of its device or the account has fewer than 8 and the server fewer than 512; nothing else changes |
| SocketRegistry.SocketGoesExactly | backend/app/presence.py:255-706 | a registered socket goes exactly with its removal, a disconnection, its replacement, or a pruning pass of its account at least the timeout after its last heartbeat |
| SocketRegistry.HeartbeatIsRecorded | backend/app/presence.py:350-374 | a heartbeat of the current socket is recorded and nothing else changes |
| SocketRegistry.HeartbeatProtects | backend/app/presence.py:350-374 | a socket refreshed at t outlives every run in which nobody disconnects or replaces it and every pruning pass comes before t plus the timeout |
| SocketRegistry.SilentSocketGoes | backend/app/presence.py:682-706 | a socket that is silent for the timeout goes in the first pruning pass of its account after that, and loses its queue |
| SocketRegistry.QueuesAreAccountedFor | backend/app/presence.py:255-706 | in every run there is a queue for exactly the registered sockets, those a pruning pass took away but has not cleaned up after, and those whose account was disconnected |
| SocketRegistry.ForgottenQueuesStay | backend/app/presence.py:655-661 | a queue of the last kind stays in every later state |
| SocketQueues.SupersededHandleChangesNothing | backend/app/presence.py:332-437 | once a connection was replaced or removed, a removal, heartbeat or enqueue by its old handle changes nothing in any later state: neither the registry nor any queue, its successor's included |
| SocketQueues.ManagerSafety | backend/app/presence.py:255-478 | in every run of registry sections, enqueues and drains the registry is safe, every registered socket has its own queue, and every queue is conserved |
| SocketQueues.EnqueueReachesItsOwnQueue | backend/app/presence.py:408-437 | an enqueue by the current handle reaches that socket's queue and no other |
| SocketRegistry.SupersededIsPowerless | backend/app/presence.py:332-374 | the same of removals and heartbeats for the registry alone |
| SocketRegistry.SupersededStaysSuperseded | backend/app/presence.py:332-374 | a superseded connection is never registered again |
| SocketRegistry.ReplacementSupersedes | backend/app/presence.py:255-275 | registering for a device that is connected supersedes the old connection |
| SocketRegistry.PresenceManager.constructor | backend/app/presence.py:225-248 | an empty registry |
| SocketRegistry.PresenceManager.ActiveSocketCount | backend/app/presence.py:285-288 | the loop counts every registered socket |
| SocketRegistry.PresenceManager.RegisterConnection | backend/app/presence.py:255-283 | when a registration is refused, what it replaces, and the new registry |
| SocketRegistry.PresenceManager.RemoveConnection | backend/app/presence.py:332-348 | only the current connection is removed, with its queue |
| SocketRegistry.PresenceManager.RefreshHeartbeat | backend/app/presence.py:350-374 | only the current connection is refreshed |
| SocketRegistry.PresenceManager.PruneExpired | backend/app/presence.py:682-698 | exactly the stale sockets of the account, or of all accounts, go in one section |
| SocketRegistry.PruneAccounts | backend/app/presence.py:687-698 | the loop over the accounts |
| SocketRegistry.SplitStale | backend/app/presence.py:693-696 | the loop that separates live from stale sockets |
| OutboundQueue.OutboundConservation | backend/app/presence.py:408-478 | in every interleaving sent is a prefix of accepted; until stopped, accepted = sent, in hand, queued, and the byte count is the queued sizes plus the fetched payload; never over 32 messages or 262144 bytes |
| OutboundQueue.StepConserves | backend/app/presence.py:408-478 | every section keeps that |
| OutboundQueue.AdmitsExactly | backend/app/presence.py:408-437 | in every run a payload is accepted, last, exactly when fewer than 32 wait and the bytes still counted and its own are at most 262144; otherwise the queue fails |
| OutboundQueue.DrainSendsOldest | backend/app/presence.py:439-468 | a turn of the drain loop gives the socket the oldest payload |
| OutboundQueue.QueueDrains | backend/app/presence.py:439-468 | as many turns as payloads wait give the socket everything that was accepted, in order |
| OutboundQueue.StepOnlyGrows | backend/app/presence.py:439-468 | until stopped the byte count is never clipped at zero, and what was sent and accepted only grows |
| OutboundQueue.NothingAcceptedAfterFailure | backend/app/presence.py:470-478 | nothing is accepted after a failure |
| OutboundQueue.Queue.constructor | backend/app/presence.py:167-176 | an empty queue |
| OutboundQueue.Queue.EnqueueOutbound | backend/app/presence.py:408-437 | when a payload is accepted, and the new queue |
| OutboundQueue.Queue.Fetch | backend/app/presence.py:446-447 | the oldest payload is taken |
| OutboundQueue.Queue.AccountFetched | backend/app/presence.py:448-450 | its size leaves the byte count |
| OutboundQueue.Queue.FinishWrite | backend/app/presence.py:451-478 | the payload was sent, or the queue has failed |
| OutboundQueue.Queue.StopOutbound | backend/app/presence.py:716-732 | the queue is emptied and takes nothing more |
| TransferRecords.LifecycleMeasure | backend/app/repositories/transfers.py:57-63 | a transfer changes status at most five times, and a completed one went through every stage |
| TransferRecords.StepLaw | backend/app/repositories/transfers.py:559-836 | one operation keeps a status or follows the transition table upwards in rank; expiry only at or after the deadline, other changes before it; owner, participants and deadline never change |
| TransferRecords.TableIsExact | backend/app/repositories/transfers.py:57-63 | an active transfer goes to its next stage, is cancelled or expires; an offer can be rejected, only later stages can fail |
| TransferRecords.ChangesAreAskedFor | backend/app/repositories/transfers.py:559-836 | a status becomes Accepted or Rejected only by the recipient, Cancelled or Failed only by a participant, or by an explicit transition or expiry for the owner |
| TransferRecords.EveryStageWasAskedFor | backend/app/repositories/transfers.py:559-836 | every status a transfer goes through in a run was asked for in that way by an operation of the run |
| TransferRecords.DeedsHappen | backend/app/repositories/transfers.py:751-786 | an accept, reject, cancel or failure by an entitled, active device before the deadline leaves the record Accepted, Rejected, Cancelled or Failed |
| TransferRecords.TransitionsHappen | backend/app/repositories/transfers.py:559-581 | every edge of the table can be taken, expiry at or after the deadline and the others before it |
| TransferRecords.NotesHappen | backend/app/repositories/transfers.py:664-730 | a failure code is written to failed records only, use of a relay to active ones before the deadline only |
| TransferRecords.RejectionIsFinal | backend/app/repositories/transfers.py:598-611 | a transfer its recipient rejected is rejected in every later state |
| TransferRecords.StampsFollowStatus | backend/app/repositories/transfers.py:808-830 | in every run a completion time is there exactly when completed, an acceptance time once accepted or cancelled, a failure code only when failed |
| TransferRecords.LifecyclePath | backend/app/repositories/transfers.py:559-836 | every run moves a transfer along a path of the transition table |
| TransferRecords.PathsAreShort | backend/app/repositories/transfers.py:57-63 | such a path has at most five steps |
| TransferRecords.RunKeepsTransfer | backend/app/repositories/transfers.py:559-836 | no run changes owner, participants or deadline, or leaves a terminal status |
| TransferRecords.HeldFailureIsCurrent | backend/app/repositories/transfers.py:664-688 | a failed record is only annotated, so a copy held since the failure loses nothing |
| TransferRecords.InMemoryTransferRequestRepository.constructor | backend/app/repositories/transfers.py:477-486 | an empty repository |
| TransferRecords.InMemoryTransferRequestRepository.Create | backend/app/repositories/transfers.py:514-557 | the step of creating a record |
| TransferRecords.InMemoryTransferRequestRepository.Transition | backend/app/repositories/transfers.py:559-581 | the step of a plain transition |
| TransferRecords.InMemoryTransferRequestRepository.ActorTransition | backend/app/repositories/transfers.py:751-786 | the step of accepting, rejecting or cancelling |
| TransferRecords.InMemoryTransferRequestRepository.Expire | backend/app/repositories/transfers.py:788-806 | the step of expiring |
| TransferRecords.InMemoryTransferRequestRepository.FailUnattributed | backend/app/repositories/transfers.py:664-688 | failing without an actor: which of the four tries succeeds, each with its own clock value, and the record with its code |
| TransferCapacity.CapacityAtEveryInstant | backend/app/transfers.py:155-213 | at every instant of every interleaving at most 8 unexpired active transfers an account and 4 a device, although the clock is read before the lock is taken |
| TransferCapacity.OffersBelowLimitsAreMade | backend/app/transfers.py:155-213 | an offer below the limits is made, with the deadline one lifetime after the clock value that was checked, and nothing else changes |
| TransferCapacity.StepKeepsLimits | backend/app/transfers.py:155-213 | every step keeps the limits, counting the place a call that passed the check has reserved |
| RateLimit.SlidingIntervalBound | backend/app/auth.py:96-187 | any interval of one window admits at most 2L - 1 uses of a bucket, and at most L if the window is one tick |
| RateLimit.SlidingIntervalBoundIsMet | backend/app/auth.py:125-156 | for every limit and window a history that attains the bound |
| RateLimit.RejectionMeansFull | backend/app/auth.py:125-156 | a rejected call changes nothing, and one of its buckets has admitted its limit inside its open window |
| RateLimit.DeletionIsInvisible | backend/app/repositories/rate_limits.py:229-246 | deleting expired rows at any points of a history changes no decision |
| RateLimit.DriveBoth | backend/app/repositories/rate_limits.py:111-195 | both implementations, driven by one history, take the same decisions and hold the same buckets |
| RateLimit.BucketIsLastWindow | backend/app/auth.py:158-187 | a bucket is the latest window of the uses it admitted |
| RateLimit.ChargedBucket | backend/app/auth.py:125-156 | a charged bucket gained one use under the last request that names it, and no other bucket changed |
| RateLimit.RateLimiter.constructor | backend/app/auth.py:74-80 | no buckets |
| RateLimit.RateLimiter.Allow | backend/app/auth.py:96-123 | the decision and buckets of a single request |
| RateLimit.RateLimiter.AllowManyRequests | backend/app/auth.py:125-156 | all or nothing: the decision and buckets of a list of requests |
| RateLimit.RateLimitBucketRepository.constructor | backend/app/repositories/rate_limits.py:29-33 | no rows |
| RateLimit.RateLimitBucketRepository.ConsumeMany | backend/app/repositories/rate_limits.py:111-195 | the decision and rows of a list of requests, in terms of the process-local limiter |
| RateLimit.RateLimitBucketRepository.DeleteExpired | backend/app/repositories/rate_limits.py:229-246 | only expired rows go, the earliest first, at most the limit |
| RateLimit.ReadRows | backend/app/repositories/rate_limits.py:141-162 | the first loop finds the rows, or that a bucket is full |
| RateLimit.WriteRows | backend/app/repositories/rate_limits.py:164-195 | the second loop charges every bucket |
| RateLimit.SelectExpired | backend/app/repositories/rate_limits.py:229-246 | the rows chosen are the earliest expired ones |

## Left out

- Web Crypto, ECDSA, ECDH, HKDF, AES-GCM and HMAC: ideal logs or functions with the one law that is used; key agreement is assumed to commute.
- Clocks, randomness and identifiers: parameters; identifiers of connections are fresh.
- Numbers in JSON that are not written as safe integers: scanned like the code does, but given no value, so a message holding one is never accepted as canonical in the model.
- The host's JSON.parse, TextEncoder, TextDecoder, btoa and atob: defined after section 2 of RFC 8259, the Unicode standard and RFC 4648; recursion depth is unbounded.
- Objects in memory that are not JSON values (cycles, prototypes, symbols, functions): canonicalJsonValue's refusals of them.
- File-name and media-type sanitising: an arbitrary function of the host.
- FileDelivery.ScriptIsAccepted: runs the handlers alone; FileRun.FileGoesThrough runs them over the channel. Both are for names that sanitising leaves unchanged, which FileDelivery.OfferTakenExactly shows to be necessary.
- JsonText.CanonicalAcceptance: does not cover canonical fractions, exponents and unsafe integers, which the code accepts; no message of the protocol holds one.
- JsonScanner.ParseCanonicalJson: the same.
- TransferRecords.InMemoryTransferRequestRepository.Expire: its two sections follow each other at once, as coroutines that never suspend do; every interleaving of the sections is a run of TransferRecords.Run.
- TransferRecords.InMemoryTransferRequestRepository.FailUnattributed: the same; TransferRecords.HeldFailureIsCurrent covers operations between its two writes.
- FileEngine: a message handler runs to its frame in one step, and verification inside it does not wait; the code serialises handlers with its receive queue.
- FileEngine: more than the code can do is allowed where it costs nothing: any message may have been in the queue when the engine ended, and a cancellation may end without its beginning.
- Data-channel backpressure, progress callbacks, download URLs, the inbound-transfer registry, peer connections, ICE and SDP.
- normalizeP1363Signature as a detector of DER, and reuse of caller-supplied ephemeral keys.
- SQL text and transactions: a table is a map and a transaction one step; the database form of the transfer repository is left out.
- forward_signaling is one step; parsing of its messages is one flag; close_all is left out.
- Notifications, peer-key lookup, serialisers, routes, sessions, tickets, one-time codes, linking codes, metrics and the presence client.
- TransferService methods other than create_offer's capacity check: they call one repository operation and then release the signaling state, which SignalingRuns has as the step Release.
