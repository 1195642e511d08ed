/** The file-transfer engines at both ends of an encrypted channel (frontend/src/fileTransfer.ts).

    One sendFile call for a fixed file, and a receiver, run against a network that delivers whatever it likes. A step is
    a stretch of code between two points where the engine waits: a message handler up to the frame it sends, the part
    of sendFile up to its next frame, the end of an encryption, a call by the user. */
module FileEngine {
  import opened Outcomes
  import opened Bytes
  import opened Utf
  import opened JsonText
  import opened Records
  import opened Base64Url
  import opened Sha256Spec
  import opened ChunkSplit
  import opened SignedObjects
  import opened Payloads
  import opened FrameHeader
  import opened Uuids
  import opened FrameStream
  import opened FrameChannel

  // The fixed circumstances of one transfer. `verifies` is the outcome of checking a signature the sender made.
  datatype Config = Config(
    transferId: Text, confirmation: Bytes, transcriptHash: Bytes, s2rPrefix: Bytes, r2sPrefix: Bytes,
    file: Bytes, chunkSize: nat, fileName: Text, mediaType: Text,
    host: Host, accepted: bool, verifies: (Bytes, Bytes) -> bool)

  predicate ValidConfig(c: Config) {
    && IsUuid(c.transferId) && |c.confirmation| == CONFIRMATION_BYTES && |c.transcriptHash| == DIGEST_BYTES
    && |c.s2rPrefix| == |c.r2sPrefix| == 4 && 0 < c.chunkSize <= MAX_CHUNK_SIZE
  }

  datatype State = Idle | Confirming | Ready | SendingFile | Receiving | Completed | Cancelled | Failed | Closed

  predicate Ended(s: State) { s == Completed || s == Cancelled || s == Failed || s == Closed }

  // ----- Frames -----

  // An endpoint and every frame it ever reserved a counter for.
  datatype Link = Link(end: Endpoint, made: seq<Frame>)

  ghost function Do(l: Link, peer: Endpoint, a: Act): Link {
    Link(Acted(l.end, peer, a),
         if a.Create? && CreateError(l.end.stream, a.frameType, a.body).None? then l.made
             + [Frame(a.frameType, a.body)] else l.made)
  }

  predicate Confirmed(l: Link) { l.end.stream.sentConfirmation && l.end.stream.receivedConfirmation }

  // sendFrame up to the encryption it waits for; None where it throws.
  ghost function SendFrame(state: State, l: Link, peer: Endpoint, f: Frame): Option<Link> {
    if Ended(state) || (f.frameType != Confirm && !Confirmed(l))
        || CreateError(l.end.stream, f.frameType, f.plaintext).Some? then None
    else Some(Do(l, peer, Create(f.frameType, f.plaintext)))
  }

  // sendConfirmation
  ghost function SendConfirmation(c: Config, state: State, l: Link, peer: Endpoint): Option<Link> {
    if l.end.stream.sendNext != 0 then Some(l) else SendFrame(state, l, peer, Frame(Confirm, c.confirmation))
  }

  // start
  ghost function Started(c: Config, state: State, l: Link, peer: Endpoint): (State, Link) {
    if Ended(state) then (state, l)
    else
      var state' := if state == Idle then Confirming else state;
      (state', match SendConfirmation(c, state', l, peer) case None => l case Some(l') => l')
  }

  // sendTerminalFrame up to its frame
  ghost function SentTerminal(
      c: Config, state: State, l: Link, peer: Endpoint, t: FrameType, body: Bytes): (State, Link)
  {
    if Ended(state) || (t != Cancel && t != Error) then (state, l)
    else
      var (state', l') := Started(c, state, l, peer);
      (state', match SendFrame(state', l', peer, Frame(t, body)) case None => l' case Some(l'') => l'')
  }

  // What may happen at an engine. `Encrypted` and `Lost` end the encryption of a reserved frame; `wrote` says whether
  // the frame could then be given to the data channel. `Stop` is close, a failing channel or the end of a cancellation.
  datatype Event =
    | Start
    | SendFile
    | Advance(signature: Bytes)
    | Throw
    | Sign(message: Bytes)
    | AcceptFile
    | Message(frame: Bytes, claimed: Option<Bytes>)
    | Encrypted(counter: nat, ciphertext: Bytes, wrote: bool)
    | Lost(counter: nat)
    | SendTerminal(frameType: FrameType, body: Bytes)
    | Stop(state: State)

  // ----- The sender -----

  // Where sendFile is.
  datatype Phase =
    | NotStarted
    | AwaitingConfirmation
    | AwaitingAcceptance
    | Sending(offset: nat, count: nat)
    | AwaitingReceipt
    | Returned(receipt: TransferReceipt)
    | Threw

  // A promise another handler settles.
  datatype Wait<T> = Unset | Pending | Resolved(value: T) | Rejected

  // `sent` is the history of the frames sendFile made; `inFlight` the counter of the last one.
  datatype Sender = Sender(
    state: State, remoteAccepted: bool, acceptance: Wait<()>, receipt: Wait<TransferReceipt>,
    sentCompletion: Option<CompleteCore>, completionSent: bool, broken: bool,
    phase: Phase, inFlight: nat, sent: seq<Frame>, offerBody: Bytes, completeBody: Bytes)

  // `signed` is every message that was signed with the sender's key.
  datatype SenderSide = SenderSide(s: Sender, link: Link, signed: set<Bytes>)

  function Refused<T>(w: Wait<T>): Wait<T> { if w.Pending? then Rejected else w }

  // setState and rejectPending
  function Halted(s: Sender, state: State): Sender {
    s.(state := state, acceptance := Refused(s.acceptance), receipt := Refused(s.receipt))
  }

  // fail, when a message handler throws: the receive queue stays rejected.
  function SenderFailed(s: Sender): Sender {
    (if Ended(s.state) then s else Halted(s, Failed)).(broken := true)
  }

  function ManifestOfFile(c: Config): TransferManifest {
    TransferManifest(c.fileName, c.mediaType, |c.file|, c.chunkSize)
  }

  function OfferOfFile(c: Config): OfferCore {
    OfferCore(c.transferId, c.fileName, c.mediaType, |c.file|)
  }

  function Completion(c: Config, count: nat): CompleteCore {
    CompleteCore(c.transferId, |c.file|, count, Encode(Sha256(c.file)), Encode(c.transcriptHash))
  }

  function BodyOf(v: Json): Bytes {
    match CanonicalBytes(v) case Ok(b) => b case Err(_) => []
  }

  // One frame of sendFile: `next` is where it continues, unless sendFrame throws.
  ghost function SendNext(x: SenderSide, peer: Endpoint, f: Frame, next: Sender): SenderSide {
    match SendFrame(next.state, x.link, peer, f)
    case None => x.(s := next.(phase := Threw))
    case Some(l) => x.(s := next.(sent := x.s.sent + [f], inFlight := x.link.end.stream.sendNext), link := l)
  }

  // The signed offer.
  ghost function SendOffer(c: Config, x: SenderSide, peer: Endpoint, signature: Bytes): SenderSide {
    match CanonicalBytes(OfferJson(OfferOfFile(c)))
    case Err(_) => x.(s := x.s.(phase := Threw))
    case Ok(message) =>
      var body := BodyOf(SignedJson(OfferJson(OfferOfFile(c)), signature));
      SendNext(x.(signed := x.signed + {message}), peer, Frame(FileOffer, body),
               x.s.(acceptance := Pending, offerBody := body, phase := AwaitingAcceptance))
  }

  ghost function SendManifest(c: Config, x: SenderSide, peer: Endpoint): SenderSide {
    if Ended(x.s.state) || CanonicalBytes(ManifestJson(ManifestOfFile(c))).Err? then x.(s := x.s.(phase := Threw))
    else SendNext(x, peer, Frame(Manifest, BodyOf(ManifestJson(ManifestOfFile(c)))),
        x.s.(state := SendingFile, phase := Sending(0, 0)))
  }

  // One turn of the loop.
  ghost function SendChunk(c: Config, x: SenderSide, peer: Endpoint, offset: nat, count: nat): SenderSide
    requires offset < |c.file|
  {
    var next := if offset + c.chunkSize < |c.file| then offset + c.chunkSize else |c.file|;
    SendNext(x, peer, Frame(Chunk, c.file[offset..next]), x.s.(phase := Sending(next, count + 1)))
  }

  ghost function SendCompletion(c: Config, x: SenderSide, peer: Endpoint, count: nat, signature: Bytes): SenderSide {
    var core := Completion(c, count);
    match CanonicalBytes(CompleteJson(core))
    case Err(_) => x.(s := x.s.(phase := Threw, sentCompletion := Some(core)))
    case Ok(message) =>
      var body := BodyOf(SignedJson(CompleteJson(core), signature));
      SendNext(x.(signed := x.signed + {message}), peer, Frame(Complete, body),
               x.s.(sentCompletion := Some(core), receipt := Pending, completionSent := true, completeBody := body,
                   phase := AwaitingReceipt))
  }

  // The next stretch of sendFile, once what it waits for has happened.
  ghost function Advanced(c: Config, x: SenderSide, peer: Endpoint, signature: Bytes): SenderSide {
    var written := x.s.inFlight in x.link.end.log;
    match x.s.phase
    case AwaitingConfirmation => if Confirmed(x.link) then SendOffer(c, x, peer, signature) else x
    case AwaitingAcceptance => if written && x.s.acceptance.Resolved? then SendManifest(c, x, peer) else x
    case Sending(offset, count) =>
      if !written then x
      else if offset < |c.file| then SendChunk(c, x, peer, offset, count)
      else SendCompletion(c, x, peer, count, signature)
    case AwaitingReceipt => if written && x.s.receipt.Resolved?
        then x.(s := x.s.(phase := Returned(x.s.receipt.value))) else x
    case _ => x
  }

  // handleAccept
  ghost function HandleAccept(c: Config, s: Sender, body: Bytes): (Sender, Result<()>) {
    if s.remoteAccepted then (s, Err("invalid_state"))
    else
      match ParseCanonical(body)
      case Err(code) => (s, Err(code))
      case Ok(v) =>
        match AcceptOf(v, c.transferId)
        case Err(code) => (s, Err(code))
        case Ok(_) =>
          (s.(remoteAccepted := true, acceptance := if s.acceptance.Pending? then Resolved(()) else s.acceptance,
              state := if s.state == Confirming then Ready else s.state), Ok(()))
  }

  // handleReceipt
  ghost function HandleReceipt(c: Config, s: Sender, body: Bytes): (Sender, Result<()>) {
    if !s.completionSent then (s, Err("invalid_state"))
    else
      match ParseCanonical(body)
      case Err(code) => (s, Err(code))
      case Ok(v) =>
        match ReceiptOf(v)
        case Err(code) => (s, Err(code))
        case Ok(receipt) =>
          if receipt.transferId != c.transferId then (s, Err("identity_mismatch"))
          else if s.sentCompletion.None? || receipt.byteCount != s.sentCompletion.value.byteCount
                  || receipt.sha256 != s.sentCompletion.value.sha256 then (s, Err("receipt_mismatch"))
          else (s.(receipt := if s.receipt.Pending? then Resolved(receipt) else s.receipt, state := Completed), Ok(()))
  }

  ghost function TerminalPayload(body: Bytes, t: FrameType): Result<Text> {
    match ParseCanonical(body)
    case Err(code) => Err(code)
    case Ok(v) =>
      TerminalOf(v, TextOf(if t == Cancel then "cancel" else "error"), if t == Cancel then "remote_cancel"
          else "remote_error")
  }

  // handleTerminalPayload
  ghost function SenderToldToStop(s: Sender, f: Frame): (Sender, Result<()>) {
    match TerminalPayload(f.plaintext, f.frameType)
    case Err(code) => (s, Err(code))
    case Ok(_) => (if Ended(s.state) then s else Halted(s, Failed), Ok(()))
  }

  // The dispatch of handleMessage on a frame receiveFrame returned.
  ghost function SenderHandles(c: Config, s: Sender, f: Frame): (Sender, Result<()>) {
    match f.frameType
    case Accept => HandleAccept(c, s, f.plaintext)
    case Receipt => HandleReceipt(c, s, f.plaintext)
    case Cancel => SenderToldToStop(s, f)
    case Error => SenderToldToStop(s, f)
    case _ => (s, Err("invalid_state"))
  }

  // What the sender does with a frame that has arrived on its link.
  ghost function SenderAnswers(c: Config, x: SenderSide, peer: Endpoint, f: Frame): SenderSide {
    if f.frameType == Confirm then
      match SendConfirmation(c, x.s.state, x.link, peer)
      case None => x.(s := SenderFailed(x.s))
      case Some(l) => x.(link := l, s := x.s.(state := if x.s.state == Confirming
          && Confirmed(l) then Ready else x.s.state))
    else
      var (s', r) := SenderHandles(c, x.s, f);
      x.(s := if r.Ok? then s' else SenderFailed(s'))
  }

  // handleMessage. A message that was queued before the engine ended is still handled, so the state is not asked.
  ghost function SenderReceives(
      c: Config, x: SenderSide, peer: Endpoint, frame: Bytes, claimed: Option<Bytes>): SenderSide
  {
    if x.s.broken then x
    else
      var l := Do(x.link, peer, Receive(frame, claimed));
      var n := |x.link.end.delivered|;
      if |l.end.delivered| <= n then x.(link := l, s := SenderFailed(x.s))
      else SenderAnswers(c, x.(link := l), peer, l.end.delivered[n])
  }

  ghost function SenderStep(c: Config, x: SenderSide, peer: Endpoint, e: Event): SenderSide {
    match e
    case Start => var (state, l) := Started(c, x.s.state, x.link, peer); x.(s := x.s.(state := state), link := l)
    case SendFile =>
      if x.s.phase != NotStarted then x
      else if Ended(x.s.state) || x.s.completionSent || |c.file| > MAX_TRANSFER_BYTES then x.(s := x.s.(phase := Threw))
      else var (state, l) := Started(c, x.s.state, x.link, peer);
          x.(s := x.s.(state := state, phase := AwaitingConfirmation), link := l)
    case Advance(signature) => Advanced(c, x, peer, signature)
    case Throw => if x.s.phase.Returned? then x else x.(s := x.s.(phase := Threw))
    case Sign(message) => x.(signed := x.signed + {message})
    case AcceptFile => x
    case Message(frame, claimed) => SenderReceives(c, x, peer, frame, claimed)
    case Encrypted(counter, ciphertext, _) => x.(link := Do(x.link, peer, Seal(counter, ciphertext)))
    case Lost(counter) => x.(link := Do(x.link, peer, Lose(counter)))
    case SendTerminal(t, body) => var (state, l) := SentTerminal(c, x.s.state, x.link, peer, t, body);
        x.(s := x.s.(state := state), link := l)
    case Stop(state) => if Ended(state) then x.(s := Halted(x.s, state)) else x
  }

  // ----- The receiver -----

  // The receiver's hash object: what it has seen and whether its digest was taken.
  datatype Digest = Digest(input: Bytes, final: bool)

  datatype ReceivedFile = ReceivedFile(blob: Bytes, fileName: Text, mediaType: Text, byteCount: nat, sha256: Text)

  // `offerMessage` and `verified` are history: the signed message of the offer that was accepted as genuine, and the
  // completion record that passed every check, with the bytes it was checked against. `awaiting` is the file that
  // handleComplete stores once its receipt is encrypted.
  datatype Receiver = Receiver(
    state: State, accepted: bool, acceptanceSent: bool,
    offered: Option<TransferManifest>, manifest: Option<TransferManifest>, digest: Option<Digest>,
    chunks: seq<Bytes>, receivedBytes: nat, receivedChunks: nat, received: Option<ReceivedFile>, broken: bool,
    awaiting: Option<ReceivedFile>, offerMessage: Option<Bytes>, verified: Option<(CompleteCore, Bytes)>)

  datatype ReceiverSide = ReceiverSide(r: Receiver, link: Link)

  // cleanupReceiver
  function Cleaned(r: Receiver): Receiver {
    r.(chunks := [], digest := None, manifest := None, receivedBytes := 0, receivedChunks := 0)
  }

  function ReceiverFailed(r: Receiver): Receiver {
    (if Ended(r.state) then r else Cleaned(r).(state := Failed)).(broken := true)
  }

  predicate Verifies(c: Config, signed: set<Bytes>, message: Bytes, signature: Bytes) {
    message in signed && c.verifies(message, signature)
  }

  // handleFileOffer up to the acceptance
  ghost function HandleFileOffer(c: Config, r: Receiver, body: Bytes, signed: set<Bytes>): (Receiver, Result<()>) {
    if r.offered.Some? || r.manifest.Some? then (r, Err("invalid_state"))
    else
      match ParseCanonical(body)
      case Err(code) => (r, Err(code))
      case Ok(v) =>
        match OfferOf(c.host, v)
        case Err(code) => (r, Err(code))
        case Ok((core, manifest, signature)) =>
          if core.transferId != c.transferId then (r, Err("identity_mismatch"))
          else
            match CanonicalBytes(OfferJson(core))
            case Err(code) => (r, Err(code))
            case Ok(message) =>
              if !Verifies(c, signed, message, signature) then (r, Err("invalid_signature"))
              else (r.(offered := Some(manifest), offerMessage := Some(message)), Ok(()))
  }

  // handleManifest
  ghost function HandleManifest(c: Config, r: Receiver, body: Bytes): (Receiver, Result<()>) {
    if !r.accepted then (r, Err("not_accepted"))
    else if r.offered.None? then (r, Err("offer_required"))
    else if r.manifest.Some? then (r, Err("invalid_state"))
    else
      match ParseCanonical(body)
      case Err(code) => (r, Err(code))
      case Ok(v) =>
        match ManifestOf(c.host, v)
        case Err(code) => (r, Err(code))
        case Ok(m) =>
          var r' := r.(manifest := Some(m));
          if m.fileName != r.offered.value.fileName || m.mediaType != r.offered.value.mediaType
              || m.byteCount != r.offered.value.byteCount
          then (r', Err("offer_mismatch"))
          else (r'.(digest := Some(Digest([], false)), state := Receiving), Ok(()))
  }

  // handleChunk
  function HandleChunk(r: Receiver, chunk: Bytes): (Receiver, Result<()>) {
    if r.manifest.None? || r.digest.None? then (r, Err("invalid_state"))
    else if !ChunkFits(r.receivedBytes, |chunk|, r.manifest.value.byteCount, r.manifest.value.chunkSize)
        then (r, Err("invalid_chunk"))
    else if r.digest.value.final then (r, Err("digest_finalized"))
    else (r.(digest := Some(Digest(r.digest.value.input + chunk, false)), chunks := r.chunks + [chunk],
             receivedBytes := r.receivedBytes + |chunk|, receivedChunks := r.receivedChunks + 1), Ok(()))
  }

  // handleComplete up to its receipt, which it returns.
  ghost function HandleComplete(
      c: Config, r: Receiver, body: Bytes, signed: set<Bytes>): (Receiver, Result<TransferReceipt>)
  {
    if r.manifest.None? || r.digest.None? then (r, Err("invalid_state"))
    else
      match ParseCanonical(body)
      case Err(code) => (r, Err(code))
      case Ok(v) =>
        match CompleteOf(v)
        case Err(code) => (r, Err(code))
        case Ok((core, signature)) =>
          if core.transferId != c.transferId || core.byteCount != r.manifest.value.byteCount
             || core.chunkCount != r.receivedChunks || r.receivedBytes != r.manifest.value.byteCount
                 then (r, Err("digest_mismatch"))
          else if Decode(core.transcriptHash, DIGEST_BYTES) != Ok(c.transcriptHash) then (r, Err("transcript_mismatch"))
          else
            var r' := r.(digest := Some(Digest(r.digest.value.input, true)));
            if Decode(core.sha256, DIGEST_BYTES) != Ok(Sha256(r.digest.value.input)) then (r', Err("digest_mismatch"))
            else
              match CanonicalBytes(CompleteJson(core))
              case Err(code) => (r', Err(code))
              case Ok(message) =>
                if !Verifies(c, signed, message, signature) then (r', Err("invalid_signature"))
                else
                  var blob := Join(r.chunks);
                  var file := ReceivedFile(blob, r.manifest.value.fileName, r.manifest.value.mediaType,
                      r.receivedBytes, core.sha256);
                  (r'.(awaiting := Some(file), verified := Some((core, blob))),
                   Ok(TransferReceipt(c.transferId, r.receivedBytes, core.sha256)))
  }

  // accept
  ghost function Accepts(c: Config, x: ReceiverSide, peer: Endpoint): (ReceiverSide, Result<()>) {
    if x.r.offered.None? || x.r.manifest.Some? then (x, Err("invalid_state"))
    else
      var x' := x.(r := x.r.(accepted := true));
      if x.r.acceptanceSent then (x', Ok(()))
      else
        match SendFrame(x.r.state, x.link, peer, Frame(Accept, BodyOf(AcceptJson(c.transferId))))
        case None => (x', Err("invalid_state"))
        case Some(l) => (x'.(link := l), Ok(()))
  }

  // handleTerminalPayload
  ghost function ReceiverToldToStop(r: Receiver, f: Frame): (Receiver, Result<()>) {
    match TerminalPayload(f.plaintext, f.frameType)
    case Err(code) => (r, Err(code))
    case Ok(_) => (if Ended(r.state) then r else Cleaned(r).(state := Failed), Ok(()))
  }

  // The dispatch of handleMessage on a frame receiveFrame returned.
  ghost function ReceiverHandles(
      c: Config, x: ReceiverSide, peer: Endpoint, f: Frame, signed: set<Bytes>): (ReceiverSide, Result<()>)
  {
    match f.frameType
    case Confirm =>
      (match SendConfirmation(c, x.r.state, x.link, peer)
       case None => (x, Err("invalid_state"))
       case Some(l) => (x.(link := l, r := x.r.(state := if x.r.state == Confirming
           && Confirmed(l) then Ready else x.r.state)), Ok(())))
    case FileOffer =>
      var (r', result) := HandleFileOffer(c, x.r, f.plaintext, signed);
      if result.Ok? && r'.accepted then Accepts(c, x.(r := r'), peer) else (x.(r := r'), result)
    case Manifest => var (r', result) := HandleManifest(c, x.r, f.plaintext); (x.(r := r'), result)
    case Chunk => var (r', result) := HandleChunk(x.r, f.plaintext); (x.(r := r'), result)
    case Complete =>
      var (r', result) := HandleComplete(c, x.r, f.plaintext, signed);
      (match result
       case Err(code) => (x.(r := r'), Err(code))
       case Ok(receipt) =>
         match SendFrame(r'.state, x.link, peer, Frame(Receipt, BodyOf(ReceiptJson(receipt))))
         case None => (x.(r := r'), Err("invalid_state"))
         case Some(l) => (x.(r := r', link := l), Ok(())))
    case Cancel => var (r', result) := ReceiverToldToStop(x.r, f); (x.(r := r'), result)
    case Error => var (r', result) := ReceiverToldToStop(x.r, f); (x.(r := r'), result)
    case _ => (x, Err("invalid_state"))
  }

  ghost function ReceiverAnswers(
      c: Config, x: ReceiverSide, peer: Endpoint, f: Frame, signed: set<Bytes>): ReceiverSide
  {
    var (x', result) := ReceiverHandles(c, x, peer, f, signed);
    if result.Ok? then x' else x'.(r := ReceiverFailed(x'.r))
  }

  ghost function ReceiverReceives(
      c: Config, x: ReceiverSide, peer: Endpoint, signed: set<Bytes>, frame: Bytes,
          claimed: Option<Bytes>): ReceiverSide
  {
    if x.r.broken then x
    else
      var l := Do(x.link, peer, Receive(frame, claimed));
      var n := |x.link.end.delivered|;
      if |l.end.delivered| <= n then ReceiverSide(ReceiverFailed(x.r), l)
      else ReceiverAnswers(c, x.(link := l), peer, l.end.delivered[n], signed)
  }

  // What the waiting handler does once its frame is encrypted and written.
  ghost function Written(r: Receiver, f: Frame): Receiver {
    if f.frameType == Accept then r.(acceptanceSent := true)
    else if f.frameType == Receipt && r.awaiting.Some? then
      r.(received := r.awaiting, chunks := [], digest := None, state := Completed)
    else r
  }

  ghost function ReceiverStep(c: Config, x: ReceiverSide, peer: Endpoint, signed: set<Bytes>, e: Event): ReceiverSide {
    match e
    case Start => var (state, l) := Started(c, x.r.state, x.link, peer); ReceiverSide(x.r.(state := state), l)
    case AcceptFile => Accepts(c, x, peer).0
    case Message(frame, claimed) => ReceiverReceives(c, x, peer, signed, frame, claimed)
    case Encrypted(counter, ciphertext, wrote) =>
      var l := Do(x.link, peer, Seal(counter, ciphertext));
      var done := wrote && counter in x.link.end.drafts && counter in l.end.log;
      ReceiverSide(if done then Written(x.r, x.link.end.drafts[counter]) else x.r, l)
    case Lost(counter) => x.(link := Do(x.link, peer, Lose(counter)))
    case SendTerminal(t, body) => var (state, l) := SentTerminal(c, x.r.state, x.link, peer, t, body);
        ReceiverSide(x.r.(state := state), l)
    case Stop(state) => if Ended(state) then x.(r := Cleaned(x.r).(state := state)) else x
    case _ => x
  }

  // ----- Whole runs -----

  datatype System = System(sender: SenderSide, receiver: ReceiverSide)

  datatype Move = BySender(event: Event) | ByReceiver(event: Event)

  const NEW_SENDER := Sender(Idle, false, Unset, Unset, None, false, false, NotStarted, 0, [], [], [])

  function NewReceiver(c: Config): Receiver {
    Receiver(Idle, c.accepted, false, None, None, None, [], 0, 0, None, false, None, None, None)
  }

  function Beginning(c: Config): System {
    var ch := Fresh(c.transferId, c.confirmation, c.s2rPrefix, c.r2sPrefix);
    System(SenderSide(NEW_SENDER, Link(ch.sender, []), {}), ReceiverSide(NewReceiver(c), Link(ch.receiver, [])))
  }

  ghost function Next(c: Config, y: System, m: Move): System {
    match m
    case BySender(e) => y.(sender := SenderStep(c, y.sender, y.receiver.link.end, e))
    case ByReceiver(e) => y.(receiver := ReceiverStep(c, y.receiver, y.sender.link.end, y.sender.signed, e))
  }

  ghost function After(c: Config, moves: seq<Move>): System {
    hide Next, Beginning;
    if moves == [] then Beginning(c) else Next(c, After(c, moves[..|moves| - 1]), moves[|moves| - 1])
  }
}
