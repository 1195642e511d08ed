/** When sendFile goes on, and what it leaves alone (frontend/src/fileTransfer.ts). */
module FileSending {
  import opened Outcomes
  import opened Bytes
  import opened Utf
  import opened JsonText
  import opened Records
  import opened Base64Url
  import opened Sha256Spec
  import opened SignedObjects
  import opened Payloads
  import opened FrameHeader
  import opened FrameStream
  import opened FrameChannel
  import opened ChunkSplit
  import opened FileEngine
  import opened FileSafety
  import opened FileStops

  // ----- One step -----

  /** A first call of sendFile fails at once exactly when the engine has ended, has sent a completion record before, or
      the file is larger than 250 MiB; a second call is not made. */
  lemma {:induction false} SendFileStartsExactly(c: Config, x: SenderSide, peer: Endpoint)
    ensures var y := SenderStep(c, x, peer, SendFile);
            if x.s.phase != NotStarted then y == x
            else if Ended(x.s.state) || x.s.completionSent || |c.file| > 262144000
                 then y.s.phase == Threw && y.link == x.link && y.s.state == x.s.state
            else y.s.phase == AwaitingConfirmation
  {
    hide Started;
  }

  // What sendFile waits for has happened: both confirmations; the acceptance; its last frame is encrypted; the receipt.
  ghost predicate MayGoOn(x: SenderSide) {
    match x.s.phase
    case AwaitingConfirmation => x.link.end.stream.sentConfirmation && x.link.end.stream.receivedConfirmation
    case AwaitingAcceptance => x.s.inFlight in x.link.end.log && x.s.acceptance.Resolved?
    case Sending(_, _) => x.s.inFlight in x.link.end.log
    case AwaitingReceipt => x.s.inFlight in x.link.end.log && x.s.receipt.Resolved?
    case _ => false
  }

  /** sendFile goes on exactly when what it waits for has happened. */
  lemma {:induction false} GoesOnExactly(c: Config, x: SenderSide, peer: Endpoint, signature: Bytes)
    requires c.chunkSize > 0
    ensures Advanced(c, x, peer, signature) != x <==> MayGoOn(x)
  {
    hide SendFrame, BodyOf, OfferJson, SignedJson, CompleteJson, CanonicalBytes, ManifestJson, OfferOfFile,
         ManifestOfFile, Completion;
  }

  // ----- Every run -----

  predicate OfFile(t: FrameType) { t == FileOffer || t == Manifest || t == Chunk || t == Complete }

  // Only the last frame of sendFile can still be waiting for its encryption.
  ghost predicate OneInFlight(x: SenderSide) {
    && (forall n :: n in x.link.end.drafts && OfFile(x.link.end.drafts[n].frameType) ==> n == x.s.inFlight)
    && (x.s.phase == NotStarted || x.s.phase == AwaitingConfirmation ==>
          forall n :: n in x.link.end.drafts ==> !OfFile(x.link.end.drafts[n].frameType))
  }

  // Nothing of the file is added to what waits.
  ghost predicate NoMoreDrafts(e: Endpoint, e': Endpoint) {
    forall n :: n in e'.drafts && OfFile(e'.drafts[n].frameType) ==> n in e.drafts && e'.drafts[n] == e.drafts[n]
  }

  lemma {:induction false} ActDrafts(l: Link, peer: Endpoint, a: Act)
    requires a.Create? ==> !OfFile(a.frameType)
    ensures CountersOk(l.end) ==> NoMoreDrafts(l.end, Do(l, peer, a).end)
  {
    hide EncodeFrameHeader, FrameNonce, CreateError, Inspect, Received, Opened, Admit, SplitFrame;
  }

  lemma {:induction false} SendDrafts(state: State, l: Link, peer: Endpoint, f: Frame)
    requires !OfFile(f.frameType) && CountersOk(l.end)
    ensures var r := SendFrame(state, l, peer, f);
            r.Some? ==> NoMoreDrafts(l.end, r.value.end) && CountersOk(r.value.end)
  {
    hide Do, NoMoreDrafts, CountersOk;
    ActDrafts(l, peer, Create(f.frameType, f.plaintext));
    ActCounts(l, peer, Create(f.frameType, f.plaintext));
  }

  lemma {:induction false} ActCounts(l: Link, peer: Endpoint, a: Act)
    requires CountersOk(l.end)
    ensures CountersOk(Do(l, peer, a).end)
  {
    hide Acted, CountersOk;
    ActKeepsCounters(l.end, peer, a);
  }

  lemma {:induction false} ConfirmationDrafts(c: Config, state: State, l: Link, peer: Endpoint)
    requires CountersOk(l.end)
    ensures var r := SendConfirmation(c, state, l, peer);
            r.Some? ==> NoMoreDrafts(l.end, r.value.end) && CountersOk(r.value.end)
  {
    hide SendFrame, CountersOk;
    SendDrafts(state, l, peer, Frame(Confirm, c.confirmation));
  }

  lemma {:induction false} StartDrafts(c: Config, state: State, l: Link, peer: Endpoint)
    requires CountersOk(l.end)
    ensures NoMoreDrafts(l.end, Started(c, state, l, peer).1.end) && CountersOk(Started(c, state, l, peer).1.end)
  {
    hide SendConfirmation, CountersOk;
    ConfirmationDrafts(c, Confirming, l, peer);
    ConfirmationDrafts(c, state, l, peer);
  }

  lemma {:induction false} TerminalDrafts(
      c: Config, state: State, l: Link, peer: Endpoint, t: FrameType, body: Bytes)
    requires CountersOk(l.end)
    ensures NoMoreDrafts(l.end, SentTerminal(c, state, l, peer, t, body).1.end)
  {
    hide Started, SendFrame, CountersOk;
    StartDrafts(c, state, l, peer);
    var (state', l') := Started(c, state, l, peer);
    if t == Cancel || t == Error { SendDrafts(state', l', peer, Frame(t, body)); }
  }

  lemma {:induction false} SenderReceiveDrafts(
      c: Config, x: SenderSide, peer: Endpoint, frame: Bytes, claimed: Option<Bytes>)
    requires CountersOk(x.link.end)
    ensures var y := SenderReceives(c, x, peer, frame, claimed);
            NoMoreDrafts(x.link.end, y.link.end) && y.s.phase == x.s.phase && y.s.inFlight == x.s.inFlight
  {
    hide Do, SendConfirmation, SenderHandles, CountersOk;
    if !x.s.broken {
      var l := Do(x.link, peer, Receive(frame, claimed));
      ActDrafts(x.link, peer, Receive(frame, claimed));
      ActCounts(x.link, peer, Receive(frame, claimed));
      ConfirmationDrafts(c, x.s.state, l, peer);
      var n := |x.link.end.delivered|;
      if |l.end.delivered| > n { HandlesPhase(c, x.s, l.end.delivered[n]); }
    }
  }

  lemma {:induction false} HandlesPhase(c: Config, s: Sender, f: Frame)
    ensures var s' := SenderHandles(c, s, f).0;
            s'.phase == s.phase && s'.inFlight == s.inFlight && s'.sent == s.sent
  {
    hide ParseCanonical, AcceptOf, ReceiptOf, TerminalPayload;
  }

  // The next frame of sendFile is made when no other waits.
  lemma {:induction false} NextInFlight(x: SenderSide, peer: Endpoint, f: Frame, next: Sender)
    requires CountersOk(x.link.end) && next.phase != NotStarted && next.phase != AwaitingConfirmation
    requires forall n :: n in x.link.end.drafts ==> !OfFile(x.link.end.drafts[n].frameType)
    ensures OneInFlight(SendNext(x, peer, f, next))
  {
    hide EncodeFrameHeader, FrameNonce, CreateError, Confirmed, CountersOk;
  }

  lemma {:induction false} NoneWaiting(x: SenderSide)
    requires OneInFlight(x) && CountersOk(x.link.end)
    requires x.s.inFlight in x.link.end.log || x.s.phase == AwaitingConfirmation
    ensures forall n :: n in x.link.end.drafts ==> !OfFile(x.link.end.drafts[n].frameType)
  {
  }

  lemma {:induction false} AdvanceInFlight(c: Config, x: SenderSide, peer: Endpoint, signature: Bytes)
    requires OneInFlight(x) && CountersOk(x.link.end)
    ensures OneInFlight(Advanced(c, x, peer, signature))
  {
    hide SendNext, BodyOf, OfferJson, SignedJson, CompleteJson, CanonicalBytes, ManifestJson, OfferOfFile,
         ManifestOfFile, Completion, CountersOk;
    if MayGoOn(x) {
      NoneWaiting(x);
      forall y: SenderSide, f: Frame, next: Sender {:trigger SendNext(y, peer, f, next)} |
        y.link == x.link && next.phase != NotStarted && next.phase != AwaitingConfirmation
        ensures OneInFlight(SendNext(y, peer, f, next))
      {
        NextInFlight(y, peer, f, next);
      }
    }
  }

  lemma {:induction false} SenderStepInFlight(c: Config, x: SenderSide, peer: Endpoint, e: Event)
    requires OneInFlight(x) && CountersOk(x.link.end)
    ensures OneInFlight(SenderStep(c, x, peer, e))
  {
    hide Do, SenderReceives, Advanced, Started, SentTerminal, CountersOk;
    match e
    case Start => StartDrafts(c, x.s.state, x.link, peer);
    case SendFile => StartDrafts(c, x.s.state, x.link, peer);
    case Advance(signature) => AdvanceInFlight(c, x, peer, signature);
    case Message(frame, claimed) => SenderReceiveDrafts(c, x, peer, frame, claimed);
    case Encrypted(counter, ciphertext, _) => ActDrafts(x.link, peer, Seal(counter, ciphertext));
    case Lost(counter) => ActDrafts(x.link, peer, Lose(counter));
    case SendTerminal(t, body) => TerminalDrafts(c, x.s.state, x.link, peer, t, body);
    case _ =>
  }

  /** In every run, sendFile has at most one frame waiting for its encryption, its last: it makes the next one only when
      that is done. */
  lemma {:induction false} OneFrameAtATime(c: Config, moves: seq<Move>)
    requires ValidConfig(c)
    ensures OneInFlight(After(c, moves).sender)
  {
    if moves == [] {
      assert OneInFlight(Beginning(c).sender);
    } else {
      hide SenderStep, ReceiverStep, Beginning, OneInFlight, Tracks, Scripted, ReceiptOk, ReceiverOk, CountersOk;
      var init, m := moves[..|moves| - 1], moves[|moves| - 1];
      OneFrameAtATime(c, init);
      RunOk(c, init);
      var y := After(c, init);
      if m.BySender? { SenderStepInFlight(c, y.sender, y.receiver.link.end, m.event); }
    }
  }

  // A sendFile call that never got anywhere.
  lemma {:induction false} StepKeepsIdle(c: Config, x: SenderSide, peer: Endpoint, e: Event)
    requires |c.file| > 262144000 && (x.s.phase == NotStarted || x.s.phase == Threw)
    ensures var y := SenderStep(c, x, peer, e).s; (y.phase == NotStarted || y.phase == Threw) && y.sent == x.s.sent
  {
    hide Do, SenderAnswers, Started, SentTerminal;
    match e
    case Message(frame, claimed) =>
      var l := Do(x.link, peer, Receive(frame, claimed));
      var n := |x.link.end.delivered|;
      if |l.end.delivered| > n { AnswersIdle(c, x.(link := l), peer, l.end.delivered[n]); }
    case _ =>
  }

  lemma {:induction false} AnswersIdle(c: Config, x: SenderSide, peer: Endpoint, f: Frame)
    ensures var y := SenderAnswers(c, x, peer, f).s; y.phase == x.s.phase && y.sent == x.s.sent
  {
    hide SenderHandles, SendConfirmation, Confirmed;
    HandlesPhase(c, x.s, f);
  }

  /** Of a file larger than 250 MiB nothing is ever sent, not even its offer. */
  lemma {:induction false} TooLargeIsNeverSent(c: Config, moves: seq<Move>)
    requires |c.file| > 262144000
    ensures var s := After(c, moves).sender.s; s.sent == [] && (s.phase == NotStarted || s.phase == Threw)
  {
    if moves == [] {
      assert After(c, moves) == Beginning(c);
    } else {
      hide SenderStep, ReceiverStep, Beginning;
      var init, m := moves[..|moves| - 1], moves[|moves| - 1];
      TooLargeIsNeverSent(c, init);
      var y := After(c, init);
      if m.BySender? { StepKeepsIdle(c, y.sender, y.receiver.link.end, m.event); }
    }
  }
}
