/** How a transfer stops before its end: the peer's cancel or error frame, a message that does not pass, and what an
    engine that has ended still holds (frontend/src/fileTransfer.ts). */
module FileStops {
  import opened Outcomes
  import opened Bytes
  import opened Utf
  import opened JsonText
  import opened Records
  import opened Base64Url
  import opened Sha256Spec
  import opened SignedObjects
  import opened Payloads
  import opened PayloadSizes
  import opened FrameHeader
  import opened FrameStream
  import opened FrameChannel
  import opened ChunkSplit
  import opened FileEngine
  import opened FileSafety
  import opened FileDelivery
  import opened FileRun

  // Everything that cleanupReceiver drops is gone.
  predicate Emptied(r: Receiver) {
    r.chunks == [] && r.digest == None && r.manifest == None && r.receivedBytes == 0 && r.receivedChunks == 0
  }

  // ----- The payload of a cancellation -----

  function KindOf(t: FrameType): string { if t == Cancel then "cancel" else "error" }

  // The frame that sendTerminalFrame makes for a code.
  function StopFrame(t: FrameType, code: Text): Frame {
    Frame(t, BodyOf(TerminalJson(TextOf(KindOf(t)), code)))
  }

  lemma {:induction false} CodeIsPrintable(code: Text)
    requires PlainCode(code)
    ensures Printable(Str(code))
  {
    AsciiIsClean(code);
  }

  lemma {:induction false} StopIsPrintable(t: FrameType, code: Text)
    requires PlainCode(code)
    ensures Printable(TerminalJson(TextOf(KindOf(t)), code))
  {
    hide Record, TerminalKeys, TextOf, WellFormed;
    CodeIsPrintable(code);
    TextIsWellFormed(KindOf(t));
    RecordIsPrintable(TerminalKeys(), [Num(1), Str(TextOf(KindOf(t))), Str(code)]);
  }

  /** The payload of a cancel or error frame is read back with its code. */
  lemma {:induction false} StopIsRead(t: FrameType, code: Text)
    requires (t == Cancel || t == Error) && PlainCode(code)
    ensures TerminalPayload(StopFrame(t, code).plaintext, t) == Ok(code)
  {
    hide ParseCanonical, TerminalOf, TerminalJson, TextOf;
    StopIsPrintable(t, code);
    BodyParses(TerminalJson(TextOf(KindOf(t)), code));
    TerminalExactly(TerminalJson(TextOf(KindOf(t)), code), TextOf(KindOf(t)),
                    if t == Cancel then "remote_cancel" else "remote_error", code);
  }

  lemma {:induction false} StopFits(t: FrameType, code: Text)
    requires (t == Cancel || t == Error) && PlainCode(code)
    ensures Fits(StopFrame(t, code).plaintext)
  {
    hide Print, Printable, Record, TerminalKeys, BodyOf, TextOf;
    NumberSize(1);
    TextLength(KindOf(t));
    StopIsPrintable(t, code);
    TextIsWellFormed(KindOf(t));
    CodeIsPrintable(code);
    TextSize(TextOf(KindOf(t)), 64);
    TextSize(code, 64);
    RecordSize(TerminalKeys(), [Num(1), Str(TextOf(KindOf(t))), Str(code)], 386);
    SmallFits(TerminalJson(TextOf(KindOf(t)), code));
  }

  // ----- One message -----

  /** A cancel or error frame that reaches a receiver that has not ended fails it and drops the file. The receive queue
      breaks only if the payload is malformed. */
  lemma {:induction false} ReceiverIsStopped(c: Config, x: ReceiverSide, peer: Endpoint, f: Frame, signed: set<Bytes>)
    requires IsTerminal(f) && !Ended(x.r.state)
    ensures var y := ReceiverAnswers(c, x, peer, f, signed);
            && y.link == x.link && y.r.state == Failed && Emptied(y.r) && y.r.received == x.r.received
            && (y.r.broken <==> x.r.broken || TerminalPayload(f.plaintext, f.frameType).Err?)
  {
    hide TerminalPayload;
  }

  /** At the sender it also rejects whatever sendFile waits for. */
  lemma {:induction false} SenderIsStopped(c: Config, x: SenderSide, peer: Endpoint, f: Frame)
    requires IsTerminal(f) && !Ended(x.s.state)
    ensures var y := SenderAnswers(c, x, peer, f);
            && y.link == x.link && y.s.state == Failed && !y.s.acceptance.Pending? && !y.s.receipt.Pending?
            && (x.s.acceptance.Pending? ==> y.s.acceptance.Rejected?)
               && (x.s.receipt.Pending? ==> y.s.receipt.Rejected?)
            && (y.s.broken <==> x.s.broken || TerminalPayload(f.plaintext, f.frameType).Err?)
  {
    hide TerminalPayload;
  }

  /** A message that receiveFrame refuses fails a receiver that has not ended; no later message changes it. */
  lemma {:induction false} RefusedMessageFails(
      c: Config, x: ReceiverSide, peer: Endpoint, signed: set<Bytes>, frame: Bytes, claimed: Option<Bytes>,
      later: Bytes, claimedLater: Option<Bytes>, peer': Endpoint, signed': set<Bytes>)
    requires !x.r.broken && |Do(x.link, peer, Receive(frame, claimed)).end.delivered| <= |x.link.end.delivered|
    ensures var y := ReceiverReceives(c, x, peer, signed, frame, claimed);
            && y.r.broken && Ended(y.r.state) && (!Ended(x.r.state) ==> y.r.state == Failed && Emptied(y.r))
            && ReceiverReceives(c, y, peer', signed', later, claimedLater) == y
  {
    hide Do, ReceiverAnswers;
  }

  // ----- Every run -----

  // The last frame is a cancellation or an error.
  predicate Stopped(d: seq<Frame>) { d != [] && IsTerminal(d[|d| - 1]) }

  lemma {:induction false} OnlyStopsFollow(d: seq<Frame>, f: Frame, direction: Direction)
    requires InOrder(Types(d + [f]), direction) && Stopped(d)
    ensures IsTerminal(f)
  {
    var ts := Types(d + [f]);
    assert ts[|ts| - 1] == f.frameType && ts[..|ts| - 1][|d| - 1] == d[|d| - 1].frameType;
  }

  // Once there was a cancellation the last frame is one.
  lemma {:induction false} StopIsLast(d: seq<Frame>, i: nat, direction: Direction)
    requires InOrder(Types(d), direction) && i < |d| && IsTerminal(d[i])
    ensures Stopped(d)
    decreases |d|
  {
    if i < |d| - 1 {
      var init := d[..|d| - 1];
      assert Types(d)[..|d| - 1] == Types(init) && d == init + [d[|d| - 1]];
      StopIsLast(init, i, direction);
      OnlyStopsFollow(init, d[|d| - 1], direction);
    }
  }

  // What an engine that has ended must not hold.
  predicate LetGo(r: Receiver) { Ended(r.state) ==> r.chunks == [] && r.digest == None }

  ghost predicate ReceiverRests(x: ReceiverSide) {
    LetGo(x.r) && (x.r.broken || Stopped(x.link.end.delivered) ==> Ended(x.r.state))
  }

  lemma {:induction false} OfferLetsGo(c: Config, r: Receiver, body: Bytes, signed: set<Bytes>)
    requires LetGo(r)
    ensures var r' := HandleFileOffer(c, r, body, signed).0; LetGo(r') && r'.broken == r.broken
  {
    hide ParseCanonical, OfferOf, CanonicalBytes, OfferJson, Verifies;
  }

  lemma {:induction false} ManifestLetsGo(c: Config, r: Receiver, body: Bytes)
    requires LetGo(r)
    ensures var r' := HandleManifest(c, r, body).0; LetGo(r') && r'.broken == r.broken
  {
    hide ParseCanonical, ManifestOf;
  }

  lemma {:induction false} ChunkLetsGo(r: Receiver, body: Bytes)
    requires LetGo(r)
    ensures var r' := HandleChunk(r, body).0; LetGo(r') && r'.broken == r.broken
  {
    hide ChunkFits;
  }

  lemma {:induction false} CompleteLetsGo(c: Config, r: Receiver, body: Bytes, signed: set<Bytes>)
    requires LetGo(r)
    ensures var r' := HandleComplete(c, r, body, signed).0; LetGo(r') && r'.broken == r.broken
  {
    hide CompleteJson, ParseCanonical, CompleteOf, CanonicalBytes, Verifies, Decode, Sha256, Join;
  }

  lemma {:induction false} AcceptsLetsGo(c: Config, x: ReceiverSide, peer: Endpoint)
    requires LetGo(x.r)
    ensures var y := Accepts(c, x, peer).0; LetGo(y.r) && y.r.broken == x.r.broken && y.r.state == x.r.state
  {
    hide SendFrame, BodyOf, AcceptJson;
  }

  lemma {:induction false} HandlesLetsGo(c: Config, x: ReceiverSide, peer: Endpoint, f: Frame, signed: set<Bytes>)
    requires LetGo(x.r) && !IsTerminal(f)
    ensures var y := ReceiverHandles(c, x, peer, f, signed).0; LetGo(y.r) && y.r.broken == x.r.broken
  {
    hide HandleFileOffer, HandleManifest, HandleChunk, HandleComplete, Accepts, SendConfirmation, SendFrame, Confirmed,
         BodyOf, ReceiptJson, LetGo;
    match f.frameType
    case Confirm =>
      StartingLetsGo(x.r, Ready);
    case FileOffer =>
      OfferLetsGo(c, x.r, f.plaintext, signed);
      var r' := HandleFileOffer(c, x.r, f.plaintext, signed).0;
      AcceptsLetsGo(c, x.(r := r'), peer);
    case Manifest => ManifestLetsGo(c, x.r, f.plaintext);
    case Chunk => ChunkLetsGo(x.r, f.plaintext);
    case Complete => CompleteLetsGo(c, x.r, f.plaintext, signed);
    case _ =>
  }

  lemma {:induction false} StartingLetsGo(r: Receiver, state: State)
    requires LetGo(r) && !Ended(state)
    ensures LetGo(r.(state := state))
  {
  }

  lemma {:induction false} FailedLetsGo(r: Receiver)
    requires LetGo(r)
    ensures LetGo(ReceiverFailed(r)) && Ended(ReceiverFailed(r).state)
  {
  }

  lemma {:induction false} StoppingLetsGo(c: Config, x: ReceiverSide, peer: Endpoint, f: Frame, signed: set<Bytes>)
    requires LetGo(x.r) && IsTerminal(f)
    ensures var y := ReceiverAnswers(c, x, peer, f, signed); LetGo(y.r) && Ended(y.r.state)
  {
    hide TerminalPayload;
  }

  // A frame that passes on to its handler.
  lemma {:induction false} AnswersLetsGo(c: Config, x: ReceiverSide, peer: Endpoint, f: Frame, signed: set<Bytes>)
    requires !x.r.broken && LetGo(x.r)
    ensures var y := ReceiverAnswers(c, x, peer, f, signed);
            LetGo(y.r) && (y.r.broken || IsTerminal(f) ==> Ended(y.r.state))
  {
    if IsTerminal(f) {
      StoppingLetsGo(c, x, peer, f, signed);
    } else {
      hide ReceiverHandles, ReceiverFailed, LetGo, Ended;
      HandlesLetsGo(c, x, peer, f, signed);
      FailedLetsGo(ReceiverHandles(c, x, peer, f, signed).0.r);
    }
  }

  // Nothing but a message changes what was delivered.
  lemma {:induction false} ActDelivers(l: Link, peer: Endpoint, a: Act)
    requires a.Create? || a.Seal? || a.Lose?
    ensures Do(l, peer, a).end.delivered == l.end.delivered
  {
    hide EncodeFrameHeader, FrameNonce, CreateError;
  }

  lemma {:induction false} SendDelivers(state: State, l: Link, peer: Endpoint, f: Frame)
    ensures var r := SendFrame(state, l, peer, f); r.Some? ==> r.value.end.delivered == l.end.delivered
  {
    hide Do;
    ActDelivers(l, peer, Create(f.frameType, f.plaintext));
  }

  lemma {:induction false} ConfirmationDelivers(c: Config, state: State, l: Link, peer: Endpoint)
    ensures var r := SendConfirmation(c, state, l, peer); r.Some? ==> r.value.end.delivered == l.end.delivered
  {
    hide SendFrame;
    SendDelivers(state, l, peer, Frame(Confirm, c.confirmation));
  }

  lemma {:induction false} StartDelivers(c: Config, state: State, l: Link, peer: Endpoint)
    ensures var (state', l') := Started(c, state, l, peer);
            l'.end.delivered == l.end.delivered && (Ended(state') <==> Ended(state))
  {
    hide SendConfirmation;
    ConfirmationDelivers(c, Confirming, l, peer);
    ConfirmationDelivers(c, state, l, peer);
  }

  lemma {:induction false} TerminalDelivers(
      c: Config, state: State, l: Link, peer: Endpoint, t: FrameType, body: Bytes)
    ensures var (state', l') := SentTerminal(c, state, l, peer, t, body);
            l'.end.delivered == l.end.delivered && (Ended(state') <==> Ended(state))
  {
    hide Started, SendFrame;
    StartDelivers(c, state, l, peer);
    var (state', l') := Started(c, state, l, peer);
    SendDelivers(state', l', peer, Frame(t, body));
  }

  lemma {:induction false} AnswerDelivers(c: Config, x: ReceiverSide, peer: Endpoint, f: Frame, signed: set<Bytes>)
    ensures ReceiverAnswers(c, x, peer, f, signed).link.end.delivered == x.link.end.delivered
  {
    hide HandleFileOffer, HandleManifest, HandleChunk, HandleComplete, SendConfirmation, SendFrame, Confirmed,
         BodyOf, ReceiptJson, AcceptJson, ReceiverToldToStop, ReceiverFailed;
    match f.frameType
    case Confirm => ConfirmationDelivers(c, x.r.state, x.link, peer);
    case FileOffer =>
      var r' := HandleFileOffer(c, x.r, f.plaintext, signed).0;
      SendDelivers(r'.state, x.link, peer, Frame(Accept, BodyOf(AcceptJson(c.transferId))));
    case Complete =>
      var (r', result) := HandleComplete(c, x.r, f.plaintext, signed);
      if result.Ok? { SendDelivers(r'.state, x.link, peer, Frame(Receipt, BodyOf(ReceiptJson(result.value)))); }
    case _ =>
  }

  // At most one frame is delivered at a time, and after a cancellation only another one.
  lemma {:induction false} NextDelivery(l: Link, peer: Endpoint, a: Act)
    requires Joined(l.end, peer) && Tracks(l)
    ensures var d, d' := l.end.delivered, Do(l, peer, a).end.delivered;
            && |d| <= |d'| <= |d| + 1 && d <= d' && (|d'| == |d| ==> d' == d)
            && (|d'| > |d| && Stopped(d) ==> Stopped(d')) && (|d'| > |d| ==> (Stopped(d') <==> IsTerminal(d'[|d|])))
  {
    hide Do, CountersOk, SamePeers, InspectedOk, IsPrefix, Tracks, InOrder, IsTerminal;
    var l' := Do(l, peer, a);
    DoEvolves(l, peer, a);
    OneMoreDelivered(l, peer, a);
    var d, d' := l.end.delivered, l'.end.delivered;
    if |d'| > |d| {
      assert d' == d + [d'[|d|]];
      if Stopped(d) { OnlyStopsFollow(d, d'[|d|], Opposite(l'.end.stream.direction)); }
    }
  }

  lemma {:induction false} ReceivesRests(
      c: Config, x: ReceiverSide, peer: Endpoint, signed: set<Bytes>, frame: Bytes, claimed: Option<Bytes>)
    requires ReceiverRests(x) && Joined(x.link.end, peer) && Tracks(x.link)
    ensures ReceiverRests(ReceiverReceives(c, x, peer, signed, frame, claimed))
  {
    hide Do, Joined, Tracks, ReceiverAnswers, ReceiverFailed, LetGo, Ended, IsTerminal, Stopped;
    if !x.r.broken {
      NextDelivery(x.link, peer, Receive(frame, claimed));
      var l := Do(x.link, peer, Receive(frame, claimed));
      var n := |x.link.end.delivered|;
      if |l.end.delivered| <= n {
        FailedLetsGo(x.r);
      } else {
        AnswersLetsGo(c, x.(link := l), peer, l.end.delivered[n], signed);
        AnswerDelivers(c, x.(link := l), peer, l.end.delivered[n], signed);
      }
    }
  }

  lemma {:induction false} ReceiverStepRests(
      c: Config, x: ReceiverSide, peer: Endpoint, signed: set<Bytes>, e: Event)
    requires ReceiverRests(x) && Joined(x.link.end, peer) && Tracks(x.link)
    ensures ReceiverRests(ReceiverStep(c, x, peer, signed, e))
  {
    hide Do, Joined, Tracks, ReceiverReceives, Started, SentTerminal, Stopped, SendFrame;
    match e
    case Start => StartDelivers(c, x.r.state, x.link, peer);
    case AcceptFile =>
      SendDelivers(x.r.state, x.link, peer, Frame(Accept, BodyOf(AcceptJson(c.transferId))));
    case Message(frame, claimed) => ReceivesRests(c, x, peer, signed, frame, claimed);
    case Encrypted(counter, ciphertext, _) => ActDelivers(x.link, peer, Seal(counter, ciphertext));
    case Lost(counter) => ActDelivers(x.link, peer, Lose(counter));
    case SendTerminal(t, body) => TerminalDelivers(c, x.r.state, x.link, peer, t, body);
    case _ =>
  }

  // ----- The sender -----

  // An engine that has ended leaves sendFile waiting for nothing.
  predicate NoneWaits(s: Sender) {
    && (Ended(s.state) ==> !(s.phase == AwaitingAcceptance && s.acceptance.Pending?)
                           && !(s.phase == AwaitingReceipt && s.receipt.Pending?))
    && (s.completionSent ==> s.phase == AwaitingReceipt || s.phase.Returned? || s.phase == Threw)
  }

  ghost predicate SenderRests(x: SenderSide) {
    NoneWaits(x.s) && (x.s.broken || Stopped(x.link.end.delivered) ==> Ended(x.s.state))
  }

  lemma {:induction false} HandlesWaits(c: Config, s: Sender, f: Frame)
    requires NoneWaits(s)
    ensures var s' := SenderHandles(c, s, f).0; NoneWaits(s') && s'.broken == s.broken
    ensures var (s', r) := SenderHandles(c, s, f); IsTerminal(f) && r.Ok? ==> Ended(s'.state)
  {
    hide ParseCanonical, AcceptOf, ReceiptOf, TerminalPayload;
  }

  lemma {:induction false} FailedWaits(s: Sender)
    requires NoneWaits(s)
    ensures NoneWaits(SenderFailed(s)) && Ended(SenderFailed(s).state)
  {
  }

  lemma {:induction false} AnswersWaits(c: Config, x: SenderSide, peer: Endpoint, f: Frame)
    requires !x.s.broken && NoneWaits(x.s)
    ensures var y := SenderAnswers(c, x, peer, f);
            && NoneWaits(y.s) && (y.s.broken || IsTerminal(f) ==> Ended(y.s.state))
            && y.link.end.delivered == x.link.end.delivered
  {
    hide SenderHandles, SendConfirmation, SenderFailed;
    if f.frameType == Confirm {
      ConfirmationDelivers(c, x.s.state, x.link, peer);
      FailedWaits(x.s);
    } else {
      HandlesWaits(c, x.s, f);
      FailedWaits(SenderHandles(c, x.s, f).0);
    }
  }

  lemma {:induction false} SenderReceivesRests(
      c: Config, x: SenderSide, peer: Endpoint, frame: Bytes, claimed: Option<Bytes>)
    requires SenderRests(x) && Joined(x.link.end, peer) && Tracks(x.link)
    ensures SenderRests(SenderReceives(c, x, peer, frame, claimed))
  {
    hide Do, Joined, Tracks, SenderAnswers, SenderFailed, NoneWaits, Ended, IsTerminal, Stopped;
    if !x.s.broken {
      NextDelivery(x.link, peer, Receive(frame, claimed));
      var l := Do(x.link, peer, Receive(frame, claimed));
      var n := |x.link.end.delivered|;
      if |l.end.delivered| <= n {
        FailedWaits(x.s);
      } else {
        AnswersWaits(c, x.(link := l), peer, l.end.delivered[n]);
      }
    }
  }

  // One frame of sendFile.
  lemma {:induction false} SendNextRests(x: SenderSide, peer: Endpoint, f: Frame, next: Sender)
    requires x.s.broken == next.broken && (x.s.broken || Stopped(x.link.end.delivered) ==> Ended(next.state))
    requires next.completionSent ==> next.phase == AwaitingReceipt
    ensures SenderRests(SendNext(x, peer, f, next))
  {
    hide Do, CreateError, Stopped, Confirmed;
    ActDelivers(x.link, peer, Create(f.frameType, f.plaintext));
  }

  lemma {:induction false} AdvancedRests(c: Config, x: SenderSide, peer: Endpoint, signature: Bytes)
    requires SenderRests(x)
    ensures SenderRests(Advanced(c, x, peer, signature))
  {
    hide SendNext, BodyOf, OfferJson, SignedJson, CompleteJson, CanonicalBytes, ManifestJson, OfferOfFile,
         ManifestOfFile, Completion, Stopped, Confirmed;
    forall y: SenderSide, f: Frame, next: Sender {:trigger SendNext(y, peer, f, next)} |
      && y.s.broken == next.broken && (y.s.broken || Stopped(y.link.end.delivered) ==> Ended(next.state))
      && (next.completionSent ==> next.phase == AwaitingReceipt)
      ensures SenderRests(SendNext(y, peer, f, next))
    {
      SendNextRests(y, peer, f, next);
    }
  }

  lemma {:induction false} SenderStepRests(c: Config, x: SenderSide, peer: Endpoint, e: Event)
    requires SenderRests(x) && Joined(x.link.end, peer) && Tracks(x.link)
    ensures SenderRests(SenderStep(c, x, peer, e))
  {
    hide Do, Joined, Tracks, SenderReceives, Advanced, Started, SentTerminal, Stopped;
    match e
    case Start => StartDelivers(c, x.s.state, x.link, peer);
    case SendFile => StartDelivers(c, x.s.state, x.link, peer);
    case Advance(signature) => AdvancedRests(c, x, peer, signature);
    case Message(frame, claimed) => SenderReceivesRests(c, x, peer, frame, claimed);
    case Encrypted(counter, ciphertext, _) => ActDelivers(x.link, peer, Seal(counter, ciphertext));
    case Lost(counter) => ActDelivers(x.link, peer, Lose(counter));
    case SendTerminal(t, body) => TerminalDelivers(c, x.s.state, x.link, peer, t, body);
    case _ =>
  }

  // ----- Every run -----

  ghost predicate Rests(y: System) { SenderRests(y.sender) && ReceiverRests(y.receiver) }

  lemma {:induction false} NextRests(c: Config, y: System, m: Move)
    requires c.chunkSize > 0 && SystemOk(c, y) && Rests(y)
    ensures Rests(Next(c, y, m))
  {
    hide Joined, Tracks, Scripted, ReceiptOk, Buffered, Current, DoneOk, SenderStep, ReceiverStep, SenderRests,
         ReceiverRests;
    match m
    case BySender(e) => SenderStepRests(c, y.sender, y.receiver.link.end, e);
    case ByReceiver(e) => ReceiverStepRests(c, y.receiver, y.sender.link.end, y.sender.signed, e);
  }

  lemma {:induction false} RunRests(c: Config, moves: seq<Move>)
    requires ValidConfig(c)
    ensures Rests(After(c, moves))
  {
    if moves == [] {
      assert Rests(Beginning(c));
    } else {
      hide SystemOk, Next, Beginning, Rests;
      var before := moves[..|moves| - 1];
      RunOk(c, before);
      RunRests(c, before);
      NextRests(c, After(c, before), moves[|moves| - 1]);
    }
  }

  /** In every run, an engine that has ended holds no chunk and no hash, and leaves no sendFile call waiting for an
      acceptance or a receipt. */
  lemma {:induction false} EndedHoldsNothing(c: Config, moves: seq<Move>)
    requires ValidConfig(c)
    ensures var y := After(c, moves);
            && (Ended(y.receiver.r.state) ==> y.receiver.r.chunks == [] && y.receiver.r.digest == None)
            && (Ended(y.sender.s.state) ==> !(y.sender.s.phase == AwaitingAcceptance && y.sender.s.acceptance.Pending?)
                                            && !(y.sender.s.phase == AwaitingReceipt && y.sender.s.receipt.Pending?))
  {
    hide After, Stopped;
    RunRests(c, moves);
  }

  lemma {:induction false} GotStops(e: Endpoint, t: FrameType)
    requires (t == Cancel || t == Error) && Got(e, t) && InOrder(Types(e.delivered), Opposite(e.stream.direction))
    ensures Stopped(e.delivered)
  {
    hide InOrder, Stopped;
    var i :| 0 <= i < |e.delivered| && e.delivered[i].frameType == t;
    StopIsLast(e.delivered, i, Opposite(e.stream.direction));
  }

  /** In every run, an engine to which a cancel or error frame was ever delivered has ended and stays so, and so has
      one whose receive queue broke. */
  lemma {:induction false} StopsAreFinal(c: Config, moves: seq<Move>)
    requires ValidConfig(c)
    ensures var y := After(c, moves);
            && (Got(y.receiver.link.end, Cancel) || Got(y.receiver.link.end, Error) || y.receiver.r.broken
                ==> Ended(y.receiver.r.state))
            && (Got(y.sender.link.end, Cancel) || Got(y.sender.link.end, Error) || y.sender.s.broken
                ==> Ended(y.sender.s.state))
  {
    hide After, Stopped, LetGo, NoneWaits, Tracks, Scripted, ReceiptOk, Buffered, Current, DoneOk, CountersOk,
         SamePeers,
         InspectedOk, IsPrefix, InOrder, Got;
    RunRests(c, moves);
    RunOk(c, moves);
    var y := After(c, moves);
    forall e: Endpoint, t: FrameType | (e == y.receiver.link.end || e == y.sender.link.end)
        && (t == Cancel || t == Error)
                                       && Got(e, t)
      ensures Stopped(e.delivered)
    {
      GotStops(e, t);
    }
  }

  // ----- The end -----

  lemma {:induction false} HandlesStaysEnded(c: Config, s: Sender, f: Frame)
    requires Ended(s.state)
    ensures Ended(SenderHandles(c, s, f).0.state)
  {
    hide ParseCanonical, AcceptOf, ReceiptOf, TerminalPayload;
  }

  lemma {:induction false} AnswersStaysEnded(c: Config, x: SenderSide, peer: Endpoint, f: Frame)
    requires Ended(x.s.state)
    ensures Ended(SenderAnswers(c, x, peer, f).s.state)
  {
    hide SenderHandles, SendConfirmation, Confirmed;
    HandlesStaysEnded(c, x.s, f);
  }

  lemma {:induction false} AdvancedStaysEnded(c: Config, x: SenderSide, peer: Endpoint, signature: Bytes)
    requires Ended(x.s.state)
    ensures Ended(Advanced(c, x, peer, signature).s.state)
  {
    hide SendFrame, BodyOf, OfferJson, SignedJson, CompleteJson, CanonicalBytes, ManifestJson, OfferOfFile,
         ManifestOfFile, Completion, Confirmed;
  }

  lemma {:induction false} SenderStaysEnded(c: Config, x: SenderSide, peer: Endpoint, e: Event)
    requires Ended(x.s.state)
    ensures Ended(SenderStep(c, x, peer, e).s.state)
  {
    hide Do, SenderAnswers, Advanced, Started, SentTerminal;
    match e
    case Start => StartDelivers(c, x.s.state, x.link, peer);
    case SendFile => StartDelivers(c, x.s.state, x.link, peer);
    case Advance(signature) => AdvancedStaysEnded(c, x, peer, signature);
    case Message(frame, claimed) =>
      var l := Do(x.link, peer, Receive(frame, claimed));
      var n := |x.link.end.delivered|;
      if |l.end.delivered| > n { AnswersStaysEnded(c, x.(link := l), peer, l.end.delivered[n]); }
    case SendTerminal(t, body) => TerminalDelivers(c, x.s.state, x.link, peer, t, body);
    case _ =>
  }

  /** A sender that has ended has ended for good, however the run goes on. */
  lemma {:induction false} SenderEndsForGood(c: Config, moves: seq<Move>, more: seq<Move>)
    requires Ended(After(c, moves).sender.s.state)
    ensures Ended(After(c, moves + more).sender.s.state)
    decreases |more|
  {
    hide SenderStep, ReceiverStep, Beginning, Ended;
    if more == [] {
      assert moves + more == moves;
    } else {
      var init, m := more[..|more| - 1], more[|more| - 1];
      assert (moves + more)[..|moves + more| - 1] == moves + init && (moves + more)[|moves + more| - 1] == m;
      SenderEndsForGood(c, moves, init);
      var y := After(c, moves + init);
      if m.BySender? { SenderStaysEnded(c, y.sender, y.receiver.link.end, m.event); }
    }
  }

  // A manifest that is still handled after the end.
  ghost predicate LateManifest(c: Config, x: ReceiverSide, f: Frame) {
    f.frameType == Manifest && HandleManifest(c, x.r, f.plaintext).1.Ok?
  }

  lemma {:induction false} OfferStays(c: Config, r: Receiver, body: Bytes, signed: set<Bytes>)
    ensures HandleFileOffer(c, r, body, signed).0.state == r.state
  {
    hide ParseCanonical, OfferOf, CanonicalBytes, OfferJson, Verifies;
  }

  /** The receiver does not: of all the messages that can still be in its queue when it ends, exactly a manifest that
      passes every check sets it to receiving again. */
  lemma {:induction false} ReceiverRevivesExactly(
      c: Config, x: ReceiverSide, peer: Endpoint, f: Frame, signed: set<Bytes>)
    requires Ended(x.r.state)
    ensures Ended(ReceiverAnswers(c, x, peer, f, signed).r.state) <==> !LateManifest(c, x, f)
  {
    hide HandleFileOffer, HandleComplete, HandleManifest, SendConfirmation, SendFrame, Confirmed, BodyOf, ReceiptJson,
         AcceptJson, TerminalPayload, ChunkFits;
    OfferStays(c, x.r, f.plaintext, signed);
    CompletionKeeps(c, x.r, f.plaintext, signed);
    ManifestStays(c, x.r, f.plaintext);
  }

  lemma {:induction false} ManifestStays(c: Config, r: Receiver, body: Bytes)
    ensures var (r', result) := HandleManifest(c, r, body); r'.state == if result.Ok? then Receiving else r.state
  {
    hide ParseCanonical, ManifestOf;
  }

  lemma {:induction false} AfterMoved(c: Config, moves: seq<Move>, more: seq<Move>)
    ensures After(c, moves + more) == Moved(c, After(c, moves), more)
  {
    hide After, Moved;
    AfterIsMoved(c, moves);
    AfterIsMoved(c, moves + more);
    MovedAppend(c, Beginning(c), moves, more);
  }

  // Closing the receiver and what the sender does do not get in each other's way.
  lemma {:induction false} StopCommutes(c: Config, y: System, e: Event)
    ensures Next(c, Next(c, y, ByReceiver(Stop(Closed))), BySender(e))
         == Next(c, Next(c, y, BySender(e)), ByReceiver(Stop(Closed)))
    ensures Next(c, y, ByReceiver(Stop(Closed))).receiver.r.state == Closed
  {
    hide SenderStep;
  }

  // The receiver is closed between its acceptance and the manifest.
  lemma {:induction false} ClosedWhileWaiting(c: Config, y: System) returns (y': System)
    requires Reachable(c, y) && IsAccepted(c, y)
    ensures y' == Next(c, y, ByReceiver(Stop(Closed)))
    ensures y' == y.(receiver := y'.receiver) && y'.receiver.link == y.receiver.link
    ensures y'.receiver.r == Cleaned(y.receiver.r).(state := Closed) && FileRun.Paired(c, y')
  {
    hide Reachable, InStep, AfterOffer;
    y' := Next(c, y, ByReceiver(Stop(Closed)));
  }

  lemma {:induction false} ManifestRevives(c: Config, x: ReceiverSide, peer: Endpoint, signed: set<Bytes>)
    requires Announceable(c) && x.r == Cleaned(AfterOffer(c).(acceptanceSent := true)).(state := Closed) && c.accepted
    ensures ReceiverAnswers(c, x, peer, ManifestFrame(c), signed).r.state == Receiving
  {
    hide HandleManifest, BodyOf, ManifestJson, OfferJson, Announceable;
    ManifestTaken(c, x.r);
  }

  // The state of the receiver after a run, and after the same run gone on.
  ghost predicate Revived(c: Config, moves: seq<Move>, more: seq<Move>) {
    After(c, moves).receiver.r.state == Closed && After(c, moves + more).receiver.r.state == Receiving
  }

  lemma {:induction false} RevivingMoves(c: Config, y: System) returns (moves: seq<Move>)
    requires Announceable(c) && c.accepted && IsAccepted(c, y.(receiver
             := y.receiver.(r := AfterOffer(c).(acceptanceSent := true))))
    requires y.receiver.r == Cleaned(AfterOffer(c).(acceptanceSent := true)).(state := Closed) && FileRun.Paired(c, y)
    ensures |moves| == 2 && moves[0].BySender?
    ensures Moved(c, y, [BySender(Advance([]))] + moves).receiver.r.state == Receiving
  {
    hide InStep, Sendable, Do, ReceiverAnswers, Announceable, Advanced, BodyOf, Next, ManifestFrame, AfterOffer, Moved;
    var f := ManifestFrame(c);
    FrameTypes(c, []);
    ConfirmedBothWays(y);
    ManifestIsSent(c, y.sender, y.receiver.link.end);
    AdvanceNext(c, y, []);
    var x := Advanced(c, y.sender, y.receiver.link.end, []);
    SenderDelivers(c, y, x, f, Sealing(f));
    var y' := Moved(c, y.(sender := x), SenderMoves(y, f, Sealing(f)));
    ManifestRevives(c, ReceiverSide(y.receiver.r, Given(y.receiver.link, f)), y'.sender.link.end, x.signed);
    moves := SenderMoves(y, f, Sealing(f));
    OneMoveMore(c, y, BySender(Advance([])), moves);
  }

  lemma {:induction false} OneMoveMore(c: Config, y: System, m: Move, more: seq<Move>)
    ensures Moved(c, y, [m] + more) == Moved(c, Next(c, y, m), more)
  {
    hide Next;
    assert ([m] + more)[1..] == more;
  }

  /** For every announceable file there is a run in which the receiver is closed when the sender's manifest has been
      sent, and handling the manifest sets it to receiving again. */
  lemma {:induction false} ClosedReceiverCanRevive(c: Config, signature: Bytes)
    requires Announceable(c) && c.accepted && OfferSigned(c, signature)
    ensures exists moves, more :: Revived(c, moves, more)
  {
    hide *;
    AnnounceableIsValid(c);
    var open := Opening(c);
    var offered, unanswered := Offering(c, open, signature);
    var accepted := Accepting(c, offered, unanswered);
    var closed := ClosedWhileWaiting(c, accepted);
    AcceptedReceiver(c, accepted, closed);
    var moves := RevivingMoves(c, closed);
    assert [BySender(Advance([]))] + moves == [BySender(Advance([])), BySender(moves[0].event), moves[1]];
    RevivedByRun(c, accepted, moves[0].event, moves[1]);
  }

  lemma {:induction false} AcceptedReceiver(c: Config, y: System, y': System)
    requires IsAccepted(c, y) && y' == y.(receiver := y'.receiver) && y'.receiver.link == y.receiver.link
    requires y'.receiver.r == Cleaned(y.receiver.r).(state := Closed)
    ensures IsAccepted(c, y'.(receiver := y'.receiver.(r := AfterOffer(c).(acceptanceSent := true))))
    ensures y'.receiver.r == Cleaned(AfterOffer(c).(acceptanceSent := true)).(state := Closed)
  {
    hide InStep, AfterOffer;
    assert y'.(receiver := y'.receiver.(r := AfterOffer(c).(acceptanceSent := true))) == y;
  }

  lemma {:induction false} RevivedByRun(c: Config, y: System, e: Event, m: Move)
    requires Reachable(c, y)
    requires Moved(c, Next(c, y, ByReceiver(Stop(Closed))), [BySender(Advance([])), BySender(e), m]).receiver.r.state
          == Receiving
    ensures exists moves, more :: Revived(c, moves, more)
  {
    hide After, Next;
    var before :| After(c, before) == y;
    var advance, stop := Advance([]), ByReceiver(Stop(Closed));
    var y1, y2 := Next(c, y, BySender(advance)), Next(c, Next(c, y, BySender(advance)), BySender(e));
    StopCommutes(c, y, advance);
    StopCommutes(c, y1, e);
    StopCommutes(c, y2, e);
    var moves := before + [BySender(advance), BySender(e), stop];
    AfterMoved(c, before, [BySender(advance), BySender(e), stop]);
    AfterMoved(c, moves, [m]);
    ThreeMoves(c, y, BySender(advance), BySender(e), stop);
    ThreeMoves(c, Next(c, y, stop), BySender(advance), BySender(e), m);
    OneMoveMore(c, After(c, moves), m, []);
    assert [m] + [] == [m];
    assert Revived(c, moves, [m]);
  }

  lemma {:induction false} ThreeMoves(c: Config, y: System, a: Move, b: Move, d: Move)
    ensures Moved(c, y, [a, b, d]) == Next(c, Next(c, Next(c, y, a), b), d)
  {
    hide Next;
    assert [a, b, d] == [a] + [b, d];
    OneMoveMore(c, y, a, [b, d]);
    TwoMoves(c, Next(c, y, a), [b, d]);
  }

  // ----- Consent -----

  lemma {:induction false} OfferConsents(c: Config, r: Receiver, body: Bytes, signed: set<Bytes>)
    ensures HandleFileOffer(c, r, body, signed).0.accepted == r.accepted
  {
    hide ParseCanonical, OfferOf, CanonicalBytes, OfferJson, Verifies;
  }

  lemma {:induction false} CompleteConsents(c: Config, r: Receiver, body: Bytes, signed: set<Bytes>)
    ensures HandleComplete(c, r, body, signed).0.accepted == r.accepted
  {
    hide CompleteJson, ParseCanonical, CompleteOf, CanonicalBytes, Verifies, Decode, Sha256, Join;
  }

  // No message accepts a file for the user.
  lemma {:induction false} AnswersConsents(c: Config, x: ReceiverSide, peer: Endpoint, f: Frame, signed: set<Bytes>)
    ensures ReceiverAnswers(c, x, peer, f, signed).r.accepted == x.r.accepted
  {
    hide HandleFileOffer, HandleComplete, SendConfirmation, SendFrame, Confirmed, BodyOf, ReceiptJson, AcceptJson,
         TerminalPayload, ParseCanonical, ManifestOf, ChunkFits;
    OfferConsents(c, x.r, f.plaintext, signed);
    CompleteConsents(c, x.r, f.plaintext, signed);
  }

  lemma {:induction false} StepConsents(c: Config, x: ReceiverSide, peer: Endpoint, signed: set<Bytes>, e: Event)
    ensures ReceiverStep(c, x, peer, signed, e).r.accepted ==> x.r.accepted || e.AcceptFile?
  {
    hide Do, ReceiverAnswers, Started, SentTerminal, SendFrame;
    match e
    case Message(frame, claimed) =>
      var l := Do(x.link, peer, Receive(frame, claimed));
      var n := |x.link.end.delivered|;
      if |l.end.delivered| > n { AnswersConsents(c, x.(link := l), peer, l.end.delivered[n], signed); }
    case _ =>
  }

  /** In every run a file is accepted only if the engine was set up to accept or the user accepted it; with
      NothingIsSentBeforeAcceptance, nothing of it is sent before. */
  lemma {:induction false} AcceptanceIsTheUsers(c: Config, moves: seq<Move>)
    requires After(c, moves).receiver.r.accepted
    ensures c.accepted || ByReceiver(AcceptFile) in moves
  {
    if moves == [] {
      assert After(c, moves) == Beginning(c);
    } else {
      hide SenderStep, ReceiverStep, Beginning;
      var init, m := moves[..|moves| - 1], moves[|moves| - 1];
      var y := After(c, init);
      assert m in moves;
      if m.ByReceiver? { StepConsents(c, y.receiver, y.sender.link.end, y.sender.signed, m.event); }
      if y.receiver.r.accepted { AcceptanceIsTheUsers(c, init); }
    }
  }

  // ----- A cancellation gets through -----

  lemma {:induction false} StopIsSent(c: Config, y: System, t: FrameType, code: Text)
    requires (t == Cancel || t == Error) && PlainCode(code) && FileRun.Paired(c, y) && Confirmed(y.sender.link)
    requires !Ended(y.sender.s.state) && y.sender.s.state != Idle
    requires 0 < y.sender.link.end.stream.sendNext <= MAX_FRAME_COUNTER
    requires SequenceTypeAllowed(y.sender.link.end.stream.sentType, t, S2R)
    ensures var f := StopFrame(t, code);
            && Sendable(y.sender.link.end, f, Sealing(f))
            && SenderStep(c, y.sender, y.receiver.link.end, SendTerminal(t, f.plaintext))
               == y.sender.(link := Do(y.sender.link, y.receiver.link.end, Create(t, f.plaintext)))
  {
    hide Do, CreateError, InStep, BodyOf, TerminalJson, PlainCode, TextOf;
    StopFits(t, code);
    Allowed(y.sender.link.end.stream, t, StopFrame(t, code).plaintext);
  }

  /** From any state in which both engines work, the sender's cancellation, encrypted and delivered, fails the receiver
      and drops what it had of the file. */
  lemma {:induction false} StopReachesReceiver(c: Config, y: System, t: FrameType, code: Text)
    requires (t == Cancel || t == Error) && PlainCode(code) && FileRun.Paired(c, y) && Confirmed(y.sender.link)
    requires !Ended(y.sender.s.state) && y.sender.s.state != Idle && !Ended(y.receiver.r.state)
    requires 0 < y.sender.link.end.stream.sendNext <= MAX_FRAME_COUNTER
    requires SequenceTypeAllowed(y.sender.link.end.stream.sentType, t, S2R)
    ensures var f := StopFrame(t, code);
            var x := Next(c, y, BySender(SendTerminal(t, f.plaintext)));
            var r := Moved(c, x, SenderMoves(y, f, Sealing(f))).receiver.r;
            r.state == Failed && Emptied(r) && !r.broken && r.received == y.receiver.r.received
  {
    hide Do, Moved, Next, InStep, Sendable, SenderStep, ReceiverAnswers, BodyOf, TerminalJson, PlainCode, TextOf,
         TerminalPayload, Confirmed, SequenceTypeAllowed;
    var f := StopFrame(t, code);
    StopIsSent(c, y, t, code);
    SenderNext(c, y, SendTerminal(t, f.plaintext));
    var x := SenderStep(c, y.sender, y.receiver.link.end, SendTerminal(t, f.plaintext));
    SenderDelivers(c, y, x, f, Sealing(f));
    var y' := Moved(c, y.(sender := x), SenderMoves(y, f, Sealing(f)));
    ReceiverIsStopped(c, ReceiverSide(y.receiver.r, Given(y.receiver.link, f)), y'.sender.link.end, f, x.signed);
    StopIsRead(t, code);
  }
}
