/** A run of the two engines in which any announceable file goes through. */
module FileRun {
  import opened Outcomes
  import opened Bytes
  import opened Utf
  import opened JsonText
  import opened Records
  import opened Base64Url
  import opened Sha256Spec
  import opened ChunkSplit
  import opened SignedObjects
  import opened Payloads
  import opened PayloadSizes
  import opened FrameHeader
  import opened Uuids
  import opened FrameStream
  import opened FrameChannel
  import opened FileEngine
  import opened FileDelivery

  // ----- The payloads fit -----

  predicate Fits(body: Bytes) { |body| <= MAX_FRAME_PLAINTEXT_BYTES }

  lemma {:induction false} SmallFits(v: Json)
    requires Printable(v) && |Print(v)| <= 21845
    ensures Fits(BodyOf(v))
  {
    hide Print, Printable, Utf8, CanonicalBytes;
    BodyFits(v);
  }

  lemma {:induction false} SignedFits(core: Json, signature: Bytes)
    requires Printable(core) && |Print(core)| <= 10300 && |signature| == SIGNATURE_BYTES
    ensures Fits(BodyOf(SignedJson(core, signature)))
  {
    hide Print, Printable, Encode, Record, SignedKeys, BodyOf;
    Base64Size(signature);
    RecordSize(SignedKeys(), [core, Str(Encode(signature))], 10300);
    SignedIsPrintable(core, signature);
    SmallFits(SignedJson(core, signature));
  }

  lemma {:induction false} OfferFits(c: Config, signature: Bytes)
    requires Announceable(c) && |signature| == SIGNATURE_BYTES
    ensures Fits(BodyOf(SignedJson(OfferJson(OfferOfFile(c)), signature)))
  {
    hide Print, Printable, Record, OfferKeys, BodyOf, Utf8, TextOf, SignedJson, WellFormed;
    Utf8Length(c.fileName);
    Utf8Length(c.mediaType);
    NumberSize(1);
    NumberSize(|c.file|);
    TextLength("file_offer");
    TextSize(FILE_OFFER, 255);
    TextSize(c.transferId, 255);
    TextSize(c.fileName, 255);
    TextSize(c.mediaType, 255);
    var values := [Num(1), Str(FILE_OFFER), Str(c.transferId), Str(c.fileName), Str(c.mediaType), Num(|c.file|)];
    RecordSize(OfferKeys(), values, 1532);
    PayloadsArePrintable(c);
    SignedFits(OfferJson(OfferOfFile(c)), signature);
  }

  lemma {:induction false} ManifestFits(c: Config)
    requires Announceable(c)
    ensures Fits(BodyOf(ManifestJson(ManifestOfFile(c))))
  {
    hide Print, Printable, Record, ManifestKeys, BodyOf, Utf8, WellFormed, IsUuid;
    Utf8Length(c.fileName);
    Utf8Length(c.mediaType);
    NumberSize(|c.file|);
    NumberSize(c.chunkSize);
    TextSize(c.fileName, 255);
    TextSize(c.mediaType, 255);
    RecordSize(ManifestKeys(), [Str(c.fileName), Str(c.mediaType), Num(|c.file|), Num(c.chunkSize)], 1532);
    PayloadsArePrintable(c);
    SmallFits(ManifestJson(ManifestOfFile(c)));
  }

  lemma {:induction false} AcceptFits(c: Config)
    requires Announceable(c)
    ensures Fits(BodyOf(AcceptJson(c.transferId))) && Printable(AcceptJson(c.transferId))
  {
    hide Print, Printable, Record, AcceptKeys, BodyOf, Utf8, TextOf, WellFormed;
    NumberSize(1);
    TextLength("file_accept");
    TextSize(FILE_ACCEPT, 255);
    TextSize(c.transferId, 255);
    TextsArePrintable(c.transferId);
    OneIsPrintable();
    RecordIsPrintable(AcceptKeys(), [Num(1), Str(FILE_ACCEPT), Str(c.transferId)]);
    RecordSize(AcceptKeys(), [Num(1), Str(FILE_ACCEPT), Str(c.transferId)], 1532);
    SmallFits(AcceptJson(c.transferId));
  }

  lemma {:induction false} OneIsPrintable()
    ensures Printable(Num(1))
  {
  }

  lemma {:induction false} CompleteFits(c: Config, count: nat, signature: Bytes)
    requires Announceable(c) && count <= |c.file| && |signature| == SIGNATURE_BYTES
    ensures Fits(BodyOf(SignedJson(CompleteJson(Completion(c, count)), signature)))
  {
    hide Print, Printable, Record, CompleteKeys, BodyOf, Utf8, TextOf, SignedJson, WellFormed, Encode, Sha256;
    NumberSize(1);
    NumberSize(|c.file|);
    NumberSize(count);
    TextLength("file_complete");
    TextSize(FILE_COMPLETE, 64);
    TextSize(c.transferId, 64);
    Base64Size(Sha256(c.file));
    Base64Size(c.transcriptHash);
    var core := Completion(c, count);
    var values := [Num(1), Str(FILE_COMPLETE), Str(c.transferId), Num(|c.file|), Num(count), Str(core.sha256),
        Str(core.transcriptHash)];
    RecordSize(CompleteKeys(), values, 386);
    ResultsArePrintable(c, count);
    SignedFits(CompleteJson(core), signature);
  }

  function ReceiptOfFile(c: Config): TransferReceipt {
    TransferReceipt(c.transferId, |c.file|, Encode(Sha256(c.file)))
  }

  lemma {:induction false} ReceiptFits(c: Config)
    requires Announceable(c)
    ensures Fits(BodyOf(ReceiptJson(ReceiptOfFile(c))))
  {
    hide Print, Printable, Record, ReceiptKeys, BodyOf, Utf8, TextOf, WellFormed, Encode, Sha256;
    NumberSize(1);
    NumberSize(|c.file|);
    TextLength("file_receipt");
    TextLength("verified");
    TextSize(FILE_RECEIPT, 64);
    TextSize(VERIFIED, 64);
    TextSize(c.transferId, 64);
    Base64Size(Sha256(c.file));
    var r := ReceiptOfFile(c);
    var values := [Num(1), Str(FILE_RECEIPT), Str(r.transferId), Num(r.byteCount), Str(r.sha256), Str(VERIFIED)];
    RecordSize(ReceiptKeys(), values, 386);
    ResultsArePrintable(c, 0);
    SmallFits(ReceiptJson(r));
  }

  // ----- One frame goes over -----

  // Everything `e` has sent has been delivered to its peer.
  ghost predicate InStep(e: Endpoint, peer: Endpoint) {
    && CountersOk(e) && SamePeers(peer, e) && IsUuid(e.stream.transferId)
    && peer.stream.receiveNext == e.stream.sendNext && peer.stream.receivedType == e.stream.sentType
    && peer.stream.receivedConfirmation == e.stream.sentConfirmation
       && peer.stream.confirmation == e.stream.confirmation
  }

  // A frame that `e` can send next, and a ciphertext for it.
  predicate Sendable(e: Endpoint, f: Frame, ciphertext: Bytes) {
    && CreateError(e.stream, f.frameType, f.plaintext).None? && Fits(f.plaintext)
    && |ciphertext| == |f.plaintext| + FRAME_TAG_BYTES
  }

  function AfterReceiving(s: Stream, t: FrameType): Stream {
    s.(receiveNext := s.receiveNext + 1, receivedConfirmation := true, receivedType := Some(t))
  }

  ghost function Wire(e: Endpoint, f: Frame, ciphertext: Bytes): Bytes {
    if EncodeFrameHeader(HeaderOf(e.stream, f.frameType, e.stream.sendNext, |f.plaintext|)).Ok?
    then OnTheWire(e.stream, f.frameType, e.stream.sendNext, f.plaintext, ciphertext) else []
  }

  ghost function Delivery(peer: Endpoint, f: Frame): Endpoint {
    peer.(stream := AfterReceiving(peer.stream, f.frameType), delivered := peer.delivered + [f])
  }

  lemma {:induction false} ExpectedState(s: Stream, peer: Stream, t: FrameType, n: nat, body: Bytes, ciphertext: Bytes)
    requires EncodeFrameHeader(HeaderOf(s, t, n, |body|)).Ok? && |ciphertext| == |body| + FRAME_TAG_BYTES
    requires Received(peer, OnTheWire(s, t, n, body, ciphertext), Some(body)).1.Ok?
    ensures Received(peer, OnTheWire(s, t, n, body, ciphertext), Some(body)).0 == AfterReceiving(peer, t)
  {
    WireFrameSplits(s, t, n, body, ciphertext);
    hide EncodeFrameHeader, SplitFrame, OnTheWire, SequenceTypeAllowed;
  }

  lemma {:induction false} Transmitted(e: Endpoint, peer: Endpoint, f: Frame, ciphertext: Bytes)
    requires InStep(e, peer) && Sendable(e, f, ciphertext)
    ensures var n := e.stream.sendNext;
            var e' := Acted(Acted(e, peer, Create(f.frameType, f.plaintext)), peer, Seal(n, ciphertext));
            && Acted(peer, e', Receive(Wire(e, f, ciphertext), Some(f.plaintext))) == Delivery(peer, f)
            && n in e'.log && e'.stream == Applied(e.stream.(sendNext := n + 1), f.frameType)
            && e'.delivered == e.delivered && e'.prefix == e.prefix && CountersOk(e')
            && n in Acted(e, peer, Create(f.frameType, f.plaintext)).drafts
            && Acted(e, peer, Create(f.frameType, f.plaintext)).drafts[n] == f
            && Acted(e, peer, Create(f.frameType, f.plaintext)).stream.sendNext == n + 1
  {
    var t, body, n := f.frameType, f.plaintext, e.stream.sendNext;
    SealedFrame(e, peer, t, body, ciphertext);
    var e1 := Acted(e, peer, Create(t, body));
    var e' := Acted(e1, peer, Seal(n, ciphertext));
    ActKeepsCounters(e, peer, Create(t, body));
    ActKeepsCounters(e1, peer, Seal(n, ciphertext));
    ActKeepsHalves(e, peer, Create(t, body));
    ActKeepsHalves(e1, peer, Seal(n, ciphertext));
    SealedOpens(e', e.stream, t, n, body, ciphertext);
    ExpectedIsReceived(e.stream, peer.stream, t, n, body, ciphertext);
    ExpectedState(e.stream, peer.stream, t, n, body, ciphertext);
    ReceiveResult(peer, e', Wire(e, f, ciphertext), f);
  }

  lemma {:induction false} ReceiveResult(peer: Endpoint, e: Endpoint, frame: Bytes, f: Frame)
    requires Opened(e, frame, Some(f.plaintext)) == Some(f.plaintext)
    requires Received(peer.stream, frame, Some(f.plaintext)) == (AfterReceiving(peer.stream, f.frameType), Ok(f))
    ensures Acted(peer, e, Receive(frame, Some(f.plaintext))) == Delivery(peer, f)
  {
    hide Opened, Received;
  }

  lemma {:induction false} StillInStep(e: Endpoint, peer: Endpoint, f: Frame, e': Endpoint)
    requires InStep(e, peer) && InStep(peer, e) && CountersOk(e') && e'.prefix == e.prefix
    requires e'.stream == Applied(e.stream.(sendNext := e.stream.sendNext + 1), f.frameType)
    requires f.frameType == Confirm || e.stream.sentConfirmation
    ensures InStep(e', Delivery(peer, f)) && InStep(Delivery(peer, f), e')
  {
  }

  // Both directions are in step and both engines work.
  ghost predicate Paired(c: Config, y: System) {
    var e, p := y.sender.link.end, y.receiver.link.end;
    && InStep(e, p) && InStep(p, e) && e.stream.direction == S2R && p.stream.direction == R2S
    && e.stream.confirmation == Some(c.confirmation) && !y.sender.s.broken && !y.receiver.r.broken
  }

  // The two moves by which a frame that was made at one end reaches the other.
  ghost function SenderMoves(y: System, f: Frame, ciphertext: Bytes): seq<Move> {
    [BySender(Encrypted(y.sender.link.end.stream.sendNext, ciphertext, true)),
     ByReceiver(Message(Wire(y.sender.link.end, f, ciphertext), Some(f.plaintext)))]
  }

  ghost function ReceiverMoves(y: System, f: Frame, ciphertext: Bytes): seq<Move> {
    [ByReceiver(Encrypted(y.receiver.link.end.stream.sendNext, ciphertext, true)),
     BySender(Message(Wire(y.receiver.link.end, f, ciphertext), Some(f.plaintext)))]
  }

  ghost function Moved(c: Config, y: System, moves: seq<Move>): System
    decreases |moves|
  {
    hide Next;
    if moves == [] then y else Moved(c, Next(c, y, moves[0]), moves[1..])
  }

  // The receiver's link once it has the frame, before it answers.
  ghost function Given(l: Link, f: Frame): Link {
    l.(end := Delivery(l.end, f))
  }

  // `y` is the system before the frame was made, `x` the sender after it.
  lemma {:induction false} SenderDelivers(c: Config, y: System, x: SenderSide, f: Frame, ciphertext: Bytes)
    requires Paired(c, y) && Sendable(y.sender.link.end, f, ciphertext)
    requires x.link == Do(y.sender.link, y.receiver.link.end, Create(f.frameType, f.plaintext))
    ensures var y' := Moved(c, y.(sender := x), SenderMoves(y, f, ciphertext));
            var e, n := y.sender.link.end, y.sender.link.end.stream.sendNext;
            && y'.sender == x.(link := y'.sender.link) && n in y'.sender.link.end.log
            && y'.sender.link.end.stream == Applied(e.stream.(sendNext := n + 1), f.frameType)
            && InStep(y'.sender.link.end, Delivery(y.receiver.link.end, f))
               && InStep(Delivery(y.receiver.link.end, f), y'.sender.link.end)
            && y'.receiver == ReceiverAnswers(c, ReceiverSide(y.receiver.r, Given(y.receiver.link, f)),
               y'.sender.link.end, f, x.signed)
  {
    hide Acted, ReceiverAnswers, CreateError, InStep, Wire, Moved;
    var e, p := y.sender.link.end, y.receiver.link.end;
    assert f.frameType == Confirm || e.stream.sentConfirmation by { NeedsConfirmation(e.stream, f); }
    Transmitted(e, p, f, ciphertext);
    var n := e.stream.sendNext;
    var e' := Acted(Acted(e, p, Create(f.frameType, f.plaintext)), p, Seal(n, ciphertext));
    StillInStep(e, p, f, e');
    var moves := SenderMoves(y, f, ciphertext);
    var y1 := Next(c, y.(sender := x), moves[0]);
    var y2 := Next(c, y1, moves[1]);
    TwoMoves(c, y.(sender := x), moves);
    assert y1.sender.link.end == e' && y1.receiver == y.receiver;
    assert Do(y.receiver.link, e', Receive(Wire(e, f, ciphertext), Some(f.plaintext))) == Given(y.receiver.link, f);
  }

  lemma {:induction false} TwoMoves(c: Config, y: System, moves: seq<Move>)
    requires |moves| == 2
    ensures Moved(c, y, moves) == Next(c, Next(c, y, moves[0]), moves[1])
  {
    hide Next;
    assert moves[1..] == [moves[1]] && [moves[1]][1..] == [];
    assert Moved(c, Next(c, y, moves[0]), [moves[1]]) == Moved(c, Next(c, Next(c, y, moves[0]), moves[1]), []);
  }

  lemma {:induction false} NeedsConfirmation(s: Stream, f: Frame)
    requires CreateError(s, f.frameType, f.plaintext).None?
    ensures f.frameType == Confirm || s.sentConfirmation
  {
  }

  // The same in the other direction.
  lemma {:induction false} ReceiverDelivers(c: Config, y: System, x: ReceiverSide, f: Frame, ciphertext: Bytes)
    requires Paired(c, y) && Sendable(y.receiver.link.end, f, ciphertext)
    requires x.link == Do(y.receiver.link, y.sender.link.end, Create(f.frameType, f.plaintext))
    ensures var y' := Moved(c, y.(receiver := x), ReceiverMoves(y, f, ciphertext));
            var p, n := y.receiver.link.end, y.receiver.link.end.stream.sendNext;
            && y'.receiver.r == Written(x.r, f)
            && y'.receiver.link.end.stream == Applied(p.stream.(sendNext := n + 1), f.frameType)
            && InStep(y'.receiver.link.end, Delivery(y.sender.link.end, f))
               && InStep(Delivery(y.sender.link.end, f), y'.receiver.link.end)
            && y'.sender == SenderAnswers(c, y.sender.(link := Given(y.sender.link, f)), y'.receiver.link.end, f)
  {
    hide Acted, SenderAnswers, CreateError, InStep, Wire, Written, Moved;
    var e, p := y.sender.link.end, y.receiver.link.end;
    assert f.frameType == Confirm || p.stream.sentConfirmation by { NeedsConfirmation(p.stream, f); }
    Transmitted(p, e, f, ciphertext);
    var n := p.stream.sendNext;
    var p' := Acted(Acted(p, e, Create(f.frameType, f.plaintext)), e, Seal(n, ciphertext));
    StillInStep(p, e, f, p');
    var moves := ReceiverMoves(y, f, ciphertext);
    var y1 := Next(c, y.(receiver := x), moves[0]);
    var y2 := Next(c, y1, moves[1]);
    TwoMoves(c, y.(receiver := x), moves);
    assert y1.receiver.link.end == p' && y1.sender == y.sender;
    assert Do(y.sender.link, p', Receive(Wire(p, f, ciphertext), Some(f.plaintext))) == Given(y.sender.link, f);
  }

  // ----- Runs put together -----

  lemma {:induction false} MovedAppend(c: Config, y: System, a: seq<Move>, b: seq<Move>)
    ensures Moved(c, y, a + b) == Moved(c, Moved(c, y, a), b)
    decreases |a|
  {
    hide Next;
    if a == [] {
      assert a + b == b;
    } else {
      assert (a + b)[0] == a[0] && (a + b)[1..] == a[1..] + b;
      MovedAppend(c, Next(c, y, a[0]), a[1..], b);
    }
  }

  lemma {:induction false} OneMove(c: Config, y: System, m: Move)
    ensures Moved(c, y, [m]) == Next(c, y, m)
  {
    hide Next;
    assert Moved(c, Next(c, y, m), []) == Next(c, y, m);
  }

  lemma {:induction false} AfterIsMoved(c: Config, moves: seq<Move>)
    ensures After(c, moves) == Moved(c, Beginning(c), moves)
    decreases |moves|
  {
    hide Next, Beginning;
    if moves != [] {
      var init, last := moves[..|moves| - 1], moves[|moves| - 1];
      AfterIsMoved(c, init);
      assert moves == init + [last];
      MovedAppend(c, Beginning(c), init, [last]);
      OneMove(c, Moved(c, Beginning(c), init), last);
    }
  }

  // `y` can be reached, by a run that is not looked at further.
  ghost predicate Reachable(c: Config, y: System) {
    exists moves :: After(c, moves) == y
  }

  lemma {:induction false} ReachOn(c: Config, y: System, moves: seq<Move>)
    requires Reachable(c, y)
    ensures Reachable(c, Moved(c, y, moves))
  {
    hide After, Moved;
    var before :| After(c, before) == y;
    AfterIsMoved(c, before);
    AfterIsMoved(c, before + moves);
    MovedAppend(c, Beginning(c), before, moves);
  }

  lemma {:induction false} ReachNext(c: Config, y: System, m: Move)
    requires Reachable(c, y)
    ensures Reachable(c, Next(c, y, m))
  {
    hide After, Moved, Next;
    ReachOn(c, y, [m]);
    OneMove(c, y, m);
  }

  // Any ciphertext of the right length will do.
  function Sealing(f: Frame): Bytes {
    Zeros(|f.plaintext| + FRAME_TAG_BYTES)
  }

  // Both ends are confirmed; the last type sent and the number of frames sent, in either direction.
  ghost predicate Streams(y: System, sent: FrameType, n: nat, back: FrameType, m: nat) {
    var e, p := y.sender.link.end.stream, y.receiver.link.end.stream;
    && e.sentConfirmation && e.receivedConfirmation && e.sentType == Some(sent) && e.sendNext == n
    && p.sentType == Some(back) && p.sendNext == m
  }

  // After the confirmations.
  ghost predicate IsOpen(c: Config, y: System) {
    && Paired(c, y) && Streams(y, Confirm, 1, Confirm, 1) && y.receiver.r == NewReceiver(c)
    && y.sender.s == NEW_SENDER.(state := Ready)
  }

  lemma {:induction false} BeginningPaired(c: Config)
    requires ValidConfig(c)
    ensures Paired(c, Beginning(c))
  {
  }

  lemma {:induction false} SenderStarts(c: Config)
    requires ValidConfig(c)
    ensures var y := Beginning(c);
            var f := Frame(Confirm, c.confirmation);
            && Sendable(y.sender.link.end, f, Sealing(f))
            && SenderStep(c, y.sender, y.receiver.link.end, Start)
               == y.sender.(s := y.sender.s.(state := Confirming),
                   link := Do(y.sender.link, y.receiver.link.end, Create(Confirm, c.confirmation)))
  {
    hide Do;
  }

  // The receiver answers the sender's confirmation with its own.
  lemma {:induction false} ReceiverConfirms(c: Config, x: ReceiverSide, peer: Endpoint, signed: set<Bytes>)
    requires ValidConfig(c) && x.r.state == Idle && x.link.end.stream.sendNext == 0
             && !x.link.end.stream.sentConfirmation
    requires x.link.end.stream.sentType == None && x.link.end.stream.confirmation == Some(c.confirmation)
    ensures var f := Frame(Confirm, c.confirmation);
            && Sendable(x.link.end, f, Sealing(f))
            && ReceiverAnswers(c, x, peer, f, signed) == x.(link := Do(x.link, peer, Create(Confirm, c.confirmation)))
  {
    hide Do;
  }

  lemma {:induction false} SenderConfirmed(c: Config, x: SenderSide, peer: Endpoint)
    requires x.s.state == Confirming && x.link.end.stream.sendNext != 0 && Confirmed(x.link)
    ensures SenderAnswers(c, x, peer, Frame(Confirm, c.confirmation)) == x.(s := x.s.(state := Ready))
  {
  }

  lemma {:induction false} Opening(c: Config) returns (y: System)
    requires ValidConfig(c)
    ensures Reachable(c, y) && IsOpen(c, y)
  {
    hide Moved, Next, InStep, Sendable, Do, ReceiverAnswers, SenderAnswers, After, SenderStep;
    var y0, f := Beginning(c), Frame(Confirm, c.confirmation);
    BeginningPaired(c);
    SenderStarts(c);
    assert After(c, []) == y0 by { Nothing(c); }
    SenderNext(c, y0, Start);
    var y1 := Next(c, y0, BySender(Start));
    ReachNext(c, y0, BySender(Start));
    SenderDelivers(c, y0, y1.sender, f, Sealing(f));
    var y3 := Moved(c, y1, SenderMoves(y0, f, Sealing(f)));
    ReachOn(c, y1, SenderMoves(y0, f, Sealing(f)));
    var given := ReceiverSide(y0.receiver.r, Given(y0.receiver.link, f));
    ReceiverConfirms(c, given, y3.sender.link.end, y1.sender.signed);
    var yb := y3.(receiver := given);
    ReceiverDelivers(c, yb, y3.receiver, f, Sealing(f));
    assert yb.(receiver := y3.receiver) == y3;
    y := Moved(c, y3, ReceiverMoves(yb, f, Sealing(f)));
    ReachOn(c, y3, ReceiverMoves(yb, f, Sealing(f)));
    SenderConfirmed(c, yb.sender.(link := Given(yb.sender.link, f)), y.receiver.link.end);
  }

  lemma {:induction false} Nothing(c: Config)
    ensures After(c, []) == Beginning(c)
  {
    hide Next, Beginning;
  }

  lemma {:induction false} SenderNext(c: Config, y: System, e: Event)
    ensures Next(c, y, BySender(e)) == y.(sender := SenderStep(c, y.sender, y.receiver.link.end, e))
  {
    hide SenderStep, ReceiverStep;
  }

  // ----- The offer and its acceptance -----

  function OfferFrame(c: Config, signature: Bytes): Frame {
    Frame(FileOffer, BodyOf(SignedJson(OfferJson(OfferOfFile(c)), signature)))
  }

  function AcceptFrame(c: Config): Frame {
    Frame(Accept, BodyOf(AcceptJson(c.transferId)))
  }

  // The signature over the offer is good.
  predicate OfferSigned(c: Config, signature: Bytes) {
    |signature| == SIGNATURE_BYTES && c.verifies(BodyOf(OfferJson(OfferOfFile(c))), signature)
  }

  // A confirmed stream takes a frame that the order allows.
  lemma {:induction false} Allowed(s: Stream, t: FrameType, body: Bytes)
    requires s.sentConfirmation && s.receivedConfirmation && s.sendNext <= MAX_FRAME_COUNTER && t != Confirm
    requires TypeFitsDirection(s.direction, t) && SequenceTypeAllowed(s.sentType, t, s.direction)
    ensures CreateError(s, t, body) == None
  {
  }

  // One frame of sendFile on a confirmed link.
  lemma {:induction false} FileFrame(x: SenderSide, peer: Endpoint, f: Frame, next: Sender)
    requires !Ended(next.state) && Confirmed(x.link) && x.link.end.stream.sendNext <= MAX_FRAME_COUNTER
             && f.frameType != Confirm
    requires TypeFitsDirection(x.link.end.stream.direction, f.frameType) && Fits(f.plaintext)
    requires SequenceTypeAllowed(x.link.end.stream.sentType, f.frameType, x.link.end.stream.direction)
    ensures Sendable(x.link.end, f, Sealing(f))
    ensures SendNext(x, peer, f, next)
         == x.(s := next.(sent := x.s.sent + [f], inFlight := x.link.end.stream.sendNext),
               link := Do(x.link, peer, Create(f.frameType, f.plaintext)))
  {
    hide Do, CreateError;
    Allowed(x.link.end.stream, f.frameType, f.plaintext);
  }

  lemma {:induction false} SendFileCalled(c: Config, x: SenderSide, peer: Endpoint)
    requires Announceable(c) && x.s == NEW_SENDER.(state := Ready) && x.link.end.stream.sendNext == 1
    ensures SenderStep(c, x, peer, SendFile) == x.(s := x.s.(phase := AwaitingConfirmation))
  {
    hide Announceable;
    FileIsSmall(c);
  }

  lemma {:induction false} FileIsOffered(c: Config, x: SenderSide, peer: Endpoint, signature: Bytes)
    requires Announceable(c) && OfferSigned(c, signature) && x.s.phase == AwaitingConfirmation && x.s.state == Ready
    requires Confirmed(x.link) && x.link.end.stream.direction == S2R
    requires x.link.end.stream.sendNext == 1 && x.link.end.stream.sentType == Some(Confirm)
    ensures var f := OfferFrame(c, signature);
            var y := Advanced(c, x, peer, signature);
            && Sendable(x.link.end, f, Sealing(f)) && y.link == Do(x.link, peer, Create(f.frameType, f.plaintext))
            && y.signed == x.signed + {BodyOf(OfferJson(OfferOfFile(c)))}
            && y.s == x.s.(acceptance := Pending, offerBody := f.plaintext, phase := AwaitingAcceptance,
                           sent := x.s.sent + [f], inFlight := 1)
  {
    hide Do, CreateError, SendNext, BodyOf, CanonicalBytes, OfferJson, SignedJson, OfferOfFile, Printable, Sendable,
    Announceable,
         SendOffer, SendManifest, SendChunk, SendCompletion;
    var f := OfferFrame(c, signature);
    OfferFits(c, signature);
    OfferIsMade(c, x, peer, signature);
    var signed := x.signed + {BodyOf(OfferJson(OfferOfFile(c)))};
    FileFrame(x.(signed := signed), peer, f, x.s.(acceptance := Pending, offerBody := f.plaintext,
        phase := AwaitingAcceptance));
  }

  lemma {:induction false} OfferIsMade(c: Config, x: SenderSide, peer: Endpoint, signature: Bytes)
    requires Announceable(c)
    ensures var f := OfferFrame(c, signature);
            SendOffer(c, x, peer, signature)
            == SendNext(x.(signed := x.signed + {BodyOf(OfferJson(OfferOfFile(c)))}), peer, f,
                        x.s.(acceptance := Pending, offerBody := f.plaintext, phase := AwaitingAcceptance))
  {
    hide SendNext, BodyOf, CanonicalBytes, OfferJson, SignedJson, OfferOfFile, Printable, Announceable;
    AnnounceableIsValid(c);
    PayloadsArePrintable(c);
    BodyParses(OfferJson(OfferOfFile(c)));
  }

  lemma {:induction false} AdvanceNext(c: Config, y: System, signature: Bytes)
    ensures Next(c, y, BySender(Advance(signature))) == y.(sender
            := Advanced(c, y.sender, y.receiver.link.end, signature))
  {
    hide Advanced, ReceiverStep;
  }

  lemma {:induction false} FileIsSmall(c: Config)
    requires Announceable(c)
    ensures |c.file| <= MAX_TRANSFER_BYTES && 0 < c.chunkSize <= MAX_CHUNK_SIZE
  {
  }

  function OfferedManifest(c: Config): TransferManifest {
    ManifestOfFile(c).(chunkSize := MAX_CHUNK_SIZE)
  }

  // The receiver after it took the offer.
  function AfterOffer(c: Config): Receiver {
    NewReceiver(c).(offered := Some(OfferedManifest(c)), offerMessage := Some(BodyOf(OfferJson(OfferOfFile(c)))),
        accepted := true)
  }

  lemma {:induction false} OfferIsAccepted(
      c: Config, x: ReceiverSide, peer: Endpoint, signature: Bytes, signed: set<Bytes>)
    requires Announceable(c) && c.accepted && OfferSigned(c, signature) && BodyOf(OfferJson(OfferOfFile(c))) in signed
    requires x.r == NewReceiver(c) && Confirmed(x.link) && x.link.end.stream.direction == R2S
    requires x.link.end.stream.sendNext == 1 && x.link.end.stream.sentType == Some(Confirm)
    ensures var f := AcceptFrame(c);
            && Sendable(x.link.end, f, Sealing(f))
            && ReceiverAnswers(c, x, peer, OfferFrame(c, signature), signed)
               == ReceiverSide(AfterOffer(c), Do(x.link, peer, Create(f.frameType, f.plaintext)))
  {
    hide Do, CreateError, BodyOf, HandleFileOffer, OfferJson, SignedJson, OfferOfFile, AcceptJson, PlainManifest,
         WellFormed, IsUuid;
    OfferTaken(c, x.r, signature, signed);
    AcceptFits(c);
    Allowed(x.link.end.stream, Accept, AcceptFrame(c).plaintext);
  }

  lemma {:induction false} AcceptanceArrives(c: Config, x: SenderSide, peer: Endpoint)
    requires Announceable(c) && !x.s.remoteAccepted && x.s.acceptance.Pending? && x.s.state == Ready
    ensures SenderAnswers(c, x, peer, AcceptFrame(c)) == x.(s
            := x.s.(remoteAccepted := true, acceptance := Resolved(())))
  {
    hide ParseCanonical, AcceptOf, AcceptJson, BodyOf, Printable, Announceable;
    AcceptFits(c);
    BodyParses(AcceptJson(c.transferId));
    AcceptReadsBack(c.transferId);
  }

  // After the acceptance has arrived.
  ghost predicate IsAccepted(c: Config, y: System) {
    && Paired(c, y) && Streams(y, FileOffer, 2, Accept, 2)
    && y.receiver.r == AfterOffer(c).(acceptanceSent := true)
    && y.sender.s.phase == AwaitingAcceptance && y.sender.s.acceptance == Resolved(()) && y.sender.s.state == Ready
    && y.sender.s.inFlight in y.sender.link.end.log
  }

  // The offer has been taken and the acceptance made, but not encrypted; `yb` is the same without the acceptance.
  ghost predicate IsOffered(c: Config, y: System, yb: System) {
    && Paired(c, yb) && Streams(yb, FileOffer, 2, Confirm, 1)
    && Sendable(yb.receiver.link.end, AcceptFrame(c), Sealing(AcceptFrame(c)))
    && y == yb.(receiver := y.receiver) && y.receiver.r == AfterOffer(c)
    && y.receiver.link == Do(yb.receiver.link, yb.sender.link.end, Create(Accept, AcceptFrame(c).plaintext))
    && y.sender.s.phase == AwaitingAcceptance && y.sender.s.acceptance.Pending? && y.sender.s.state == Ready
    && !y.sender.s.remoteAccepted && y.sender.s.inFlight in y.sender.link.end.log
  }

  lemma {:induction false} Offering(c: Config, y: System, signature: Bytes) returns (y': System, yb: System)
    requires Reachable(c, y) && IsOpen(c, y) && Announceable(c) && c.accepted && OfferSigned(c, signature)
    ensures Reachable(c, y') && IsOffered(c, y', yb)
  {
    hide Moved, Next, InStep, Sendable, Do, ReceiverAnswers, SenderAnswers, After, SenderStep, Announceable,
    OfferSigned, OfferFrame,
         AcceptFrame, AfterOffer, Reachable, Advanced, BodyOf;
    var f := OfferFrame(c, signature);
    FrameTypes(c, signature);
    ConfirmedBothWays(y);
    SendFileCalled(c, y.sender, y.receiver.link.end);
    SenderNext(c, y, SendFile);
    ReachNext(c, y, BySender(SendFile));
    var y1 := y.(sender := y.sender.(s := y.sender.s.(phase := AwaitingConfirmation)));
    FileIsOffered(c, y1.sender, y1.receiver.link.end, signature);
    AdvanceNext(c, y1, signature);
    ReachNext(c, y1, BySender(Advance(signature)));
    var x := Advanced(c, y1.sender, y1.receiver.link.end, signature);
    SenderDelivers(c, y1, x, f, Sealing(f));
    y' := Moved(c, y1.(sender := x), SenderMoves(y1, f, Sealing(f)));
    ReachOn(c, y1.(sender := x), SenderMoves(y1, f, Sealing(f)));
    var given := ReceiverSide(y.receiver.r, Given(y.receiver.link, f));
    OfferIsAccepted(c, given, y'.sender.link.end, signature, x.signed);
    yb := y'.(receiver := given);
  }

  lemma {:induction false} Accepting(c: Config, y: System, yb: System) returns (y': System)
    requires Reachable(c, y) && IsOffered(c, y, yb) && Announceable(c)
    ensures Reachable(c, y') && IsAccepted(c, y')
  {
    hide Moved, InStep, Sendable, Do, SenderAnswers, After, Announceable, AcceptFrame, Reachable, BodyOf;
    var g := AcceptFrame(c);
    FrameTypes(c, []);
    ReceiverDelivers(c, yb, y.receiver, g, Sealing(g));
    assert yb.(receiver := y.receiver) == y;
    y' := Moved(c, y, ReceiverMoves(yb, g, Sealing(g)));
    ReachOn(c, y, ReceiverMoves(yb, g, Sealing(g)));
    AcceptanceArrives(c, yb.sender.(link := Given(yb.sender.link, g)), y'.receiver.link.end);
  }

  lemma {:induction false} FrameTypes(c: Config, signature: Bytes)
    ensures OfferFrame(c, signature).frameType == FileOffer && AcceptFrame(c).frameType == Accept
    ensures ManifestFrame(c).frameType == Manifest
  {
  }

  lemma {:induction false} ConfirmedBothWays(y: System)
    requires InStep(y.sender.link.end, y.receiver.link.end) && InStep(y.receiver.link.end, y.sender.link.end)
    requires y.sender.link.end.stream.sentConfirmation && y.sender.link.end.stream.receivedConfirmation
    ensures Confirmed(y.sender.link) && Confirmed(y.receiver.link)
  {
  }

  // ----- The manifest and the chunks -----

  // The receiver with the first `offset` bytes, in `count` chunks.
  function AfterChunks(c: Config, offset: nat, count: nat): Receiver
    requires c.chunkSize > 0 && offset <= |c.file| && count <= |Split(c.file, c.chunkSize)|
  {
    AfterOffer(c).(acceptanceSent := true, manifest := Some(ManifestOfFile(c)),
        digest := Some(Digest(c.file[..offset], false)),
                   state := Receiving, chunks := Split(c.file, c.chunkSize)[..count], receivedBytes := offset,
                       receivedChunks := count)
  }

  lemma {:induction false} StillWorking(c: Config, offset: nat, count: nat)
    requires c.chunkSize > 0 && offset <= |c.file| && count <= |Split(c.file, c.chunkSize)|
    ensures !AfterChunks(c, offset, count).broken && !AfterOffer(c).broken
  {
  }

  ghost predicate IsMidway(c: Config, y: System, offset: nat, count: nat)
    requires c.chunkSize > 0
  {
    var cut := Split(c.file, c.chunkSize);
    && offset <= |c.file| && count <= |cut| && cut[count..] == Split(c.file[offset..], c.chunkSize)
    && Paired(c, y) && Streams(y, if count == 0 then Manifest else Chunk, 3 + count, Accept, 2)
    && y.receiver.r == AfterChunks(c, offset, count)
    && y.sender.s.phase == Sending(offset, count) && y.sender.s.state == SendingFile
    && y.sender.s.inFlight in y.sender.link.end.log
  }

  // One frame of sendFile that the receiver takes without an answer.
  lemma {:induction false} OneFrame(
      c: Config, y: System, x: SenderSide, f: Frame, r: Receiver, back: FrameType, m: nat) returns (y': System)
    requires Reachable(c, y.(sender := x)) && Paired(c, y) && y.receiver.link.end.stream.sentType == Some(back)
    requires y.receiver.link.end.stream.sendNext == m && Confirmed(y.sender.link) && f.frameType != Confirm
    requires Sendable(y.sender.link.end, f, Sealing(f)) && !x.s.broken && !r.broken
    requires x.link == Do(y.sender.link, y.receiver.link.end, Create(f.frameType, f.plaintext))
    requires forall peer :: ReceiverAnswers(c, ReceiverSide(y.receiver.r, Given(y.receiver.link, f)), peer, f, x.signed)
                         == ReceiverSide(r, Given(y.receiver.link, f))
    ensures Reachable(c, y') && Paired(c, y') && y'.receiver.r == r && y'.sender.s == x.s
            && y'.sender.signed == x.signed
    ensures Streams(y', f.frameType, y.sender.link.end.stream.sendNext + 1, back, m)
    ensures y.sender.link.end.stream.sendNext in y'.sender.link.end.log
  {
    hide Moved, InStep, Sendable, Do, ReceiverAnswers, Reachable;
    SenderDelivers(c, y, x, f, Sealing(f));
    y' := Moved(c, y.(sender := x), SenderMoves(y, f, Sealing(f)));
    ReachOn(c, y.(sender := x), SenderMoves(y, f, Sealing(f)));
  }

  function ManifestFrame(c: Config): Frame {
    Frame(Manifest, BodyOf(ManifestJson(ManifestOfFile(c))))
  }

  lemma {:induction false} ManifestIsSent(c: Config, x: SenderSide, peer: Endpoint)
    requires Announceable(c) && x.s.phase == AwaitingAcceptance && x.s.acceptance.Resolved? && x.s.state == Ready
    requires x.s.inFlight in x.link.end.log && Confirmed(x.link) && x.link.end.stream.direction == S2R
    requires x.link.end.stream.sendNext == 2 && x.link.end.stream.sentType == Some(FileOffer)
    ensures var f := ManifestFrame(c);
            var y := Advanced(c, x, peer, []);
            && Sendable(x.link.end, f, Sealing(f)) && y.link == Do(x.link, peer, Create(f.frameType, f.plaintext))
            && y.s == x.s.(state := SendingFile, phase := Sending(0, 0), sent := x.s.sent + [f], inFlight := 2)
  {
    hide Do, CreateError, SendNext, BodyOf, CanonicalBytes, ManifestJson, ManifestOfFile, Printable, Sendable,
    Announceable,
         SendOffer, SendManifest, SendChunk, SendCompletion;
    ManifestFits(c);
    ManifestIsMade(c, x, peer);
    FileFrame(x, peer, ManifestFrame(c), x.s.(state := SendingFile, phase := Sending(0, 0)));
  }

  lemma {:induction false} ManifestIsMade(c: Config, x: SenderSide, peer: Endpoint)
    requires Announceable(c) && !Ended(x.s.state)
    ensures SendManifest(c, x, peer) == SendNext(x, peer, ManifestFrame(c),
            x.s.(state := SendingFile, phase := Sending(0, 0)))
  {
    hide SendNext, BodyOf, CanonicalBytes, ManifestJson, ManifestOfFile, Printable, Announceable;
    AnnounceableIsValid(c);
    PayloadsArePrintable(c);
    BodyParses(ManifestJson(ManifestOfFile(c)));
  }

  lemma {:induction false} ManifestIsTaken(c: Config, x: ReceiverSide, peer: Endpoint, signed: set<Bytes>)
    requires Announceable(c) && x.r == AfterOffer(c).(acceptanceSent := true) && c.chunkSize > 0
    ensures ReceiverAnswers(c, x, peer, ManifestFrame(c), signed) == x.(r := AfterChunks(c, 0, 0))
  {
    hide HandleManifest, BodyOf, ManifestJson, OfferJson, Announceable, Split;
    ManifestTaken(c, x.r);
    assert c.file[..0] == [] && Split(c.file, c.chunkSize)[..0] == [];
  }

  lemma {:induction false} Announcing(c: Config, y: System) returns (y': System)
    requires Reachable(c, y) && IsAccepted(c, y) && Announceable(c) && c.chunkSize > 0
    ensures Reachable(c, y') && IsMidway(c, y', 0, 0)
  {
    hide InStep, Sendable, Do, ReceiverAnswers, Announceable, Reachable, Advanced, BodyOf, Split, Next, ManifestFrame,
         AfterOffer, AfterChunks;
    var f := ManifestFrame(c);
    FrameTypes(c, []);
    StillWorking(c, 0, 0);
    ConfirmedBothWays(y);
    ManifestIsSent(c, y.sender, y.receiver.link.end);
    AdvanceNext(c, y, []);
    ReachNext(c, y, BySender(Advance([])));
    var x := Advanced(c, y.sender, y.receiver.link.end, []);
    var given := ReceiverSide(y.receiver.r, Given(y.receiver.link, f));
    forall peer ensures ReceiverAnswers(c, given, peer, f, x.signed) == given.(r := AfterChunks(c, 0, 0)) {
      ManifestIsTaken(c, given, peer, x.signed);
    }
    y' := OneFrame(c, y, x, f, AfterChunks(c, 0, 0), Accept, 2);
    assert c.file[0..] == c.file && Split(c.file, c.chunkSize)[0..] == Split(c.file, c.chunkSize);
  }

  function NextOffset(c: Config, offset: nat): nat {
    if offset + c.chunkSize < |c.file| then offset + c.chunkSize else |c.file|
  }

  function ChunkFrame(c: Config, offset: nat): Frame
    requires offset < |c.file|
  {
    Frame(Chunk, c.file[offset..NextOffset(c, offset)])
  }

  lemma {:induction false} ChunkType(c: Config, offset: nat)
    requires offset < |c.file|
    ensures ChunkFrame(c, offset).frameType == Chunk
  {
  }

  lemma {:induction false} ChunkIsSent(c: Config, x: SenderSide, peer: Endpoint, offset: nat, count: nat)
    requires 0 < c.chunkSize <= MAX_CHUNK_SIZE && offset < |c.file| && x.s.phase == Sending(offset, count)
             && x.s.state == SendingFile
    requires x.s.inFlight in x.link.end.log && Confirmed(x.link) && x.link.end.stream.direction == S2R
    requires x.link.end.stream.sendNext <= MAX_FRAME_COUNTER && x.link.end.stream.sentType in {Some(Manifest),
             Some(Chunk)}
    ensures var f := ChunkFrame(c, offset);
            var y := Advanced(c, x, peer, []);
            && Sendable(x.link.end, f, Sealing(f)) && y.link == Do(x.link, peer, Create(f.frameType, f.plaintext))
            && y.s == x.s.(phase := Sending(NextOffset(c, offset), count + 1), sent := x.s.sent + [f],
                           inFlight := x.link.end.stream.sendNext)
  {
    hide Do, CreateError, SendNext, Sendable, SendOffer, SendManifest, SendCompletion;
    FileFrame(x, peer, ChunkFrame(c, offset), x.s.(phase := Sending(NextOffset(c, offset), count + 1)));
  }

  lemma {:induction false} ChunkIsTaken(
      c: Config, x: ReceiverSide, peer: Endpoint, signed: set<Bytes>, offset: nat, count: nat)
    requires c.chunkSize > 0 && offset < |c.file| && count < |Split(c.file, c.chunkSize)|
             && x.r == AfterChunks(c, offset, count)
    requires Split(c.file, c.chunkSize)[count] == c.file[offset..NextOffset(c, offset)]
    ensures ReceiverAnswers(c, x, peer, ChunkFrame(c, offset), signed)
            == x.(r := AfterChunks(c, NextOffset(c, offset), count + 1))
  {
    hide Split, AfterOffer;
    var next := NextOffset(c, offset);
    var cut := Split(c.file, c.chunkSize);
    assert c.file[..offset] + c.file[offset..next] == c.file[..next];
    assert cut[..count] + [cut[count]] == cut[..count + 1];
  }

  // The receiver's side of a chunk.
  lemma {:induction false} ChunkIsAnswered(c: Config, l: Link, f: Frame, signed: set<Bytes>, offset: nat, count: nat)
    requires c.chunkSize > 0 && offset < |c.file| && count < |Split(c.file, c.chunkSize)| && f == ChunkFrame(c, offset)
    requires Split(c.file, c.chunkSize)[count] == c.file[offset..NextOffset(c, offset)]
    ensures forall peer :: ReceiverAnswers(c, ReceiverSide(AfterChunks(c, offset, count), l), peer, f, signed)
                        == ReceiverSide(AfterChunks(c, NextOffset(c, offset), count + 1), l)
  {
    hide ReceiverAnswers, AfterChunks, Split, ChunkFrame;
    forall peer ensures ReceiverAnswers(c, ReceiverSide(AfterChunks(c, offset, count), l), peer, f, signed)
                     == ReceiverSide(AfterChunks(c, NextOffset(c, offset), count + 1), l)
    {
      ChunkIsTaken(c, ReceiverSide(AfterChunks(c, offset, count), l), peer, signed, offset, count);
    }
  }

  // The sender's side of a chunk.
  lemma {:induction false} ChunkAdvance(c: Config, y: System, offset: nat, count: nat) returns (x: SenderSide)
    requires Announceable(c) && c.chunkSize > 0 && Reachable(c, y) && IsMidway(c, y, offset, count) && offset < |c.file|
    ensures var f := ChunkFrame(c, offset);
            && Reachable(c, y.(sender := x)) && Confirmed(y.sender.link) && Sendable(y.sender.link.end, f, Sealing(f))
            && x.link == Do(y.sender.link, y.receiver.link.end, Create(f.frameType, f.plaintext)) && !x.s.broken
            && x.s.phase == Sending(NextOffset(c, offset), count + 1) && x.s.state == SendingFile
               && x.s.inFlight == 3 + count
  {
    hide InStep, Sendable, Do, Announceable, Reachable, Advanced, Split, Next, AfterChunks, ChunkFrame;
    FileIsSmall(c);
    NoMoreChunksThanBytes(c.file, c.chunkSize);
    ConfirmedBothWays(y);
    ChunkIsSent(c, y.sender, y.receiver.link.end, offset, count);
    AdvanceNext(c, y, []);
    ReachNext(c, y, BySender(Advance([])));
    x := Advanced(c, y.sender, y.receiver.link.end, []);
  }

  lemma {:induction false} CutAdvances(c: Config, offset: nat, count: nat)
    requires c.chunkSize > 0 && offset < |c.file| && count <= |Split(c.file, c.chunkSize)|
    requires Split(c.file, c.chunkSize)[count..] == Split(c.file[offset..], c.chunkSize)
    ensures var cut, next := Split(c.file, c.chunkSize), NextOffset(c, offset);
            && offset < next <= |c.file| && count + 1 <= |cut| && cut[count] == c.file[offset..next]
            && cut[count + 1..] == Split(c.file[next..], c.chunkSize)
  {
    hide Split;
    NextChunk(c.file, c.chunkSize, offset, count);
  }

  // The parts of IsMidway, taken apart and put together.
  lemma {:induction false} MidwayParts(c: Config, y: System, offset: nat, count: nat)
    requires c.chunkSize > 0 && IsMidway(c, y, offset, count)
    ensures offset <= |c.file| && count <= |Split(c.file, c.chunkSize)|
    ensures Split(c.file, c.chunkSize)[count..] == Split(c.file[offset..], c.chunkSize)
    ensures Paired(c, y) && y.receiver.r == AfterChunks(c, offset, count)
            && y.sender.link.end.stream.sendNext == 3 + count
    ensures y.receiver.link.end.stream.sentType == Some(Accept) && y.receiver.link.end.stream.sendNext == 2
  {
    hide Split, Paired, AfterChunks;
  }

  lemma {:induction false} MidwayWhole(c: Config, y: System, offset: nat, count: nat)
    requires c.chunkSize > 0 && offset <= |c.file| && count <= |Split(c.file, c.chunkSize)|
    requires Split(c.file, c.chunkSize)[count..] == Split(c.file[offset..], c.chunkSize)
    requires Paired(c, y) && Streams(y, if count == 0 then Manifest else Chunk, 3 + count, Accept, 2)
    requires y.receiver.r == AfterChunks(c, offset, count) && y.sender.s.phase == Sending(offset, count)
    requires y.sender.s.state == SendingFile && y.sender.s.inFlight in y.sender.link.end.log
    ensures IsMidway(c, y, offset, count)
  {
    hide Split, Paired, AfterChunks, Streams;
  }

  lemma {:induction false} SendingOne(c: Config, y: System, offset: nat, count: nat) returns (y': System)
    requires Announceable(c) && c.chunkSize > 0 && Reachable(c, y) && IsMidway(c, y, offset, count) && offset < |c.file|
    ensures Reachable(c, y') && IsMidway(c, y', NextOffset(c, offset), count + 1)
  {
    hide *;
    MidwayParts(c, y, offset, count);
    CutAdvances(c, offset, count);
    ChunkType(c, offset);
    StillWorking(c, NextOffset(c, offset), count + 1);
    var x := ChunkAdvance(c, y, offset, count);
    var f := ChunkFrame(c, offset);
    ChunkIsAnswered(c, Given(y.receiver.link, f), f, x.signed, offset, count);
    y' := OneFrame(c, y, x, f, AfterChunks(c, NextOffset(c, offset), count + 1), Accept, 2);
    MidwayWhole(c, y', NextOffset(c, offset), count + 1);
  }

  lemma {:induction false} SendingAll(c: Config, y: System, offset: nat, count: nat) returns (y': System)
    requires Announceable(c) && c.chunkSize > 0 && Reachable(c, y) && IsMidway(c, y, offset, count)
    ensures Reachable(c, y') && IsMidway(c, y', |c.file|, |Split(c.file, c.chunkSize)|)
    decreases |c.file| - offset
  {
    hide Announceable, Reachable, Split, Paired, Streams, AfterChunks;
    if offset == |c.file| {
      AllCut(c, count);
      y' := y;
    } else {
      y' := SendingOne(c, y, offset, count);
      y' := SendingAll(c, y', NextOffset(c, offset), count + 1);
    }
  }

  lemma {:induction false} AllCut(c: Config, count: nat)
    requires c.chunkSize > 0 && count <= |Split(c.file, c.chunkSize)|
    requires Split(c.file, c.chunkSize)[count..] == Split(c.file[|c.file|..], c.chunkSize)
    ensures count == |Split(c.file, c.chunkSize)|
  {
    var cut := Split(c.file, c.chunkSize);
    assert c.file[|c.file|..] == [] && |cut[count..]| == |cut| - count;
  }

  // ----- The completion and the receipt -----

  function WholeFile(c: Config): CompleteCore
    requires c.chunkSize > 0
  {
    Completion(c, |Split(c.file, c.chunkSize)|)
  }

  function CompleteFrame(c: Config, signature: Bytes): Frame
    requires c.chunkSize > 0
  {
    Frame(Complete, BodyOf(SignedJson(CompleteJson(WholeFile(c)), signature)))
  }

  function ReceiptFrame(c: Config): Frame {
    Frame(Receipt, BodyOf(ReceiptJson(ReceiptOfFile(c))))
  }

  predicate CompletionSigned(c: Config, signature: Bytes)
    requires c.chunkSize > 0
  {
    |signature| == SIGNATURE_BYTES && c.verifies(BodyOf(CompleteJson(WholeFile(c))), signature)
  }

  lemma {:induction false} CompletionIsMade(c: Config, x: SenderSide, peer: Endpoint, signature: Bytes)
    requires Announceable(c) && c.chunkSize > 0
    ensures var f := CompleteFrame(c, signature);
            SendCompletion(c, x, peer, |Split(c.file, c.chunkSize)|, signature)
            == SendNext(x.(signed := x.signed + {BodyOf(CompleteJson(WholeFile(c)))}), peer, f,
                        x.s.(sentCompletion := Some(WholeFile(c)), receipt := Pending, completionSent := true,
                             completeBody := f.plaintext, phase := AwaitingReceipt))
  {
    hide SendNext, BodyOf, CanonicalBytes, CompleteJson, SignedJson, Completion, Printable, Announceable, Split;
    NoMoreChunksThanBytes(c.file, c.chunkSize);
    ResultsArePrintable(c, |Split(c.file, c.chunkSize)|);
    BodyParses(CompleteJson(WholeFile(c)));
  }

  lemma {:induction false} CompletionIsSent(c: Config, x: SenderSide, peer: Endpoint, signature: Bytes)
    requires Announceable(c) && c.chunkSize > 0 && CompletionSigned(c, signature) && x.s.state == SendingFile
    requires x.s.phase == Sending(|c.file|, |Split(c.file, c.chunkSize)|) && x.s.inFlight in x.link.end.log
             && Confirmed(x.link)
    requires x.link.end.stream.direction == S2R && x.link.end.stream.sendNext <= MAX_FRAME_COUNTER
    requires x.link.end.stream.sentType in {Some(Manifest), Some(Chunk)}
    ensures var f := CompleteFrame(c, signature);
            var y := Advanced(c, x, peer, signature);
            && Sendable(x.link.end, f, Sealing(f)) && y.link == Do(x.link, peer, Create(f.frameType, f.plaintext))
            && y.signed == x.signed + {BodyOf(CompleteJson(WholeFile(c)))}
            && y.s == x.s.(sentCompletion := Some(WholeFile(c)), receipt := Pending, completionSent := true,
                           completeBody := f.plaintext, phase := AwaitingReceipt, sent := x.s.sent + [f],
                           inFlight := x.link.end.stream.sendNext)
  {
    hide Do, CreateError, SendNext, BodyOf, CompleteJson, SignedJson, Completion, Sendable, Announceable, SendOffer,
    SendManifest, SendChunk,
         SendCompletion, Split;
    var f := CompleteFrame(c, signature);
    NoMoreChunksThanBytes(c.file, c.chunkSize);
    CompleteFits(c, |Split(c.file, c.chunkSize)|, signature);
    CompletionIsMade(c, x, peer, signature);
    FileFrame(x.(signed := x.signed + {BodyOf(CompleteJson(WholeFile(c)))}), peer, f,
              x.s.(sentCompletion := Some(WholeFile(c)), receipt := Pending, completionSent := true,
                   completeBody := f.plaintext, phase := AwaitingReceipt));
  }

  // The receiver with the whole file.
  function AfterFile(c: Config): Receiver
    requires c.chunkSize > 0
  {
    AfterChunks(c, |c.file|, |Split(c.file, c.chunkSize)|)
  }

  lemma {:induction false} CompletionKeeps(c: Config, r: Receiver, body: Bytes, signed: set<Bytes>)
    ensures var r' := HandleComplete(c, r, body, signed).0; r'.state == r.state && r'.broken == r.broken
  {
    hide CompleteJson, ParseCanonical, CompleteOf, CanonicalBytes, Decode, Sha256, Join;
  }

  lemma {:induction false} FileIsVerified(c: Config, r: Receiver, signature: Bytes, signed: set<Bytes>)
    requires Announceable(c) && c.chunkSize > 0 && CompletionSigned(c, signature) && r == AfterFile(c)
    requires BodyOf(CompleteJson(WholeFile(c))) in signed
    ensures var (r', result) := HandleComplete(c, r, CompleteFrame(c, signature).plaintext, signed);
            result == Ok(ReceiptOfFile(c)) && r'.awaiting == Some(WholeDelivery(c)) && r'.state == Receiving
                && !r'.broken
  {
    hide BodyOf, CompleteJson, SignedJson, Completion, Announceable, Split, HandleComplete, Sha256, Encode;
    CompletionKeeps(c, r, CompleteFrame(c, signature).plaintext, signed);
    assert c.file[..|c.file|] == c.file;
    var cut := Split(c.file, c.chunkSize);
    assert cut[..|cut|] == cut;
    CompletionTaken(c, r, signature, signed);
  }

  lemma {:induction false} ReceiptIsMade(
      c: Config, x: ReceiverSide, peer: Endpoint, signature: Bytes, signed: set<Bytes>)
    requires Announceable(c) && c.chunkSize > 0 && CompletionSigned(c, signature) && x.r == AfterFile(c)
    requires BodyOf(CompleteJson(WholeFile(c))) in signed && Confirmed(x.link) && x.link.end.stream.direction == R2S
    requires x.link.end.stream.sendNext == 2 && x.link.end.stream.sentType == Some(Accept)
    ensures var f := ReceiptFrame(c);
            var y := ReceiverAnswers(c, x, peer, CompleteFrame(c, signature), signed);
            && Sendable(x.link.end, f, Sealing(f)) && y.link == Do(x.link, peer, Create(f.frameType, f.plaintext))
            && y.r.awaiting == Some(WholeDelivery(c)) && !y.r.broken
  {
    hide Do, CreateError, BodyOf, HandleComplete, CompleteJson, SignedJson, Completion, ReceiptJson, Announceable,
    Split, AfterFile, Encode,
         Sha256;
    FileIsVerified(c, x.r, signature, signed);
    ReceiptFits(c);
    Allowed(x.link.end.stream, Receipt, ReceiptFrame(c).plaintext);
  }

  lemma {:induction false} ReceiptArrives(c: Config, x: SenderSide, peer: Endpoint)
    requires Announceable(c) && c.chunkSize > 0 && x.s.completionSent && x.s.sentCompletion == Some(WholeFile(c))
             && x.s.receipt.Pending?
    ensures SenderAnswers(c, x, peer, ReceiptFrame(c)) == x.(s
            := x.s.(receipt := Resolved(ReceiptOfFile(c)), state := Completed))
  {
    hide HandleReceipt, BodyOf, ReceiptJson, Announceable, Split, Encode, Sha256;
    ReceiptTaken(c, x.s, |Split(c.file, c.chunkSize)|);
  }

  // The receipt has been made, but not encrypted; `yb` is the same without it.
  ghost predicate IsVerified(c: Config, y: System, yb: System)
    requires c.chunkSize > 0
  {
    && Paired(c, yb) && Sendable(yb.receiver.link.end, ReceiptFrame(c), Sealing(ReceiptFrame(c)))
    && y == yb.(receiver := y.receiver) && y.receiver.r.awaiting == Some(WholeDelivery(c)) && !y.receiver.r.broken
    && y.receiver.link == Do(yb.receiver.link, yb.sender.link.end, Create(Receipt, ReceiptFrame(c).plaintext))
    && y.sender.s.phase == AwaitingReceipt && y.sender.s.completionSent
       && y.sender.s.sentCompletion == Some(WholeFile(c))
    && y.sender.s.receipt.Pending? && y.sender.s.inFlight in y.sender.link.end.log
  }

  // The sender's side of the completion.
  lemma {:induction false} CompletionAdvance(c: Config, y: System, signature: Bytes) returns (x: SenderSide)
    requires Announceable(c) && c.chunkSize > 0 && CompletionSigned(c, signature) && Reachable(c, y)
    requires IsMidway(c, y, |c.file|, |Split(c.file, c.chunkSize)|)
    ensures var f := CompleteFrame(c, signature);
            && Reachable(c, y.(sender := x)) && Sendable(y.sender.link.end, f, Sealing(f)) && !x.s.broken
            && x.link == Do(y.sender.link, y.receiver.link.end, Create(f.frameType, f.plaintext))
            && BodyOf(CompleteJson(WholeFile(c))) in x.signed && x.s.phase == AwaitingReceipt && x.s.completionSent
            && x.s.sentCompletion == Some(WholeFile(c)) && x.s.receipt.Pending?
               && x.s.inFlight == y.sender.link.end.stream.sendNext
            && Confirmed(y.sender.link) && Confirmed(y.receiver.link)
  {
    hide InStep, Sendable, Do, Announceable, Reachable, Advanced, Split, Next, AfterChunks, CompleteFrame, WholeFile,
    BodyOf,
         CompletionSigned;
    FileIsSmall(c);
    NoMoreChunksThanBytes(c.file, c.chunkSize);
    ConfirmedBothWays(y);
    CompletionIsSent(c, y.sender, y.receiver.link.end, signature);
    AdvanceNext(c, y, signature);
    ReachNext(c, y, BySender(Advance(signature)));
    x := Advanced(c, y.sender, y.receiver.link.end, signature);
  }

  lemma {:induction false} FinalTypes(c: Config, signature: Bytes)
    requires c.chunkSize > 0
    ensures CompleteFrame(c, signature).frameType == Complete && ReceiptFrame(c).frameType == Receipt
  {
  }

  lemma {:induction false} Completing(c: Config, y: System, signature: Bytes) returns (y': System, yb: System)
    requires Announceable(c) && c.chunkSize > 0 && CompletionSigned(c, signature) && Reachable(c, y)
    requires IsMidway(c, y, |c.file|, |Split(c.file, c.chunkSize)|)
    ensures Reachable(c, y') && IsVerified(c, y', yb)
  {
    hide Moved, InStep, Sendable, Do, ReceiverAnswers, Announceable, Reachable, Split, AfterChunks, CompleteFrame,
    WholeFile, BodyOf,
         CompletionSigned, ReceiptFrame;
    FinalTypes(c, signature);
    var f := CompleteFrame(c, signature);
    var x := CompletionAdvance(c, y, signature);
    SenderDelivers(c, y, x, f, Sealing(f));
    y' := Moved(c, y.(sender := x), SenderMoves(y, f, Sealing(f)));
    ReachOn(c, y.(sender := x), SenderMoves(y, f, Sealing(f)));
    var given := ReceiverSide(y.receiver.r, Given(y.receiver.link, f));
    ReceiptIsMade(c, given, y'.sender.link.end, signature, x.signed);
    StillWorking(c, |c.file|, |Split(c.file, c.chunkSize)|);
    yb := y'.(receiver := given);
  }

  // The file is there under its name and type, and sendFile has its receipt.
  ghost predicate IsDelivered(c: Config, y: System) {
    && y.sender.s.phase == Returned(ReceiptOfFile(c)) && y.receiver.r.state == Completed
    && y.receiver.r.received
       == Some(ReceivedFile(c.file, c.fileName, c.mediaType, |c.file|, Encode(Sha256(c.file))))
  }

  lemma {:induction false} ReturnsReceipt(c: Config, x: SenderSide, peer: Endpoint)
    requires x.s.phase == AwaitingReceipt && x.s.inFlight in x.link.end.log && x.s.receipt == Resolved(ReceiptOfFile(c))
    ensures Advanced(c, x, peer, []) == x.(s := x.s.(phase := Returned(ReceiptOfFile(c))))
  {
    hide SendOffer, SendManifest, SendChunk, SendCompletion, ReceiptOfFile;
  }

  lemma {:induction false} Finishing(c: Config, y: System, yb: System) returns (y': System)
    requires Announceable(c) && c.chunkSize > 0 && Reachable(c, y) && IsVerified(c, y, yb)
    ensures Reachable(c, y') && IsDelivered(c, y')
  {
    hide Moved, InStep, Sendable, Do, SenderAnswers, Announceable, Reachable, Split, WholeFile, BodyOf, ReceiptFrame,
    ReceiptOfFile, Next,
         Advanced;
    FinalTypes(c, []);
    var f := ReceiptFrame(c);
    ReceiverDelivers(c, yb, y.receiver, f, Sealing(f));
    assert yb.(receiver := y.receiver) == y;
    var y1 := Moved(c, y, ReceiverMoves(yb, f, Sealing(f)));
    ReachOn(c, y, ReceiverMoves(yb, f, Sealing(f)));
    ReceiptArrives(c, yb.sender.(link := Given(yb.sender.link, f)), y1.receiver.link.end);
    ReturnsReceipt(c, y1.sender, y1.receiver.link.end);
    AdvanceNext(c, y1, []);
    ReachNext(c, y1, BySender(Advance([])));
    y' := Next(c, y1, BySender(Advance([])));
  }

  /** For every announceable file, whatever its size and its chunk size, there is a run of the two engines over the
      encrypted channel in which the receiver ends with exactly that file, its name and its type, and sendFile returns
      its receipt. */
  lemma {:induction false} FileGoesThrough(c: Config, offerSignature: Bytes, completeSignature: Bytes)
    requires Announceable(c) && c.accepted && c.chunkSize > 0
    requires OfferSigned(c, offerSignature) && CompletionSigned(c, completeSignature)
    ensures exists moves :: IsDelivered(c, After(c, moves))
  {
    hide *;
    AnnounceableIsValid(c);
    var open := Opening(c);
    var offered, unanswered := Offering(c, open, offerSignature);
    var accepted := Accepting(c, offered, unanswered);
    var midway := Announcing(c, accepted);
    midway := SendingAll(c, midway, 0, 0);
    var verified, unverified := Completing(c, midway, completeSignature);
    var y := Finishing(c, verified, unverified);
    ReachedByRun(c, y);
  }

  lemma {:induction false} AnnounceableIsValid(c: Config)
    requires Announceable(c)
    ensures ValidConfig(c) && Presentable(c)
  {
  }

  lemma {:induction false} ReachedByRun(c: Config, y: System)
    requires Reachable(c, y) && IsDelivered(c, y)
    ensures exists moves :: IsDelivered(c, After(c, moves))
  {
    hide After, IsDelivered;
    var moves :| After(c, moves) == y;
    assert IsDelivered(c, After(c, moves));
  }
}
