/** What holds in every run of the two file-transfer engines. */
module FileSafety {
  import opened Outcomes
  import opened Bytes
  import opened Utf
  import opened JsonText
  import opened Records
  import opened Base64Url
  import opened Sha256Spec
  import opened ChunkSplit
  import opened SignedObjects
  import opened Payloads
  import opened FrameHeader
  import opened FrameStream
  import opened FrameChannel
  import opened FileEngine

  // ----- Every frame that is encrypted is the one its counter was reserved for -----

  ghost predicate Tracks(l: Link) {
    && CountersOk(l.end) && |l.made| == l.end.stream.sendNext
    && (l.end.stream.sentConfirmation ==> l.made != [])
    && (forall i :: i in l.end.drafts ==> l.end.drafts[i] == l.made[i])
    && (forall i :: i in l.end.log ==> SentAs(l.end, i, l.made[i]))
  }

  lemma DoKeepsTracks(l: Link, peer: Endpoint, a: Act)
    requires Tracks(l)
    ensures Tracks(Do(l, peer, a)) && l.made <= Do(l, peer, a).made
  {
    hide EncodeFrameHeader, FrameNonce, CreateError, Inspect, Received, SplitFrame, Opened;
    ActKeepsCounters(l.end, peer, a);
    var l' := Do(l, peer, a);
    match a
    case Create(t, body) =>
    case Seal(c, ciphertext) =>
      forall i | i in l'.end.log ensures SentAs(l'.end, i, l'.made[i]) {
        if i in l.end.log { assert SentAs(l.end, i, l.made[i]); }
      }
    case _ =>
      ActKeepsHalves(l.end, peer, a);
  }

  // The receiver's frames are, in order, the first frames the sender reserved.
  ghost predicate Copies(delivered: seq<Frame>, made: seq<Frame>) {
    |delivered| <= |made| && forall i :: 0 <= i < |delivered| ==> delivered[i] == made[i]
  }

  lemma {:induction false} PrefixCopies(e: Endpoint, peer: Link)
    requires IsPrefix(e, peer.end) && Tracks(peer)
    ensures Copies(e.delivered, peer.made)
  {
    forall i | 0 <= i < |e.delivered| ensures i < |peer.made| && e.delivered[i] == peer.made[i] {
      assert SentAs(peer.end, i, e.delivered[i]) && SentAs(peer.end, i, peer.made[i]);
    }
    if |e.delivered| > 0 {
      assert SentAs(peer.end, |e.delivered| - 1, e.delivered[|e.delivered| - 1]);
    }
  }

  // ----- The sender's script -----

  predicate IsTerminal(f: Frame) { f.frameType == Cancel || f.frameType == Error }

  function Plain(fs: seq<Frame>): seq<Frame> {
    if fs == [] then []
    else Plain(fs[..|fs| - 1]) + if IsTerminal(fs[|fs| - 1]) then [] else [fs[|fs| - 1]]
  }

  lemma {:induction false} PlainAppend(fs: seq<Frame>, f: Frame)
    ensures Plain(fs + [f]) == Plain(fs) + if IsTerminal(f) then [] else [f]
  {
    assert (fs + [f])[..|fs|] == fs;
  }

  lemma {:induction false} PlainPrefix(fs: seq<Frame>, n: nat)
    requires n <= |fs|
    ensures Plain(fs[..n]) <= Plain(fs)
    decreases |fs| - n
  {
    if n == |fs| {
      assert fs[..n] == fs;
    } else {
      PlainPrefix(fs, n + 1);
      assert fs[..n + 1] == fs[..n] + [fs[n]];
      PlainAppend(fs[..n], fs[n]);
    }
  }

  lemma {:induction false} PlainOfPlain(fs: seq<Frame>)
    requires forall i :: 0 <= i < |fs| ==> !IsTerminal(fs[i])
    ensures Plain(fs) == fs
  {
    if fs != [] {
      PlainOfPlain(fs[..|fs| - 1]);
      assert fs == fs[..|fs| - 1] + [fs[|fs| - 1]];
    }
  }

  function ChunkFrames(chunks: seq<Bytes>): (r: seq<Frame>)
    ensures |r| == |chunks| && forall i :: 0 <= i < |r| ==> r[i] == Frame(Chunk, chunks[i])
  {
    seq(|chunks|, i requires 0 <= i < |chunks| => Frame(Chunk, chunks[i]))
  }

  // The frames of a sendFile call that runs to its end.
  ghost function Script(c: Config, s: Sender): (r: seq<Frame>)
    requires c.chunkSize > 0
    ensures |r| == 3 + |Split(c.file, c.chunkSize)|
  {
    [Frame(FileOffer, s.offerBody), Frame(Manifest, BodyOf(ManifestJson(ManifestOfFile(c))))]
    + ChunkFrames(Split(c.file, c.chunkSize)) + [Frame(Complete, s.completeBody)]
  }

  predicate PhaseOk(c: Config, s: Sender)
    requires c.chunkSize > 0
  {
    var cut := Split(c.file, c.chunkSize);
    match s.phase
    case NotStarted => s.sent == []
    case AwaitingConfirmation => s.sent == []
    case AwaitingAcceptance => |s.sent| == 1
    case Sending(offset, count) =>
      |s.sent| == 2 + count && offset <= |c.file| && count <= |cut|
          && cut[count..] == Split(c.file[offset..], c.chunkSize)
    case AwaitingReceipt => |s.sent| == 3 + |cut|
    case Returned(_) => |s.sent| == 3 + |cut|
    case Threw => true
  }

  // The frames other than cancellations that the sender reserved are its confirmation and a beginning of its script.
  ghost predicate Scripted(c: Config, s: Sender, made: seq<Frame>)
    requires c.chunkSize > 0
  {
    && PhaseOk(c, s) && s.sent <= Script(c, s)
    && Plain(made) == (if made == [] then [] else [Frame(Confirm, c.confirmation)]) + s.sent
    && (made == [] ==> s.sent == [])
  }

  // ----- How a link changes -----

  // What FrameChannel keeps of an endpoint and its peer.
  ghost predicate Joined(e: Endpoint, peer: Endpoint) {
    && CountersOk(e) && SamePeers(e, peer) && SamePeers(peer, e)
    && ReceivingOk(e) && InspectedOk(e) && IsPrefix(e, peer) && IsPrefix(peer, e)
  }

  ghost predicate Evolves(l: Link, l': Link, peer: Endpoint) {
    && Joined(l'.end, peer) && Tracks(l') && l.made <= l'.made
    && l'.end.stream.direction == l.end.stream.direction && l.end.delivered <= l'.end.delivered
  }

  lemma StaysPut(l: Link, peer: Endpoint)
    requires Joined(l.end, peer) && Tracks(l)
    ensures Evolves(l, l, peer)
  {
  }

  lemma DoEvolves(l: Link, peer: Endpoint, a: Act)
    requires Joined(l.end, peer) && Tracks(l)
    ensures Evolves(l, Do(l, peer, a), peer)
    ensures !a.Receive? && !a.Decrypt? ==> Do(l, peer, a).end.delivered == l.end.delivered
    ensures !a.Create? ==> Do(l, peer, a).made == l.made
  {
    hide CountersOk, SamePeers, ReceivingOk, InspectedOk, IsPrefix, Tracks;
    EndpointStep(l.end, peer, a);
    DoKeepsTracks(l, peer, a);
    ActKeepsHalves(l.end, peer, a);
    DeliveredGrows(l.end, peer, a);
  }

  lemma DeliveredGrows(e: Endpoint, peer: Endpoint, a: Act)
    ensures e.delivered <= Acted(e, peer, a).delivered
    ensures |Acted(e, peer, a).delivered| <= |e.delivered| + 1
  {
    hide EncodeFrameHeader, FrameNonce, CreateError, Inspect, Received, SplitFrame, Opened, Admit;
  }

  lemma SendFrameEvolves(state: State, l: Link, peer: Endpoint, f: Frame)
    requires Joined(l.end, peer) && Tracks(l)
    ensures var r := SendFrame(state, l, peer, f);
            r.Some? ==>
              && Evolves(l, r.value, peer) && r.value.made == l.made + [f]
              && r.value.end.delivered == l.end.delivered && (f.frameType == Confirm <==> l.made == [])
  {
    hide Joined;
    DoEvolves(l, peer, Create(f.frameType, f.plaintext));
  }

  // Confirmations and cancellations leave the script alone.
  lemma ScriptedOtherFrame(c: Config, s: Sender, made: seq<Frame>, f: Frame)
    requires c.chunkSize > 0 && Scripted(c, s, made)
    requires if made == [] then f == Frame(Confirm, c.confirmation) else IsTerminal(f)
    ensures Scripted(c, s, made + [f])
  {
    hide PhaseOk, Script, Plain;
    PlainAppend(made, f);
  }

  lemma ConfirmationEvolves(c: Config, state: State, l: Link, peer: Endpoint)
    requires Joined(l.end, peer) && Tracks(l)
    ensures var r := SendConfirmation(c, state, l, peer);
            r.Some? ==> Evolves(l, r.value, peer) && r.value.end.delivered == l.end.delivered
                        && (r.value == l || (l.made == [] && r.value.made == [Frame(Confirm, c.confirmation)]))
  {
    hide Joined, SendFrame;
    var f := Frame(Confirm, c.confirmation);
    SendFrameEvolves(state, l, peer, f);
    StaysPut(l, peer);
    assert [] + [f] == [f];
  }

  lemma StartedEvolves(c: Config, state: State, l: Link, peer: Endpoint)
    requires Joined(l.end, peer) && Tracks(l)
    ensures var l' := Started(c, state, l, peer).1;
            Evolves(l, l', peer) && l'.end.delivered == l.end.delivered
            && (l' == l || (l.made == [] && l'.made == [Frame(Confirm, c.confirmation)]))
  {
    hide Joined, Tracks, SendConfirmation;
    StaysPut(l, peer);
    ConfirmationEvolves(c, Confirming, l, peer);
    ConfirmationEvolves(c, state, l, peer);
  }

  // A link that only gained the first confirmation, if anything.
  lemma ScriptedConfirmed(c: Config, s: Sender, made: seq<Frame>, made': seq<Frame>)
    requires c.chunkSize > 0 && Scripted(c, s, made)
    requires made' == made || (made == [] && made' == [Frame(Confirm, c.confirmation)])
    ensures Scripted(c, s, made')
  {
    hide Scripted;
    if made' != made {
      ScriptedOtherFrame(c, s, made, made'[0]);
      assert made + [made'[0]] == made';
    }
  }

  lemma SentTerminalEvolves(c: Config, state: State, l: Link, peer: Endpoint, t: FrameType, body: Bytes)
    requires Joined(l.end, peer) && Tracks(l)
    ensures var l' := SentTerminal(c, state, l, peer, t, body).1;
            Evolves(l, l', peer) && l'.end.delivered == l.end.delivered
            && forall i :: |l.made| <= i < |l'.made| ==> l'.made[i].frameType !in {Receipt, Accept}
  {
    hide Joined, Tracks, SendFrame, Started;
    StaysPut(l, peer);
    StartedEvolves(c, state, l, peer);
    var (state', l') := Started(c, state, l, peer);
    SendFrameEvolves(state', l', peer, Frame(t, body));
  }

  lemma SentTerminalScripted(c: Config, s: Sender, state: State, l: Link, peer: Endpoint, t: FrameType, body: Bytes)
    requires c.chunkSize > 0 && Joined(l.end, peer) && Tracks(l) && Scripted(c, s, l.made)
    ensures Scripted(c, s, SentTerminal(c, state, l, peer, t, body).1.made)
  {
    hide Joined, Tracks, Scripted, SendFrame, Started;
    StartedEvolves(c, state, l, peer);
    var (state', l') := Started(c, state, l, peer);
    ScriptedConfirmed(c, s, l.made, l'.made);
    SendFrameEvolves(state', l', peer, Frame(t, body));
    if l'.made != [] && (t == Cancel || t == Error) {
      ScriptedOtherFrame(c, s, l'.made, Frame(t, body));
    }
  }

  // ----- The sender's invariant -----

  predicate Got(e: Endpoint, t: FrameType) {
    exists i :: 0 <= i < |e.delivered| && e.delivered[i].frameType == t
  }

  predicate ReceiptMatches(c: Config, r: TransferReceipt) {
    r == TransferReceipt(c.transferId, |c.file|, Encode(Sha256(c.file)))
  }

  ghost predicate ReceiptOk(c: Config, s: Sender, e: Endpoint)
    requires c.chunkSize > 0
  {
    && (s.sentCompletion.Some? ==> s.sentCompletion.value == Completion(c, |Split(c.file, c.chunkSize)|))
    && (s.receipt.Resolved? ==> ReceiptMatches(c, s.receipt.value) && Got(e, Receipt))
    && (s.phase.Returned? ==> s.receipt == Resolved(s.phase.receipt))
    && (s.remoteAccepted ==> Got(e, Accept)) && (s.acceptance.Resolved? ==> s.remoteAccepted)
    && (|s.sent| >= 2 ==> s.remoteAccepted)
  }

  ghost predicate SenderOk(c: Config, x: SenderSide, peer: Endpoint)
    requires c.chunkSize > 0
  {
    && Joined(x.link.end, peer) && Tracks(x.link)
    && Scripted(c, x.s, x.link.made) && ReceiptOk(c, x.s, x.link.end)
  }

  // Appending the script's next frame.
  lemma ScriptedNext(c: Config, s: Sender, made: seq<Frame>, f: Frame, s': Sender)
    requires c.chunkSize > 0 && Scripted(c, s, made) && made != []
    requires |s.sent| < |Script(c, s')| && f == Script(c, s')[|s.sent|] && !IsTerminal(f)
    requires s'.sent == s.sent + [f] && s.sent <= Script(c, s') && PhaseOk(c, s')
    ensures Scripted(c, s', made + [f])
  {
    hide PhaseOk, Script, Plain;
    PlainAppend(made, f);
    assert s'.sent == Script(c, s')[..|s'.sent|];
  }

  // The first `n` frames of the script are the ones that were sent, and the next one is `f`.
  ghost predicate Continues(c: Config, s: Sender, next: Sender, f: Frame)
    requires c.chunkSize > 0
  {
    && next.sent == s.sent && |s.sent| < |Script(c, next)| && s.sent <= Script(c, next)
       && f == Script(c, next)[|s.sent|]
    && f.frameType != Confirm && !IsTerminal(f)
    && PhaseOk(c, next.(sent := s.sent + [f])) && !next.phase.Returned? && (s.sent != [] ==> next.remoteAccepted)
  }

  // A sendFrame call of sendFile keeps the invariant if the frame is the script's next one.
  lemma SendNextOk(c: Config, x: SenderSide, peer: Endpoint, f: Frame, next: Sender)
    requires c.chunkSize > 0 && SenderOk(c, x, peer) && Continues(c, x.s, next, f) && ReceiptOk(c, next, x.link.end)
    ensures SenderOk(c, SendNext(x, peer, f, next), peer) && Evolves(x.link, SendNext(x, peer, f, next).link, peer)
  {
    hide Joined, Tracks, Scripted, PhaseOk, SendFrame, Script, IsTerminal, ReceiptMatches;
    SendFrameEvolves(next.state, x.link, peer, f);
    var y := SendNext(x, peer, f, next);
    SameScript(c, next, y.s);
    match SendFrame(next.state, x.link, peer, f)
    case Some(l) =>
      PhaseIgnoresFlight(c, next.(sent := x.s.sent + [f]), y.s);
      ScriptedNext(c, x.s, x.link.made, f, y.s);
    case None =>
      ScriptedAfterThrow(c, x.s, x.link.made, y.s);
  }

  lemma PhaseIgnoresFlight(c: Config, s: Sender, s': Sender)
    requires c.chunkSize > 0 && PhaseOk(c, s) && s'.sent == s.sent && s'.phase == s.phase
    ensures PhaseOk(c, s')
  {
  }

  lemma SameScript(c: Config, s: Sender, s': Sender)
    requires c.chunkSize > 0 && s.offerBody == s'.offerBody && s.completeBody == s'.completeBody
    ensures Script(c, s) == Script(c, s')
  {
  }

  lemma ScriptedAfterThrow(c: Config, s: Sender, made: seq<Frame>, s': Sender)
    requires c.chunkSize > 0 && Scripted(c, s, made) && s'.sent == s.sent && s'.phase == Threw
             && s.sent <= Script(c, s')
    ensures Scripted(c, s', made)
  {
  }

  lemma OfferContinues(c: Config, s: Sender, next: Sender)
    requires c.chunkSize > 0 && s.sent == [] == next.sent && next.phase == AwaitingAcceptance
    ensures Continues(c, s, next, Frame(FileOffer, next.offerBody))
  {
    hide BodyOf, ManifestJson, Split;
  }

  lemma ManifestContinues(c: Config, s: Sender, next: Sender)
    requires c.chunkSize > 0 && next.remoteAccepted && s.sent == next.sent && s.sent <= Script(c, next) && |s.sent| == 1
             && next.phase == Sending(0, 0)
    ensures Continues(c, s, next, Frame(Manifest, BodyOf(ManifestJson(ManifestOfFile(c)))))
  {
    hide BodyOf, ManifestJson, Split;
    assert c.file[0..] == c.file && Split(c.file, c.chunkSize)[0..] == Split(c.file, c.chunkSize);
  }

  lemma ChunkContinues(c: Config, s: Sender, next: Sender, offset: nat, count: nat)
    requires c.chunkSize > 0 && next.remoteAccepted && s.sent == next.sent && s.sent <= Script(c, next)
             && |s.sent| == 2 + count
             && offset < |c.file|
    requires count <= |Split(c.file, c.chunkSize)| && Split(c.file, c.chunkSize)[count..]
             == Split(c.file[offset..], c.chunkSize)
    requires next.phase == Sending(if offset + c.chunkSize < |c.file| then offset + c.chunkSize
             else |c.file|, count + 1)
    ensures Continues(c, s, next, Frame(Chunk, c.file[offset..next.phase.offset]))
  {
    hide BodyOf, Split;
    NextChunk(c.file, c.chunkSize, offset, count);
  }

  lemma CompletionContinues(c: Config, s: Sender, next: Sender)
    requires c.chunkSize > 0 && next.remoteAccepted && s.sent == next.sent && s.sent <= Script(c, s)
             && s.offerBody == next.offerBody
    requires |s.sent| == 2 + |Split(c.file, c.chunkSize)| && next.phase == AwaitingReceipt
    ensures Continues(c, s, next, Frame(Complete, next.completeBody))
  {
    hide BodyOf, Split;
  }

  lemma ThrowOk(c: Config, x: SenderSide, peer: Endpoint, s': Sender)
    requires c.chunkSize > 0 && SenderOk(c, x, peer) && s'.phase == Threw && s'.sent == x.s.sent
    requires s'.offerBody == x.s.offerBody && s'.completeBody == x.s.completeBody && ReceiptOk(c, s', x.link.end)
    ensures SenderOk(c, x.(s := s'), peer) && Evolves(x.link, x.link, peer)
  {
    hide Joined, Tracks, Script, Plain;
    SameScript(c, x.s, s');
    ScriptedAfterThrow(c, x.s, x.link.made, s');
    StaysPut(x.link, peer);
  }

  lemma SendOfferOk(c: Config, x: SenderSide, peer: Endpoint, signature: Bytes)
    requires c.chunkSize > 0 && SenderOk(c, x, peer) && x.s.phase == AwaitingConfirmation
    ensures SenderOk(c, SendOffer(c, x, peer, signature), peer)
            && Evolves(x.link, SendOffer(c, x, peer, signature).link, peer)
  {
    hide OfferJson, SignedJson, Joined, Tracks, CanonicalBytes, BodyOf, OfferOfFile, SendNext, Script, Plain, Evolves,
         Continues, ReceiptMatches, Completion;
    match CanonicalBytes(OfferJson(OfferOfFile(c)))
    case Err(_) => ThrowOk(c, x, peer, x.s.(phase := Threw));
    case Ok(message) =>
      var body := BodyOf(SignedJson(OfferJson(OfferOfFile(c)), signature));
      var next := x.s.(acceptance := Pending, offerBody := body, phase := AwaitingAcceptance);
      OfferContinues(c, x.s, next);
      SendNextOk(c, x.(signed := x.signed + {message}), peer, Frame(FileOffer, body), next);
  }

  lemma SendManifestOk(c: Config, x: SenderSide, peer: Endpoint)
    requires c.chunkSize > 0 && SenderOk(c, x, peer) && x.s.phase == AwaitingAcceptance && x.s.acceptance.Resolved?
    ensures SenderOk(c, SendManifest(c, x, peer), peer) && Evolves(x.link, SendManifest(c, x, peer).link, peer)
  {
    hide Joined, Tracks, CanonicalBytes, BodyOf, ManifestOfFile, SendNext, Script, Plain, Evolves, Continues,
         ReceiptMatches, Completion;
    var next := x.s.(state := SendingFile, phase := Sending(0, 0));
    SameScript(c, x.s, next);
    if Ended(x.s.state) || CanonicalBytes(ManifestJson(ManifestOfFile(c))).Err? {
      ThrowOk(c, x, peer, x.s.(phase := Threw));
    } else {
      ManifestContinues(c, x.s, next);
      SendNextOk(c, x, peer, Frame(Manifest, BodyOf(ManifestJson(ManifestOfFile(c)))), next);
    }
  }

  lemma SendChunkOk(c: Config, x: SenderSide, peer: Endpoint, offset: nat, count: nat)
    requires c.chunkSize > 0 && SenderOk(c, x, peer) && x.s.phase == Sending(offset, count) && offset < |c.file|
    ensures SenderOk(c, SendChunk(c, x, peer, offset, count), peer)
            && Evolves(x.link, SendChunk(c, x, peer, offset, count).link, peer)
  {
    hide Joined, Tracks, SendNext, Split, Script, Plain, Evolves, Continues, ReceiptMatches, Completion;
    var to := if offset + c.chunkSize < |c.file| then offset + c.chunkSize else |c.file|;
    var next := x.s.(phase := Sending(to, count + 1));
    SameScript(c, x.s, next);
    ChunkContinues(c, x.s, next, offset, count);
    SendNextOk(c, x, peer, Frame(Chunk, c.file[offset..to]), next);
  }

  lemma LoopEnds(c: Config, count: nat)
    requires c.chunkSize > 0 && count <= |Split(c.file, c.chunkSize)|
    requires Split(c.file, c.chunkSize)[count..] == Split(c.file[|c.file|..], c.chunkSize)
    ensures count == |Split(c.file, c.chunkSize)|
  {
    var cut := Split(c.file, c.chunkSize);
    assert c.file[|c.file|..] == [] && |cut[count..]| == |cut| - count;
  }

  lemma SendCompletionOk(c: Config, x: SenderSide, peer: Endpoint, count: nat, signature: Bytes)
    requires c.chunkSize > 0 && SenderOk(c, x, peer) && x.s.phase == Sending(|c.file|, count)
    ensures var y := SendCompletion(c, x, peer, count, signature);
            SenderOk(c, y, peer) && Evolves(x.link, y.link, peer)
  {
    hide CompleteJson, SignedJson, Got, Joined, Tracks, CanonicalBytes, BodyOf, Completion, SendNext, Script,
         Plain, Split, Evolves, Continues, ReceiptMatches;
    LoopEnds(c, count);
    var core := Completion(c, count);
    match CanonicalBytes(CompleteJson(core))
    case Err(_) => ThrowOk(c, x, peer, x.s.(phase := Threw, sentCompletion := Some(core)));
    case Ok(message) =>
      var body := BodyOf(SignedJson(CompleteJson(core), signature));
      var next := x.s.(sentCompletion := Some(core), receipt := Pending, completionSent := true, completeBody := body,
          phase := AwaitingReceipt);
      CompletionContinues(c, x.s, next);
      SendNextOk(c, x.(signed := x.signed + {message}), peer, Frame(Complete, body), next);
  }

  lemma AdvancedOk(c: Config, x: SenderSide, peer: Endpoint, signature: Bytes)
    requires c.chunkSize > 0 && SenderOk(c, x, peer)
    ensures SenderOk(c, Advanced(c, x, peer, signature), peer)
            && Evolves(x.link, Advanced(c, x, peer, signature).link, peer)
  {
    hide Joined, Tracks, Script, Plain, Split, Evolves, ReceiptMatches, Completion, SendOffer, SendManifest, SendChunk,
         SendCompletion;
    StaysPut(x.link, peer);
    match x.s.phase
    case AwaitingConfirmation => SendOfferOk(c, x, peer, signature);
    case AwaitingAcceptance => if x.s.acceptance.Resolved? { SendManifestOk(c, x, peer); }
    case Sending(offset, count) =>
      if offset < |c.file| {
        SendChunkOk(c, x, peer, offset, count);
      } else {
        SendCompletionOk(c, x, peer, count, signature);
      }
    case AwaitingReceipt =>
      SameScript(c, x.s, x.s.(phase := Returned(if x.s.receipt.Resolved? then x.s.receipt.value
          else TransferReceipt([], 0, []))));
    case _ =>
  }

  // Nothing the script depends on.
  ghost predicate SameSending(s: Sender, s': Sender) {
    s'.phase == s.phase && s'.sent == s.sent && s'.offerBody == s.offerBody && s'.completeBody == s.completeBody
  }

  lemma ScriptedSame(c: Config, s: Sender, s': Sender, made: seq<Frame>)
    requires c.chunkSize > 0 && Scripted(c, s, made) && SameSending(s, s')
    ensures Scripted(c, s', made)
  {
    hide Plain;
    SameScript(c, s, s');
  }

  lemma ReceiptGrows(c: Config, s: Sender, e: Endpoint, e': Endpoint)
    requires c.chunkSize > 0 && ReceiptOk(c, s, e) && e.delivered <= e'.delivered
    ensures ReceiptOk(c, s, e')
  {
    hide Completion, ReceiptMatches;
    forall t | Got(e, t) ensures Got(e', t) {
      var i :| 0 <= i < |e.delivered| && e.delivered[i].frameType == t;
      assert e'.delivered[i].frameType == t;
    }
  }

  lemma AcceptHandled(c: Config, s: Sender, body: Bytes, e: Endpoint)
    requires c.chunkSize > 0 && ReceiptOk(c, s, e) && Got(e, Accept)
    ensures var s' := HandleAccept(c, s, body).0; SameSending(s, s') && ReceiptOk(c, s', e)
  {
    hide ParseCanonical, AcceptOf, Got, ReceiptMatches, Completion;
  }

  lemma ReceiptHandled(c: Config, s: Sender, body: Bytes, e: Endpoint)
    requires c.chunkSize > 0 && ReceiptOk(c, s, e) && Got(e, Receipt)
    ensures var s' := HandleReceipt(c, s, body).0; SameSending(s, s') && ReceiptOk(c, s', e)
  {
    hide ParseCanonical, ReceiptOf, Got, Sha256, Encode, Split;
  }

  // A handler only settles the promises; the receipt it accepts is for this file and came in a receipt frame.
  lemma SenderHandlesOk(c: Config, s: Sender, f: Frame, e: Endpoint)
    requires c.chunkSize > 0 && ReceiptOk(c, s, e) && e.delivered != [] && f == e.delivered[|e.delivered| - 1]
    ensures var s' := SenderHandles(c, s, f).0; SameSending(s, s') && ReceiptOk(c, s', e)
  {
    hide HandleAccept, HandleReceipt, TerminalPayload, ReceiptOk, Halted;
    assert Got(e, f.frameType);
    match f.frameType
    case Accept => AcceptHandled(c, s, f.plaintext, e);
    case Receipt => ReceiptHandled(c, s, f.plaintext, e);
    case _ => HaltedOk(c, s, Failed, e);
  }

  lemma SenderFailedOk(c: Config, s: Sender, e: Endpoint)
    requires c.chunkSize > 0 && ReceiptOk(c, s, e)
    ensures SameSending(s, SenderFailed(s)) && ReceiptOk(c, SenderFailed(s), e)
  {
    hide ReceiptMatches, Completion, Got;
  }

  // Putting together a new sender state and a new link.
  lemma SenderMoved(c: Config, x: SenderSide, l: Link, s: Sender, peer: Endpoint)
    requires c.chunkSize > 0 && SenderOk(c, x, peer) && Evolves(x.link, l, peer)
    requires Scripted(c, x.s, l.made) && SameSending(x.s, s) && ReceiptOk(c, s, l.end)
    ensures SenderOk(c, x.(s := s, link := l), peer)
  {
    hide Joined, Tracks, Scripted, ReceiptOk;
    ScriptedSame(c, x.s, s, l.made);
  }

  lemma SenderReceivesOk(c: Config, x: SenderSide, peer: Endpoint, frame: Bytes, claimed: Option<Bytes>)
    requires c.chunkSize > 0 && SenderOk(c, x, peer)
    ensures var y := SenderReceives(c, x, peer, frame, claimed);
            SenderOk(c, y, peer) && Evolves(x.link, y.link, peer)
  {
    hide Joined, Tracks, Scripted, ReceiptOk, SenderHandles, SenderFailed, SendConfirmation, Do;
    StaysPut(x.link, peer);
    if !x.s.broken {
      var l := Do(x.link, peer, Receive(frame, claimed));
      DoEvolves(x.link, peer, Receive(frame, claimed));
      ReceiptGrows(c, x.s, x.link.end, l.end);
      SenderFailedOk(c, x.s, l.end);
      SenderMoved(c, x, l, SenderFailed(x.s), peer);
      var n := |x.link.end.delivered|;
      if |l.end.delivered| > n {
        OneMoreDelivered(x.link, peer, Receive(frame, claimed));
        var f := l.end.delivered[n];
        if f.frameType == Confirm {
          ConfirmationEvolves(c, x.s.state, l, peer);
          var r := SendConfirmation(c, x.s.state, l, peer);
          if r.Some? {
            ScriptedConfirmed(c, x.s, l.made, r.value.made);
            ReceiptGrows(c, x.s, x.link.end, r.value.end);
            var s' := x.s.(state := if x.s.state == Confirming && Confirmed(r.value) then Ready else x.s.state);
            StateIsFree(c, x.s, s', r.value.end);
            SenderMoved(c, x, r.value, s', peer);
          }
        } else {
          SenderHandlesOk(c, x.s, f, l.end);
          var s' := SenderHandles(c, x.s, f).0;
          SenderMoved(c, x, l, s', peer);
          SenderFailedOk(c, s', l.end);
          SenderMoved(c, x, l, SenderFailed(s'), peer);
        }
      }
    }
  }

  lemma OneMoreDelivered(l: Link, peer: Endpoint, a: Act)
    ensures |Do(l, peer, a).end.delivered| <= |l.end.delivered| + 1
  {
    hide Acted;
    DeliveredGrows(l.end, peer, a);
  }

  lemma StateIsFree(c: Config, s: Sender, s': Sender, e: Endpoint)
    requires c.chunkSize > 0 && ReceiptOk(c, s, e) && s' == s.(state := s'.state)
    ensures ReceiptOk(c, s', e) && SameSending(s, s')
  {
    hide Completion, ReceiptMatches, Got;
  }

  lemma HaltedOk(c: Config, s: Sender, state: State, e: Endpoint)
    requires c.chunkSize > 0 && ReceiptOk(c, s, e)
    ensures ReceiptOk(c, Halted(s, state), e) && SameSending(s, Halted(s, state))
  {
    hide Completion, ReceiptMatches, Got;
  }

  // Calls of sendFile and its end by an exception.
  lemma SenderLeaps(c: Config, x: SenderSide, l: Link, s: Sender, peer: Endpoint)
    requires c.chunkSize > 0 && SenderOk(c, x, peer) && Evolves(x.link, l, peer) && Scripted(c, x.s, l.made)
    requires s == x.s.(state := s.state, phase := s.phase)
    requires s.phase == Threw || (s.phase == AwaitingConfirmation && x.s.phase == NotStarted)
    ensures SenderOk(c, x.(s := s, link := l), peer)
  {
    hide Joined, Tracks, Plain, Script, Completion, ReceiptMatches;
    SameScript(c, x.s, s);
    ReceiptGrows(c, x.s, x.link.end, l.end);
  }

  /** Whatever happens at the sender keeps its invariant. */
  lemma SenderStepOk(c: Config, x: SenderSide, peer: Endpoint, e: Event)
    requires c.chunkSize > 0 && SenderOk(c, x, peer)
    ensures var y := SenderStep(c, x, peer, e); SenderOk(c, y, peer) && Evolves(x.link, y.link, peer)
  {
    hide Joined, Tracks, Scripted, ReceiptOk, Advanced, SenderReceives, Started, SentTerminal, Do, Halted;
    StaysPut(x.link, peer);
    match e
    case Start =>
      StartedEvolves(c, x.s.state, x.link, peer);
      var (state, l) := Started(c, x.s.state, x.link, peer);
      ScriptedConfirmed(c, x.s, x.link.made, l.made);
      ReceiptGrows(c, x.s, x.link.end, l.end);
      StateIsFree(c, x.s, x.s.(state := state), l.end);
      SenderMoved(c, x, l, x.s.(state := state), peer);
    case SendFile =>
      if x.s.phase == NotStarted {
        StartedEvolves(c, x.s.state, x.link, peer);
        var (state, l) := Started(c, x.s.state, x.link, peer);
        ScriptedConfirmed(c, x.s, x.link.made, l.made);
        SenderLeaps(c, x, l, x.s.(state := state, phase := AwaitingConfirmation), peer);
        SenderLeaps(c, x, x.link, x.s.(phase := Threw), peer);
      }
    case Advance(signature) => AdvancedOk(c, x, peer, signature);
    case Throw => SenderLeaps(c, x, x.link, x.s.(phase := Threw), peer);
    case Sign(message) =>
    case AcceptFile =>
    case Message(frame, claimed) => SenderReceivesOk(c, x, peer, frame, claimed);
    case Encrypted(counter, ciphertext, _) =>
      DoEvolves(x.link, peer, Seal(counter, ciphertext));
      ReceiptGrows(c, x.s, x.link.end, Do(x.link, peer, Seal(counter, ciphertext)).end);
    case Lost(counter) =>
      DoEvolves(x.link, peer, Lose(counter));
      ReceiptGrows(c, x.s, x.link.end, Do(x.link, peer, Lose(counter)).end);
    case SendTerminal(t, body) =>
      SentTerminalEvolves(c, x.s.state, x.link, peer, t, body);
      SentTerminalScripted(c, x.s, x.s.state, x.link, peer, t, body);
      var (state, l) := SentTerminal(c, x.s.state, x.link, peer, t, body);
      ReceiptGrows(c, x.s, x.link.end, l.end);
      StateIsFree(c, x.s, x.s.(state := state), l.end);
      SenderMoved(c, x, l, x.s.(state := state), peer);
    case Stop(state) =>
      HaltedOk(c, x.s, state, x.link.end);
      SenderMoved(c, x, x.link, Halted(x.s, state), peer);
  }

  // ----- What the receiver has been given -----

  function ChunkBodies(fs: seq<Frame>): seq<Bytes> {
    if fs == [] then []
    else ChunkBodies(fs[..|fs| - 1]) + if fs[|fs| - 1].frameType == Chunk then [fs[|fs| - 1].plaintext] else []
  }

  lemma {:induction false} ChunkBodiesAppend(fs: seq<Frame>, f: Frame)
    ensures ChunkBodies(fs + [f]) == ChunkBodies(fs) + if f.frameType == Chunk then [f.plaintext] else []
  {
    assert (fs + [f])[..|fs|] == fs;
  }

  lemma {:induction false} ChunkBodiesOf(fs: seq<Frame>, chunks: seq<Bytes>)
    ensures ChunkBodies(fs + ChunkFrames(chunks)) == ChunkBodies(fs) + chunks
    decreases |chunks|
  {
    hide ChunkBodies;
    if chunks == [] {
      assert fs + ChunkFrames(chunks) == fs && ChunkBodies(fs) + chunks == ChunkBodies(fs);
    } else {
      var init, last := chunks[..|chunks| - 1], chunks[|chunks| - 1];
      ChunkBodiesOf(fs, init);
      assert fs + ChunkFrames(chunks) == (fs + ChunkFrames(init)) + [Frame(Chunk, last)];
      ChunkBodiesAppend(fs + ChunkFrames(init), Frame(Chunk, last));
      assert ChunkBodies(fs) + chunks == (ChunkBodies(fs) + init) + [last];
    }
  }

  // A frame that is not a cancellation can only come after frames that are not.
  lemma {:induction false} PlainBeforePlain(d: seq<Frame>)
    requires d != [] && InOrder(Types(d), S2R) && !IsTerminal(d[|d| - 1])
    ensures forall i :: 0 <= i < |d| ==> !IsTerminal(d[i])
    decreases |d|
  {
    var ts := Types(d);
    if |d| > 1 {
      var init := d[..|d| - 1];
      assert ts[..|ts| - 1] == Types(init);
      PlainBeforePlain(init);
      assert forall i :: 0 <= i < |d| - 1 ==> d[i] == init[i];
    }
  }

  /** The frames the receiver has, up to a frame that is not a cancellation, are the sender's confirmation and the first
      frames of its script. */
  lemma DeliveredIsScript(c: Config, s: Sender, made: seq<Frame>, d: seq<Frame>)
    requires c.chunkSize > 0 && Scripted(c, s, made) && Copies(d, made) && InOrder(Types(d), S2R)
    requires d != [] && !IsTerminal(d[|d| - 1])
    ensures d <= [Frame(Confirm, c.confirmation)] + Script(c, s)
  {
    hide Script, PhaseOk, InOrder;
    PlainBeforePlain(d);
    PlainOfPlain(d);
    assert made[..|d|] == d;
    PlainPrefix(made, |d|);
  }

  // Where a manifest and a completion can stand.
  lemma ScriptPlaces(c: Config, s: Sender, d: seq<Frame>)
    requires c.chunkSize > 0 && d != [] && d <= [Frame(Confirm, c.confirmation)] + Script(c, s)
    ensures d[|d| - 1].frameType == Manifest ==> |d| == 3 && IsManifestOf(c, d[|d| - 1])
    ensures d[|d| - 1].frameType == Complete ==> |d| == 4 + |Split(c.file, c.chunkSize)|
  {
    hide BodyOf, ManifestJson, Split;
    var whole := [Frame(Confirm, c.confirmation)] + Script(c, s);
    assert d[|d| - 1] == whole[|d| - 1];
  }

  lemma {:induction false} ChunksSoFar(c: Config, s: Sender, d: seq<Frame>)
    requires c.chunkSize > 0 && d != [] && d <= [Frame(Confirm, c.confirmation)] + Script(c, s)
    ensures d[|d| - 1].frameType == Manifest ==> ChunkBodies(d) == [] && IsManifestOf(c, d[|d| - 1])
    ensures d[|d| - 1].frameType == Complete ==> ChunkBodies(d) == Split(c.file, c.chunkSize)
  {
    hide ChunkBodies, BodyOf, ManifestJson, Split;
    ScriptPlaces(c, s, d);
    var confirm, offer, manifest := Frame(Confirm, c.confirmation), Frame(FileOffer, s.offerBody),
        Frame(Manifest, BodyOf(ManifestJson(ManifestOfFile(c))));
    if d[|d| - 1].frameType == Manifest {
      assert d == [confirm, offer, manifest];
      NoChunks(confirm, offer, manifest);
    }
    if d[|d| - 1].frameType == Complete {
      WholeScriptChunks(c, s);
      assert d == [confirm] + Script(c, s);
    }
  }

  lemma WholeScriptChunks(c: Config, s: Sender)
    requires c.chunkSize > 0
    ensures ChunkBodies([Frame(Confirm, c.confirmation)] + Script(c, s)) == Split(c.file, c.chunkSize)
  {
    hide ChunkBodies, BodyOf, ManifestJson, Split;
    var confirm, offer, manifest := Frame(Confirm, c.confirmation), Frame(FileOffer, s.offerBody),
        Frame(Manifest, BodyOf(ManifestJson(ManifestOfFile(c))));
    var start, cut := [confirm, offer, manifest], Split(c.file, c.chunkSize);
    var last := Frame(Complete, s.completeBody);
    assert [confirm] + Script(c, s) == start + ChunkFrames(cut) + [last];
    NoChunks(confirm, offer, manifest);
    ChunkBodiesOf(start, cut);
    ChunkBodiesAppend(start + ChunkFrames(cut), last);
    assert [] + cut + [] == cut;
  }

  lemma NoChunks(a: Frame, b: Frame, m: Frame)
    requires a.frameType != Chunk && b.frameType != Chunk && m.frameType != Chunk
    ensures ChunkBodies([a, b, m]) == []
  {
    hide ChunkBodies;
    ChunkBodiesAppend([a, b], m);
    ChunkBodiesAppend([a], b);
    ChunkBodiesAppend([], a);
    assert [a, b] + [m] == [a, b, m] && [a] + [b] == [a, b] && [] + [a] == [a];
    assert ChunkBodies([]) == [] by { NoFramesNoChunks(); }
  }

  lemma NoFramesNoChunks()
    ensures ChunkBodies([]) == []
  {
  }

  // ----- The receiver's invariant -----

  predicate HasManifest(d: seq<Frame>) {
    exists i :: 0 <= i < |d| && d[i].frameType == Manifest
  }

  // Nothing is held without a manifest, a manifest needs a genuine offer and an acceptance, and what is held is hashed,
  // counted and within the declared size.
  ghost predicate Buffered(r: Receiver) {
    && (r.manifest.None? ==> r.digest.None? && r.receivedBytes == 0 && r.receivedChunks == 0)
    && (r.digest.None? ==> r.chunks == [])
    && (r.manifest.Some? ==> r.manifest.value.byteCount <= MAX_TRANSFER_BYTES && r.accepted && r.offered.Some?)
    && (r.offered.Some? ==> r.offerMessage.Some?)
    && (r.digest.Some? ==>
          && r.digest.value.input == Join(r.chunks) && r.receivedChunks == |r.chunks|
          && r.receivedBytes == |Join(r.chunks)| <= r.manifest.value.byteCount
          && r.manifest.value.(chunkSize := 0) == r.offered.value.(chunkSize := 0))
  }

  // What is held is exactly the chunks that were delivered.
  ghost predicate Current(r: Receiver, d: seq<Frame>) {
    r.broken || ((r.digest.Some? ==> r.chunks == ChunkBodies(d)) && (r.manifest.Some? ==> HasManifest(d)))
  }

  // The manifest of the file as the receiver's browser reads it.
  function AsRead(c: Config): TransferManifest {
    TransferManifest(c.host.fileName(c.fileName), c.host.mediaType(c.mediaType), |c.file|, c.chunkSize)
  }

  // The file under its own name and type.
  predicate FileOk(c: Config, f: ReceivedFile) {
    f == ReceivedFile(c.file, AsRead(c).fileName, AsRead(c).mediaType, |c.file|, Encode(Sha256(c.file)))
  }

  // Every check of handleComplete, on exactly the bytes of the file.
  ghost predicate VerifiedOk(c: Config, core: CompleteCore, blob: Bytes, signed: set<Bytes>)
    requires c.chunkSize > 0
  {
    && blob == c.file && core == Completion(c, |Split(c.file, c.chunkSize)|)
    && exists message :: message in signed && CanonicalBytes(CompleteJson(core)) == Ok(message)
  }

  ghost predicate DoneOk(c: Config, r: Receiver, made: seq<Frame>, signed: set<Bytes>)
    requires c.chunkSize > 0
  {
    && (r.awaiting.Some? ==> FileOk(c, r.awaiting.value)) && (r.received.Some? ==> FileOk(c, r.received.value))
    && (r.verified.Some? ==> VerifiedOk(c, r.verified.value.0, r.verified.value.1, signed))
    && (r.offerMessage.Some? ==> r.offerMessage.value in signed)
    && (r.manifest.Some? ==> r.manifest.value == AsRead(c))
    && (forall i :: 0 <= i < |made| && made[i].frameType == Receipt ==> r.verified.Some?)
    && (forall i :: 0 <= i < |made| && made[i].frameType == Accept ==> r.accepted && r.offered.Some?)
  }

  ghost predicate ReceiverOk(c: Config, x: ReceiverSide, peer: Endpoint, signed: set<Bytes>)
    requires c.chunkSize > 0
  {
    && Joined(x.link.end, peer) && Tracks(x.link)
    && Buffered(x.r) && Current(x.r, x.link.end.delivered) && DoneOk(c, x.r, x.link.made, signed)
  }

  // Handlers that neither hold nor verify anything.
  ghost predicate SameHolding(r: Receiver, r': Receiver) {
    r' == r.(state := r'.state, accepted := r'.accepted, acceptanceSent := r'.acceptanceSent)
        && (r.accepted ==> r'.accepted)
  }

  lemma SameHoldingOk(
      c: Config, r: Receiver, r': Receiver, d: seq<Frame>, made: seq<Frame>, made': seq<Frame>, signed: set<Bytes>)
    requires c.chunkSize > 0 && Buffered(r) && Current(r, d) && DoneOk(c, r, made, signed) && SameHolding(r, r')
    requires made <= made' && forall i :: |made| <= i < |made'| ==>
               made'[i].frameType != Receipt && (made'[i].frameType == Accept ==> r'.accepted && r'.offered.Some?)
    ensures Buffered(r') && Current(r', d) && DoneOk(c, r', made', signed)
  {
    hide FileOk, VerifiedOk, Join, ChunkBodies, HasManifest;
  }

  lemma FailedOk(c: Config, r: Receiver, d: seq<Frame>, made: seq<Frame>, signed: set<Bytes>)
    requires c.chunkSize > 0 && Buffered(r) && DoneOk(c, r, made, signed)
    ensures Buffered(ReceiverFailed(r)) && Current(ReceiverFailed(r), d) && DoneOk(c, ReceiverFailed(r), made, signed)
  {
    hide FileOk, VerifiedOk, Join, ChunkBodies, HasManifest;
  }

  lemma CleanedOk(c: Config, r: Receiver, state: State, d: seq<Frame>, made: seq<Frame>, signed: set<Bytes>)
    requires c.chunkSize > 0 && Buffered(r) && DoneOk(c, r, made, signed)
    ensures var r' := Cleaned(r).(state := state); Buffered(r') && Current(r', d) && DoneOk(c, r', made, signed)
  {
    hide FileOk, VerifiedOk, Join, ChunkBodies, HasManifest;
  }

  // An offer that is taken was signed by the sender.
  lemma OfferIsSigned(c: Config, r: Receiver, body: Bytes, signed: set<Bytes>)
    ensures var r' := HandleFileOffer(c, r, body, signed).0;
            r' == r || (r' == r.(offered := r'.offered, offerMessage := r'.offerMessage) && r.manifest.None?
                        && r'.offered.Some? && r'.offerMessage.Some? && r'.offerMessage.value in signed)
  {
    hide ParseCanonical, OfferOf, CanonicalBytes, TextOf, OfferJson;
  }

  lemma OfferOk(c: Config, r: Receiver, body: Bytes, made: seq<Frame>, signed: set<Bytes>)
    requires c.chunkSize > 0 && Buffered(r) && DoneOk(c, r, made, signed)
    ensures var r' := HandleFileOffer(c, r, body, signed).0;
            Buffered(r') && DoneOk(c, r', made, signed)
            && r' == r.(offered := r'.offered, offerMessage := r'.offerMessage)
  {
    hide FileOk, VerifiedOk, Join, HandleFileOffer;
    OfferIsSigned(c, r, body, signed);
  }

  // What a payload is read as is what was written.
  lemma {:induction false} BodyReads(v: Json)
    requires ParseCanonical(BodyOf(v)).Ok?
    ensures ParseCanonical(BodyOf(v)) == Ok(v)
  {
    hide ParseCanonical, Printable, Print, Utf8;
    var w := ParseCanonical(BodyOf(v)).value;
    CanonicalAcceptance(BodyOf(v), w);
    if Printable(v) {
      CanonicalIsInjective(v, w);
    } else {
      PrintedIsAscii(w);
      Utf8IsNotEmpty(Print(w));
      assert false;
    }
  }

  lemma {:induction false} Utf8IsNotEmpty(s: Text)
    requires s != []
    ensures Utf8(s) != []
  {
  }

  lemma {:induction false} ManifestReadsAs(c: Config, v: Json)
    requires ParseCanonical(BodyOf(ManifestJson(ManifestOfFile(c)))) == Ok(v) && ManifestOf(c.host, v).Ok?
    ensures ManifestOf(c.host, v) == Ok(AsRead(c))
  {
    hide ParseCanonical, BodyOf, Record, ReadFields, ManifestKeys, Utf8;
    BodyReads(ManifestJson(ManifestOfFile(c)));
    ReadsBack(ManifestKeys(), [Str(c.fileName), Str(c.mediaType), Num(|c.file|), Num(c.chunkSize)], "invalid_manifest");
  }

  lemma {:induction false} ManifestOk(
      c: Config, r: Receiver, body: Bytes, d: seq<Frame>, made: seq<Frame>, signed: set<Bytes>)
    requires c.chunkSize > 0 && Buffered(r) && DoneOk(c, r, made, signed) && ChunkBodies(d) == [] && HasManifest(d)
    requires body == BodyOf(ManifestJson(ManifestOfFile(c)))
    ensures var (r', result) := HandleManifest(c, r, body);
            Buffered(r') && DoneOk(c, r', made, signed) && (result.Ok? ==> Current(r', d))
  {
    hide FileOk, VerifiedOk, ParseCanonical, ManifestOf, ChunkBodies, HasManifest, BodyOf, ManifestJson;
    var parsed := ParseCanonical(body);
    if parsed.Ok? && ManifestOf(c.host, parsed.value).Ok? {
      ManifestReadsAs(c, parsed.value);
    }
  }

  lemma ChunkOk(c: Config, r: Receiver, chunk: Bytes, d: seq<Frame>, made: seq<Frame>, signed: set<Bytes>)
    requires c.chunkSize > 0 && Buffered(r) && DoneOk(c, r, made, signed) && Current(r, d) && !r.broken
    ensures var (r', result) := HandleChunk(r, chunk);
            Buffered(r') && DoneOk(c, r', made, signed) && (result.Ok? ==> Current(r', d + [Frame(Chunk, chunk)]))
  {
    hide FileOk, VerifiedOk, Join, ChunkBodies;
    JoinAppend(r.chunks, chunk);
    ChunkBodiesAppend(d, Frame(Chunk, chunk));
    if HasManifest(d) { ManifestStays(d, Frame(Chunk, chunk)); }
  }

  lemma ManifestStays(d: seq<Frame>, f: Frame)
    requires HasManifest(d)
    ensures HasManifest(d + [f])
  {
    var i :| 0 <= i < |d| && d[i].frameType == Manifest;
    assert (d + [f])[i].frameType == Manifest;
  }

  // A completion record that passes the checks against the chunks of the file is the sender's own.
  lemma CheckedIsCompletion(c: Config, r: Receiver, core: CompleteCore)
    requires c.chunkSize > 0 && Buffered(r) && r.digest.Some? && r.chunks == Split(c.file, c.chunkSize)
    requires core.transferId == c.transferId && core.byteCount == r.manifest.value.byteCount == r.receivedBytes
    requires core.chunkCount == r.receivedChunks && Decode(core.transcriptHash, DIGEST_BYTES) == Ok(c.transcriptHash)
    requires Decode(core.sha256, DIGEST_BYTES) == Ok(Sha256(r.digest.value.input))
    ensures Join(r.chunks) == c.file && r.receivedBytes == |c.file|
            && core == Completion(c, |Split(c.file, c.chunkSize)|)
  {
    hide Join, Split, Sha256, Decode, Encode, TextOf;
    SplitJoins(c.file, c.chunkSize);
    DecodesExactly(core.transcriptHash, DIGEST_BYTES, c.transcriptHash);
    DecodesExactly(core.sha256, DIGEST_BYTES, Sha256(c.file));
  }

  lemma CompleteOk(c: Config, r: Receiver, body: Bytes, made: seq<Frame>, signed: set<Bytes>)
    requires c.chunkSize > 0 && Buffered(r) && DoneOk(c, r, made, signed)
    requires r.digest.Some? ==> r.chunks == Split(c.file, c.chunkSize)
    ensures var (r', result) := HandleComplete(c, r, body, signed);
            && Buffered(r') && DoneOk(c, r', made, signed) && (result.Ok? ==> r'.verified.Some?)
            && r' == r.(digest := r'.digest, awaiting := r'.awaiting, verified := r'.verified)
               && r'.digest.Some? == r.digest.Some?
  {
    hide Join, Split, Sha256, Decode, Encode, TextOf, ParseCanonical, CompleteOf, CanonicalBytes, CompleteJson;
    if HandleComplete(c, r, body, signed).1.Ok? {
      var (core, signature) := CompleteOf(ParseCanonical(body).value).value;
      CheckedIsCompletion(c, r, core);
      assert FileOk(c, HandleComplete(c, r, body, signed).0.awaiting.value);
      assert VerifiedOk(c, core, Join(r.chunks), signed);
    }
  }

  lemma AcceptsOk(c: Config, x: ReceiverSide, peer: Endpoint, signed: set<Bytes>)
    requires c.chunkSize > 0 && ReceiverOk(c, x, peer, signed)
    ensures ReceiverOk(c, Accepts(c, x, peer).0, peer, signed) && Evolves(x.link, Accepts(c, x, peer).0.link, peer)
    ensures Accepts(c, x, peer).0.link.end.delivered == x.link.end.delivered
  {
    hide Joined, Tracks, Buffered, Current, DoneOk, SendFrame, BodyOf, AcceptJson, TextOf;
    StaysPut(x.link, peer);
    var f := Frame(Accept, BodyOf(AcceptJson(c.transferId)));
    SendFrameEvolves(x.r.state, x.link, peer, f);
    var y := Accepts(c, x, peer).0;
    SameHoldingOk(c, x.r, y.r, x.link.end.delivered, x.link.made, y.link.made, signed);
  }

  lemma WrittenOk(c: Config, r: Receiver, f: Frame, d: seq<Frame>, made: seq<Frame>, signed: set<Bytes>)
    requires c.chunkSize > 0 && Buffered(r) && Current(r, d) && DoneOk(c, r, made, signed)
    ensures var r' := Written(r, f); Buffered(r') && Current(r', d) && DoneOk(c, r', made, signed)
  {
    hide FileOk, VerifiedOk, Join, ChunkBodies, HasManifest;
  }

  lemma CurrentNext(r: Receiver, d: seq<Frame>, f: Frame)
    requires Current(r, d) && f.frameType != Chunk
    ensures Current(r, d + [f])
  {
    hide ChunkBodies, HasManifest;
    ChunkBodiesAppend(d, f);
    if HasManifest(d) { ManifestStays(d, f); }
  }

  // What the script says about the chunks before a manifest and before a completion.
  predicate IsManifestOf(c: Config, f: Frame) {
    f.plaintext == BodyOf(ManifestJson(ManifestOfFile(c)))
  }

  ghost predicate AsScripted(c: Config, d: seq<Frame>)
    requires c.chunkSize > 0
  {
    d != [] ==>
      && (d[|d| - 1].frameType == Manifest ==> ChunkBodies(d) == [] && IsManifestOf(c, d[|d| - 1]))
      && (d[|d| - 1].frameType == Complete ==> ChunkBodies(d) == Split(c.file, c.chunkSize))
  }

  ghost predicate Handling(c: Config, x: ReceiverSide, peer: Endpoint, d: seq<Frame>, f: Frame, signed: set<Bytes>)
    requires c.chunkSize > 0
  {
    && Joined(x.link.end, peer) && Tracks(x.link) && x.link.end.delivered == d + [f]
    && Buffered(x.r) && Current(x.r, d) && !x.r.broken && DoneOk(c, x.r, x.link.made, signed)
    && AsScripted(c, d + [f])
  }

  ghost predicate Handled(c: Config, x: ReceiverSide, x': ReceiverSide, ok: bool, peer: Endpoint, signed: set<Bytes>)
    requires c.chunkSize > 0
  {
    && Evolves(x.link, x'.link, peer) && x'.link.end.delivered == x.link.end.delivered
    && Buffered(x'.r) && DoneOk(c, x'.r, x'.link.made, signed) && (ok ==> Current(x'.r, x'.link.end.delivered))
  }

  lemma HandlesConfirm(c: Config, x: ReceiverSide, peer: Endpoint, d: seq<Frame>, f: Frame, signed: set<Bytes>)
    requires c.chunkSize > 0 && Handling(c, x, peer, d, f, signed) && f.frameType == Confirm
    ensures var (x', result) := ReceiverHandles(c, x, peer, f, signed); Handled(c, x, x', result.Ok?, peer, signed)
  {
    hide Joined, Tracks, Buffered, Current, DoneOk, AsScripted, SendConfirmation;
    StaysPut(x.link, peer);
    CurrentNext(x.r, d, f);
    ConfirmationEvolves(c, x.r.state, x.link, peer);
    var x' := ReceiverHandles(c, x, peer, f, signed).0;
    SameHoldingOk(c, x.r, x'.r, d + [f], x.link.made, x'.link.made, signed);
  }

  lemma HandlesOffer(c: Config, x: ReceiverSide, peer: Endpoint, d: seq<Frame>, f: Frame, signed: set<Bytes>)
    requires c.chunkSize > 0 && Handling(c, x, peer, d, f, signed) && f.frameType == FileOffer
    ensures var (x', result) := ReceiverHandles(c, x, peer, f, signed); Handled(c, x, x', result.Ok?, peer, signed)
  {
    hide Joined, Tracks, Buffered, DoneOk, AsScripted, HandleFileOffer, Accepts, ChunkBodies, HasManifest;
    StaysPut(x.link, peer);
    CurrentNext(x.r, d, f);
    OfferOk(c, x.r, f.plaintext, x.link.made, signed);
    var r' := HandleFileOffer(c, x.r, f.plaintext, signed).0;
    AcceptsOk(c, x.(r := r'), peer, signed);
  }

  lemma HandlesContent(c: Config, x: ReceiverSide, peer: Endpoint, d: seq<Frame>, f: Frame, signed: set<Bytes>)
    requires c.chunkSize > 0 && Handling(c, x, peer, d, f, signed) && (f.frameType == Manifest || f.frameType == Chunk)
    ensures var (x', result) := ReceiverHandles(c, x, peer, f, signed); Handled(c, x, x', result.Ok?, peer, signed)
  {
    hide Joined, Tracks, Buffered, Current, DoneOk, HandleManifest, HandleChunk, ChunkBodies, HasManifest, Split;
    StaysPut(x.link, peer);
    if f.frameType == Manifest {
      EndsWithManifest(d, f);
      ManifestOk(c, x.r, f.plaintext, d + [f], x.link.made, signed);
    } else {
      assert f == Frame(Chunk, f.plaintext);
      ChunkOk(c, x.r, f.plaintext, d, x.link.made, signed);
    }
  }

  lemma EndsWithManifest(d: seq<Frame>, f: Frame)
    requires f.frameType == Manifest
    ensures HasManifest(d + [f])
  {
    assert (d + [f])[|d|].frameType == Manifest;
  }

  lemma HandlesComplete(c: Config, x: ReceiverSide, peer: Endpoint, d: seq<Frame>, f: Frame, signed: set<Bytes>)
    requires c.chunkSize > 0 && Handling(c, x, peer, d, f, signed) && f.frameType == Complete
    ensures var (x', result) := ReceiverHandles(c, x, peer, f, signed); Handled(c, x, x', result.Ok?, peer, signed)
  {
    hide Joined, Tracks, Buffered, HandleComplete, ChunkBodies, HasManifest, Split, SendFrame, BodyOf, ReceiptJson,
         FileOk, VerifiedOk;
    StaysPut(x.link, peer);
    CurrentNext(x.r, d, f);
    CompleteOk(c, x.r, f.plaintext, x.link.made, signed);
    var (r', result) := HandleComplete(c, x.r, f.plaintext, signed);
    if result.Ok? {
      SendFrameEvolves(r'.state, x.link, peer, Frame(Receipt, BodyOf(ReceiptJson(result.value))));
    }
  }

  lemma HandlesOther(c: Config, x: ReceiverSide, peer: Endpoint, d: seq<Frame>, f: Frame, signed: set<Bytes>)
    requires c.chunkSize > 0 && Handling(c, x, peer, d, f, signed)
    requires f.frameType !in {Confirm, FileOffer, Manifest, Chunk, Complete}
    ensures var (x', result) := ReceiverHandles(c, x, peer, f, signed); Handled(c, x, x', result.Ok?, peer, signed)
  {
    hide Joined, Tracks, Buffered, Current, DoneOk, AsScripted, TerminalPayload, Cleaned;
    StaysPut(x.link, peer);
    CurrentNext(x.r, d, f);
    CleanedOk(c, x.r, Failed, d + [f], x.link.made, signed);
  }

  lemma HandlesAny(c: Config, x: ReceiverSide, peer: Endpoint, d: seq<Frame>, f: Frame, signed: set<Bytes>)
    requires c.chunkSize > 0 && Handling(c, x, peer, d, f, signed)
    ensures var (x', result) := ReceiverHandles(c, x, peer, f, signed); Handled(c, x, x', result.Ok?, peer, signed)
  {
    hide Handling, Handled, ReceiverHandles;
    match f.frameType
    case Confirm => HandlesConfirm(c, x, peer, d, f, signed);
    case FileOffer => HandlesOffer(c, x, peer, d, f, signed);
    case Manifest => HandlesContent(c, x, peer, d, f, signed);
    case Chunk => HandlesContent(c, x, peer, d, f, signed);
    case Complete => HandlesComplete(c, x, peer, d, f, signed);
    case _ => HandlesOther(c, x, peer, d, f, signed);
  }

  // A message, given that what it delivers follows the sender's script.
  lemma ReceiverReceivesOk(
      c: Config, x: ReceiverSide, peer: Endpoint, signed: set<Bytes>, frame: Bytes, claimed: Option<Bytes>)
    requires c.chunkSize > 0 && ReceiverOk(c, x, peer, signed)
    requires AsScripted(c, Do(x.link, peer, Receive(frame, claimed)).end.delivered)
    ensures var y := ReceiverReceives(c, x, peer, signed, frame, claimed);
            ReceiverOk(c, y, peer, signed) && Evolves(x.link, y.link, peer)
  {
    hide Joined, Tracks, Buffered, Current, DoneOk, AsScripted, ReceiverHandles, ReceiverFailed, Do;
    StaysPut(x.link, peer);
    if !x.r.broken {
      var a := Receive(frame, claimed);
      var l := Do(x.link, peer, a);
      DoEvolves(x.link, peer, a);
      OneMoreDelivered(x.link, peer, a);
      var d := x.link.end.delivered;
      if |l.end.delivered| <= |d| {
        FailedOk(c, x.r, l.end.delivered, l.made, signed);
      } else {
        var f := l.end.delivered[|d|];
        assert l.end.delivered == d + [f];
        HandlesAny(c, x.(link := l), peer, d, f, signed);
        var (x', result) := ReceiverHandles(c, x.(link := l), peer, f, signed);
        FailedOk(c, x'.r, x'.link.end.delivered, x'.link.made, signed);
      }
    }
  }

  /** Whatever happens at the receiver keeps its invariant. */
  lemma ReceiverStepOk(c: Config, x: ReceiverSide, peer: Endpoint, signed: set<Bytes>, e: Event)
    requires c.chunkSize > 0 && ReceiverOk(c, x, peer, signed)
    requires e.Message? ==> AsScripted(c, Do(x.link, peer, Receive(e.frame, e.claimed)).end.delivered)
    ensures var y := ReceiverStep(c, x, peer, signed, e);
            ReceiverOk(c, y, peer, signed) && Evolves(x.link, y.link, peer)
  {
    hide Joined, Tracks, Buffered, Current, DoneOk, AsScripted, Started, Accepts, ReceiverReceives, Written,
         SentTerminal, Cleaned, Do;
    StaysPut(x.link, peer);
    var d := x.link.end.delivered;
    match e
    case Start =>
      StartedEvolves(c, x.r.state, x.link, peer);
      var (state, l) := Started(c, x.r.state, x.link, peer);
      SameHoldingOk(c, x.r, x.r.(state := state), d, x.link.made, l.made, signed);
    case AcceptFile => AcceptsOk(c, x, peer, signed);
    case Message(frame, claimed) => ReceiverReceivesOk(c, x, peer, signed, frame, claimed);
    case Encrypted(counter, ciphertext, wrote) =>
      DoEvolves(x.link, peer, Seal(counter, ciphertext));
      if counter in x.link.end.drafts {
        WrittenOk(c, x.r, x.link.end.drafts[counter], d, x.link.made, signed);
      }
    case Lost(counter) => DoEvolves(x.link, peer, Lose(counter));
    case SendTerminal(t, body) =>
      SentTerminalEvolves(c, x.r.state, x.link, peer, t, body);
      var (state, l) := SentTerminal(c, x.r.state, x.link, peer, t, body);
      SameHoldingOk(c, x.r, x.r.(state := state), d, x.link.made, l.made, signed);
    case Stop(state) => CleanedOk(c, x.r, state, d, x.link.made, signed);
    case _ =>
  }

  // ----- Every run -----

  ghost predicate SystemOk(c: Config, y: System)
    requires c.chunkSize > 0
  {
    && SenderOk(c, y.sender, y.receiver.link.end)
    && ReceiverOk(c, y.receiver, y.sender.link.end, y.sender.signed)
    && y.sender.link.end.stream.direction == S2R && y.receiver.link.end.stream.direction == R2S
  }

  // One side's step as its peer sees it.
  lemma StillJoined(e: Endpoint, peer: Endpoint, peer': Endpoint)
    requires Joined(e, peer) && Joined(peer', e)
    ensures Joined(e, peer')
  {
    hide CountersOk, SamePeers, ReceivingOk, InspectedOk, IsPrefix;
  }

  lemma SendNextSigns(x: SenderSide, peer: Endpoint, f: Frame, next: Sender)
    ensures SendNext(x, peer, f, next).signed == x.signed
  {
    hide SendFrame;
  }

  lemma AdvancedSigns(c: Config, x: SenderSide, peer: Endpoint, signature: Bytes)
    ensures x.signed <= Advanced(c, x, peer, signature).signed
  {
    hide SendNext, CanonicalBytes, BodyOf, OfferJson, CompleteJson, ManifestJson, SignedJson, Completion, OfferOfFile,
         ManifestOfFile;
    forall x': SenderSide, f, next ensures SendNext(x', peer, f, next).signed == x'.signed {
      SendNextSigns(x', peer, f, next);
    }
  }

  lemma ReceivesSigns(c: Config, x: SenderSide, peer: Endpoint, frame: Bytes, claimed: Option<Bytes>)
    ensures SenderReceives(c, x, peer, frame, claimed).signed == x.signed
  {
    hide Do, SenderFailed, SendConfirmation, SenderHandles;
  }

  lemma SignedGrows(c: Config, x: SenderSide, peer: Endpoint, e: Event)
    ensures x.signed <= SenderStep(c, x, peer, e).signed
  {
    hide Started, SentTerminal, Do, Advanced, SenderReceives, Halted;
    match e
    case Advance(signature) => AdvancedSigns(c, x, peer, signature);
    case Message(frame, claimed) => ReceivesSigns(c, x, peer, frame, claimed);
    case _ =>
  }

  lemma DoneWithMoreSigned(c: Config, r: Receiver, made: seq<Frame>, signed: set<Bytes>, signed': set<Bytes>)
    requires c.chunkSize > 0 && DoneOk(c, r, made, signed) && signed <= signed'
    ensures DoneOk(c, r, made, signed')
  {
    hide FileOk, Completion, CanonicalBytes, CompleteJson, Split;
  }

  // The receiver's next frames follow the sender's script.
  lemma DeliveredAsScripted(c: Config, y: System, a: Act)
    requires c.chunkSize > 0 && SystemOk(c, y)
    ensures AsScripted(c, Do(y.receiver.link, y.sender.link.end, a).end.delivered)
  {
    hide Scripted, ReceiptOk, Buffered, Current, DoneOk, Do, ChunkBodies, Script, Split, InOrder, Tracks, CountersOk,
         SamePeers, InspectedOk;
    var l := Do(y.receiver.link, y.sender.link.end, a);
    DoEvolves(y.receiver.link, y.sender.link.end, a);
    var d := l.end.delivered;
    if d != [] && !IsTerminal(d[|d| - 1]) {
      PrefixCopies(l.end, y.sender.link);
      DeliveredIsScript(c, y.sender.s, y.sender.link.made, d);
      ChunksSoFar(c, y.sender.s, d);
    }
  }

  lemma NextOk(c: Config, y: System, m: Move)
    requires c.chunkSize > 0 && SystemOk(c, y)
    ensures SystemOk(c, Next(c, y, m))
  {
    hide Joined, Tracks, Scripted, ReceiptOk, Buffered, Current, DoneOk, SenderStep, ReceiverStep, AsScripted, Do;
    match m
    case BySender(e) =>
      SenderStepOk(c, y.sender, y.receiver.link.end, e);
      SignedGrows(c, y.sender, y.receiver.link.end, e);
      var x := SenderStep(c, y.sender, y.receiver.link.end, e);
      StillJoined(y.receiver.link.end, y.sender.link.end, x.link.end);
      DoneWithMoreSigned(c, y.receiver.r, y.receiver.link.made, y.sender.signed, x.signed);
    case ByReceiver(e) =>
      if e.Message? { DeliveredAsScripted(c, y, Receive(e.frame, e.claimed)); }
      ReceiverStepOk(c, y.receiver, y.sender.link.end, y.sender.signed, e);
      var x := ReceiverStep(c, y.receiver, y.sender.link.end, y.sender.signed, e);
      StillJoined(y.sender.link.end, y.receiver.link.end, x.link.end);
  }

  lemma BeginningOk(c: Config)
    requires ValidConfig(c)
    ensures SystemOk(c, Beginning(c))
  {
    FreshIsInv(c.transferId, c.confirmation, c.s2rPrefix, c.r2sPrefix);
  }

  lemma {:induction false} RunOk(c: Config, moves: seq<Move>)
    requires ValidConfig(c)
    ensures SystemOk(c, After(c, moves))
  {
    hide SystemOk, Next, Beginning;
    if moves == [] {
      BeginningOk(c);
    } else {
      RunOk(c, moves[..|moves| - 1]);
      NextOk(c, After(c, moves[..|moves| - 1]), moves[|moves| - 1]);
    }
  }

  /** Whatever the network and the users do, a file the receiver reports as received is, byte for byte, the file that
      was sent. */
  lemma {:induction false} ReceivedFileIsSentFile(c: Config, moves: seq<Move>)
    requires ValidConfig(c)
    ensures var r := After(c, moves).receiver.r;
            r.received.Some? ==>
              r.received.value == ReceivedFile(c.file, c.host.fileName(c.fileName), c.host.mediaType(c.mediaType),
                  |c.file|,
                                               Encode(Sha256(c.file)))
  {
    hide After, Joined, Tracks, Sha256, Encode, Scripted, ReceiptOk, Buffered, Current, VerifiedOk;
    RunOk(c, moves);
  }

  /** If sendFile returns a receipt, the receipt is for this file, and the receiver has checked the sender's signed
      completion record (length, number of chunks, transcript, digest and signature) against exactly the file's
      bytes. */
  lemma {:induction false} ReceiptMeansVerified(c: Config, moves: seq<Move>)
    requires ValidConfig(c)
    ensures var y := After(c, moves);
            y.sender.s.phase.Returned? ==>
              && ReceiptMatches(c, y.sender.s.phase.receipt) && y.receiver.r.verified.Some?
              && VerifiedOk(c, y.receiver.r.verified.value.0, y.receiver.r.verified.value.1, y.sender.signed)
  {
    hide After, Tracks, Scripted, Buffered, Current, VerifiedOk, FileOk, ReceiptMatches, CountersOk, SamePeers,
         ReceivingOk, InspectedOk;
    RunOk(c, moves);
    var y := After(c, moves);
    if y.sender.s.phase.Returned? {
      PrefixCopies(y.sender.link.end, y.receiver.link);
      var i :| 0 <= i < |y.sender.link.end.delivered| && y.sender.link.end.delivered[i].frameType == Receipt;
      assert y.receiver.link.made[i].frameType == Receipt;
    }
  }

  /** Nothing of the file is sent, not even its manifest, before the receiver has accepted it and found its offer to be
      signed by the sender. */
  lemma {:induction false} NothingIsSentBeforeAcceptance(c: Config, moves: seq<Move>)
    requires ValidConfig(c) && |After(c, moves).sender.s.sent| >= 2
    ensures var y := After(c, moves);
            && y.receiver.r.accepted && y.receiver.r.offered.Some? && y.receiver.r.offerMessage.Some?
            && y.receiver.r.offerMessage.value in y.sender.signed
  {
    hide After, Tracks, Scripted, Current, VerifiedOk, FileOk, ReceiptMatches, CountersOk, SamePeers, ReceivingOk,
         InspectedOk, Join;
    RunOk(c, moves);
    var y := After(c, moves);
    PrefixCopies(y.sender.link.end, y.receiver.link);
    var i :| 0 <= i < |y.sender.link.end.delivered| && y.sender.link.end.delivered[i].frameType == Accept;
    assert y.receiver.link.made[i].frameType == Accept;
  }

  /** No chunk is held before the file was accepted and its offer was found to be signed by the sender, and never more
      bytes than the manifest declares, which is at most 250 MiB. */
  lemma {:induction false} ChunksNeedOfferAndAcceptance(c: Config, moves: seq<Move>)
    requires ValidConfig(c)
    ensures var y := After(c, moves);
            var r := y.receiver.r;
            r.chunks != [] ==>
              && r.accepted && r.offered.Some? && r.offerMessage.Some? && r.offerMessage.value in y.sender.signed
              && r.manifest.Some? && |Join(r.chunks)| <= r.manifest.value.byteCount <= MAX_TRANSFER_BYTES
  {
    hide After, Joined, Tracks, Scripted, ReceiptOk, Current, VerifiedOk, FileOk, Join;
    RunOk(c, moves);
  }
}
