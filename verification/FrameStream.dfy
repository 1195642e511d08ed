/** Ordered, confirmed frame streams and what an arbitrary network can make of them
    (frontend/src/transferProtocol.ts). */
module FrameStream {
  import opened Outcomes
  import opened Bytes
  import opened FrameHeader
  import opened Utf
  import opened Uuids

  const FRAME_TAG_BYTES := 16
  const CONFIRMATION_BYTES := 32
  const MAX_FRAME_BYTES := FRAME_HEADER_BYTES + MAX_FRAME_PLAINTEXT_BYTES + FRAME_TAG_BYTES

  // sequenceTypeAllowed
  predicate SequenceTypeAllowed(previous: Option<FrameType>, next: FrameType, direction: Direction) {
    if next == Confirm then previous == None
    else if previous == None || previous == Some(Confirm) then
      next in {FileOffer, Accept, Manifest, Receipt, Cancel, Error}
    else if next == Manifest then direction == S2R && previous == Some(FileOffer)
    else if next == Chunk then direction == S2R && (previous == Some(Manifest) || previous == Some(Chunk))
    else if next == Complete then direction == S2R && (previous == Some(Manifest) || previous == Some(Chunk))
    else if next == Receipt then direction == R2S && (previous == Some(Complete) || previous == Some(Accept))
    else next == Cancel || next == Error
  }

  datatype Stream = Stream(
    transferId: Text, direction: Direction, confirmation: Option<Bytes>,
    sendNext: nat, receiveNext: nat, sentConfirmation: bool, receivedConfirmation: bool,
    sentType: Option<FrameType>, receivedType: Option<FrameType>)

  datatype Frame = Frame(frameType: FrameType, plaintext: Bytes)

  // The checks of createFrame up to the point where it reserves a counter and starts encrypting.
  function CreateError(s: Stream, t: FrameType, body: Bytes): Option<string> {
    if !TypeFitsDirection(s.direction, t) then Some("invalid_frame")
    else if !SequenceTypeAllowed(s.sentType, t, s.direction) then Some("invalid_state")
    else if !s.sentConfirmation && t != Confirm then Some("confirmation_required")
    else if t == Confirm && (s.sentConfirmation || s.sendNext != 0 || |body| != CONFIRMATION_BYTES)
        then Some("invalid_confirmation")
    else if t == Confirm && s.confirmation.Some? && s.confirmation.value != body then Some("invalid_confirmation")
    else if t != Confirm && !s.receivedConfirmation then Some("confirmation_required")
    else if s.sendNext > MAX_FRAME_COUNTER then Some("counter_wraparound")
    else None
  }

  function HeaderOf(s: Stream, t: FrameType, counter: nat, length: nat): Header {
    Header(1, s.transferId, s.direction, t, counter, length)
  }

  // sentCounterApplied
  function Applied(s: Stream, t: FrameType): Stream {
    s.(sentConfirmation := s.sentConfirmation || t == Confirm, sentType := Some(t))
  }

  function SplitFrame(frame: Bytes): Result<(Header, Bytes)> {
    if |frame| < FRAME_HEADER_BYTES + FRAME_TAG_BYTES || |frame| > MAX_FRAME_BYTES then Err("invalid_length")
    else
      match ParseFrameHeader(frame[..FRAME_HEADER_BYTES])
      case Err(c) => Err(c)
      case Ok(h) =>
        if |frame| != FRAME_HEADER_BYTES + h.plaintextLength + FRAME_TAG_BYTES then Err("invalid_length")
        else Ok((h, frame[FRAME_HEADER_BYTES..]))
  }

  // The checks of receiveFrame before it decrypts.
  function Inspect(s: Stream, frame: Bytes): Result<(Header, Bytes)> {
    match SplitFrame(frame)
    case Err(c) => Err(c)
    case Ok((h, ciphertext)) =>
      if h.transferId != s.transferId || h.direction != Opposite(s.direction) then Err("identity_mismatch")
      else if !SequenceTypeAllowed(s.receivedType, h.frameType, Opposite(s.direction)) then Err("invalid_state")
      else if h.counter != s.receiveNext then Err("counter_mismatch")
      else Ok((h, ciphertext))
  }

  // Receiving leaves the sending half alone, never moves the counter back, and changes the last type only with it.
  predicate OnlyReceives(s: Stream, s': Stream) {
    && s' == s.(receiveNext := s'.receiveNext, receivedConfirmation := s'.receivedConfirmation,
       receivedType := s'.receivedType)
    && s.receiveNext <= s'.receiveNext
    && (s.receiveNext == s'.receiveNext ==> s' == s)
  }

  // What receiveFrame does once decryption has succeeded. The counter moves even if the confirmation is refused.
  function Admit(s: Stream, t: FrameType, counter: int, plaintext: Bytes): (r: (Stream, Result<Frame>))
    ensures OnlyReceives(s, r.0)
  {
    if counter != s.receiveNext then (s, Err("counter_mismatch"))
    else
      var s' := s.(receiveNext := s.receiveNext + 1);
      if !s.receivedConfirmation && t != Confirm then (s', Err("confirmation_required"))
      else if t == Confirm && (s.receivedConfirmation || counter != 0 || |plaintext| != CONFIRMATION_BYTES) then
        (s', Err("invalid_confirmation"))
      else if t == Confirm && s.confirmation.Some? && s.confirmation.value != plaintext then
        (s', Err("invalid_confirmation"))
      else (s'.(receivedConfirmation := true, receivedType := Some(t)), Ok(Frame(t, plaintext)))
  }

  // receiveFrame: `plain` is what decryption gives, if it succeeds.
  function Received(s: Stream, frame: Bytes, plain: Option<Bytes>): (r: (Stream, Result<Frame>))
    ensures OnlyReceives(s, r.0)
  {
    match Inspect(s, frame)
    case Err(c) => (s, Err(c))
    case Ok((h, _)) =>
      if plain.None? then (s, Err("authentication_failed"))
      else if |plain.value| != h.plaintextLength then (s, Err("invalid_length"))
      else Admit(s, h.frameType, h.counter, plain.value)
  }

  /** The stream object. createFrame is two sections, before and after the encryption it waits for. */
  class FrameStreamGuard {
    const transferId: Text
    const direction: Direction
    const confirmation: Option<Bytes>
    var sendNext: nat
    var receiveNext: nat
    var sentConfirmation: bool
    var receivedConfirmation: bool
    var sentType: Option<FrameType>
    var receivedType: Option<FrameType>

    ghost function View(): Stream
      reads this
    {
      Stream(transferId, direction, confirmation, sendNext, receiveNext, sentConfirmation, receivedConfirmation,
          sentType, receivedType)
    }

    constructor (transferId: Text, direction: Direction, confirmation: Option<Bytes>)
      requires IsUuid(transferId) && (confirmation.Some? ==> |confirmation.value| == CONFIRMATION_BYTES)
      ensures View() == Stream(transferId, direction, confirmation, 0, 0, false, false, None, None)
    {
      this.transferId, this.direction, this.confirmation := transferId, direction, confirmation;
      sendNext, receiveNext, sentConfirmation, receivedConfirmation := 0, 0, false, false;
      sentType, receivedType := None, None;
    }

    method ReserveFrame(t: FrameType, body: Bytes) returns (header: Result<Header>)
      modifies this
      ensures header.Err? <==> CreateError(old(View()), t, body).Some?
      ensures header.Err? ==> header.code == CreateError(old(View()), t, body).value && View() == old(View())
      ensures header.Ok? ==> header.value == HeaderOf(old(View()), t, old(sendNext), |body|)
                             && View() == old(View()).(sendNext := old(sendNext) + 1)
    {
      if !TypeFitsDirection(direction, t) {
        return Err("invalid_frame");
      }
      if !SequenceTypeAllowed(sentType, t, direction) {
        return Err("invalid_state");
      }
      if !sentConfirmation && t != Confirm {
        return Err("confirmation_required");
      }
      if t == Confirm {
        if sentConfirmation || sendNext != 0 || |body| != CONFIRMATION_BYTES {
          return Err("invalid_confirmation");
        }
        if confirmation.Some? && confirmation.value != body {
          return Err("invalid_confirmation");
        }
      } else if !receivedConfirmation {
        return Err("confirmation_required");
      }
      if sendNext > MAX_FRAME_COUNTER {
        return Err("counter_wraparound");
      }
      header := Ok(Header(1, transferId, direction, t, sendNext, |body|));
      sendNext := sendNext + 1;
    }

    method FrameCreated(t: FrameType)
      modifies this
      ensures View() == Applied(old(View()), t)
    {
      if t == Confirm {
        sentConfirmation := true;
      }
      sentType := Some(t);
    }

    method ReceiveFrame(frame: Bytes, plain: Option<Bytes>) returns (result: Result<Frame>)
      modifies this
      ensures View() == Received(old(View()), frame, plain).0 && result == Received(old(View()), frame, plain).1
    {
      var split := SplitFrame(frame);
      if split.Err? {
        return Err(split.code);
      }
      var header := split.value.0;
      if header.transferId != transferId || header.direction != Opposite(direction) {
        return Err("identity_mismatch");
      }
      if !SequenceTypeAllowed(receivedType, header.frameType, Opposite(direction)) {
        return Err("invalid_state");
      }
      if header.counter != receiveNext {
        return Err("counter_mismatch");
      }
      if plain.None? {
        return Err("authentication_failed");
      }
      if |plain.value| != header.plaintextLength {
        return Err("invalid_length");
      }
      receiveNext := receiveNext + 1;
      if !receivedConfirmation && header.frameType != Confirm {
        return Err("confirmation_required");
      }
      if header.frameType == Confirm {
        if receivedConfirmation || header.counter != 0 || |plain.value| != CONFIRMATION_BYTES {
          return Err("invalid_confirmation");
        }
        if confirmation.Some? && confirmation.value != plain.value {
          return Err("invalid_confirmation");
        }
      }
      receivedConfirmation := true;
      receivedType := Some(header.frameType);
      return Ok(Frame(header.frameType, plain.value));
    }
  }

  /** The checks of the stream's constructor. */
  method OpenStream(
      transferId: Text, direction: Direction, confirmation: Option<Bytes>) returns (stream: Result<FrameStreamGuard>)
    ensures stream.Ok? <==> IsUuid(transferId) && (confirmation.Some? ==> |confirmation.value| == CONFIRMATION_BYTES)
    ensures stream.Ok? ==> fresh(stream.value)
                           && stream.value.View() == Stream(transferId, direction, confirmation, 0, 0, false, false,
                              None, None)
    ensures stream.Err? ==> stream.code == if IsUuid(transferId) then "invalid_confirmation" else "invalid_handshake"
  {
    if !IsUuid(transferId) {
      return Err("invalid_handshake");
    }
    if confirmation.Some? && |confirmation.value| != CONFIRMATION_BYTES {
      return Err("invalid_confirmation");
    }
    var created := new FrameStreamGuard(transferId, direction, confirmation);
    return Ok(created);
  }
}

/** Two endpoints, an ideal authenticated cipher for each direction, and a network that delivers whatever it likes. */
module FrameChannel {
  import opened Outcomes
  import opened Bytes
  import opened FrameHeader
  import opened Utf
  import opened Uuids
  import opened FrameStream

  // A frame that was encrypted under an endpoint's sending key.
  datatype Sealed = Sealed(frameType: FrameType, plaintext: Bytes, ciphertext: Bytes)

  // One endpoint: its stream, the nonce prefix of its sending key, the createFrame calls that wait for encryption,
  // everything encrypted under its sending key by counter, every counter it ever reserved, the frames that passed the
  // first checks of a receiveFrame call, and every frame a receiveFrame call has returned.
  datatype Endpoint = Endpoint(
    stream: Stream, prefix: Bytes, drafts: map<nat, Frame>, log: map<nat, Sealed>,
    reserved: seq<nat>, inspected: set<Bytes>, delivered: seq<Frame>)

  // An ideal cipher opens exactly what was sealed with the same nonce and the same additional data.
  ghost predicate Opens(
      peer: Endpoint, nonce: Result<Bytes>, header: Result<Bytes>, ciphertext: Bytes, plaintext: Bytes)
  {
    exists c :: c in peer.log && SealedAs(peer, c, nonce, header, ciphertext, plaintext)
  }

  ghost predicate SealedAs(
      peer: Endpoint, c: nat, nonce: Result<Bytes>, header: Result<Bytes>, ciphertext: Bytes, plaintext: Bytes)
    requires c in peer.log
  {
    && nonce.Ok? && nonce == FrameNonce(peer.prefix, c)
    && header.Ok? && header == EncodeFrameHeader(HeaderOf(peer.stream, peer.log[c].frameType, c,
       |peer.log[c].plaintext|))
    && ciphertext == peer.log[c].ciphertext && plaintext == peer.log[c].plaintext
  }

  // `Receive` hands the endpoint any bytes at all: dropped, repeated, reordered, truncated and injected frames are
  // all of this kind. `claimed` is what decryption is supposed to give; only what the cipher opens counts.
  // `Check` and `Decrypt` are the two halves of a call that others interrupt while it waits for the decryption.
  datatype Act =
    | Create(frameType: FrameType, body: Bytes)
    | Seal(counter: nat, ciphertext: Bytes)
    | Lose(counter: nat)
    | Receive(frame: Bytes, claimed: Option<Bytes>)
    | Check(frame: Bytes)
    | Decrypt(frame: Bytes, claimed: Option<Bytes>)

  ghost function Opened(peer: Endpoint, frame: Bytes, claimed: Option<Bytes>): Option<Bytes> {
    match SplitFrame(frame)
    case Err(_) => None
    case Ok((h, ciphertext)) =>
      if claimed.Some? && Opens(peer, FrameNonce(peer.prefix, h.counter), EncodeFrameHeader(h), ciphertext,
          claimed.value)
      then claimed else None
  }

  ghost function Acted(e: Endpoint, peer: Endpoint, a: Act): Endpoint {
    match a
    case Create(t, body) =>
      if CreateError(e.stream, t, body).Some? then e
      else e.(stream := e.stream.(sendNext := e.stream.sendNext + 1),
              drafts := e.drafts[e.stream.sendNext := Frame(t, body)],
              reserved := e.reserved + [e.stream.sendNext])
    case Seal(c, ciphertext) =>
      if c !in e.drafts then e
      else
        var d := e.drafts[c];
        if EncodeFrameHeader(HeaderOf(e.stream, d.frameType, c, |d.plaintext|)).Err?
           || FrameNonce(e.prefix, c).Err? || |ciphertext| != |d.plaintext| + FRAME_TAG_BYTES
        then e.(drafts := e.drafts - {c})
        else e.(drafts := e.drafts - {c}, log := e.log[c := Sealed(d.frameType, d.plaintext, ciphertext)],
                stream := Applied(e.stream, d.frameType))
    case Lose(c) => e.(drafts := e.drafts - {c})
    case Receive(frame, claimed) =>
      var (s, r) := Received(e.stream, frame, Opened(peer, frame, claimed));
      e.(stream := s, delivered := if r.Ok? then e.delivered + [r.value] else e.delivered)
    case Check(frame) => if Inspect(e.stream, frame).Ok? then e.(inspected := e.inspected + {frame}) else e
    case Decrypt(frame, claimed) =>
      var plain := Opened(peer, frame, claimed);
      // A call that passed its checks may come back from the decryption at any later time.
      if frame !in e.inspected || plain.None? then e
      else
        var (h, _) := SplitFrame(frame).value;
        if |plain.value| != h.plaintextLength then e
        else
          var (s, r) := Admit(e.stream, h.frameType, h.counter, plain.value);
          e.(stream := s, delivered := if r.Ok? then e.delivered + [r.value] else e.delivered)
  }

  datatype Channel = Channel(sender: Endpoint, receiver: Endpoint)

  datatype Action = AtSender(act: Act) | AtReceiver(act: Act)

  ghost function Step(ch: Channel, a: Action): Channel {
    match a
    case AtSender(act) => ch.(sender := Acted(ch.sender, ch.receiver, act))
    case AtReceiver(act) => ch.(receiver := Acted(ch.receiver, ch.sender, act))
  }

  ghost function Exec(ch: Channel, run: seq<Action>): Channel {
    if run == [] then ch else Step(Exec(ch, run[..|run| - 1]), run[|run| - 1])
  }

  // Both ends of one handshake: one transfer, opposite directions, the same confirmation.
  function Fresh(id: Text, confirmation: Bytes, s2rPrefix: Bytes, r2sPrefix: Bytes): Channel {
    Channel(Endpoint(Stream(id, S2R, Some(confirmation), 0, 0, false, false, None, None), s2rPrefix, map[], map[], [],
        {}, []),
            Endpoint(Stream(id, R2S, Some(confirmation), 0, 0, false, false, None, None), r2sPrefix, map[], map[], [],
                {}, []))
  }

  // ----- Nonces -----

  ghost predicate CountersOk(e: Endpoint) {
    && |e.reserved| == e.stream.sendNext <= MAX_FRAME_COUNTER + 1
    && (forall i :: 0 <= i < |e.reserved| ==> e.reserved[i] == i)
    && (forall c :: c in e.drafts ==> c < e.stream.sendNext)
    && (forall c :: c in e.log ==> c < e.stream.sendNext)
    && e.log.Keys !! e.drafts.Keys
  }

  lemma ActKeepsCounters(e: Endpoint, peer: Endpoint, a: Act)
    requires CountersOk(e)
    ensures CountersOk(Acted(e, peer, a))
  {
  }

  lemma {:induction false} RunKeepsCounters(ch: Channel, run: seq<Action>)
    requires CountersOk(ch.sender) && CountersOk(ch.receiver)
    ensures CountersOk(Exec(ch, run).sender) && CountersOk(Exec(ch, run).receiver)
  {
    if run != [] {
      RunKeepsCounters(ch, run[..|run| - 1]);
      var before, a := Exec(ch, run[..|run| - 1]), run[|run| - 1];
      ActKeepsCounters(before.sender, before.receiver, a.act);
      ActKeepsCounters(before.receiver, before.sender, a.act);
    }
  }

  /** However createFrame calls interleave, and whichever encryptions fail, an endpoint never uses a nonce twice and
      reserves at most 2^64 counters. */
  lemma {:induction false} NoncesAreFresh(
      id: Text, confirmation: Bytes, p: Bytes, q: Bytes, run: seq<Action>, atSender: bool, i: nat, j: nat)
    requires |p| == |q| == 4
    requires var ch := Exec(Fresh(id, confirmation, p, q), run);
             i < j < |(if atSender then ch.sender else ch.receiver).reserved|
    ensures var ch := Exec(Fresh(id, confirmation, p, q), run);
            var e, prefix := if atSender then ch.sender else ch.receiver, if atSender then p else q;
            && FrameNonce(prefix, e.reserved[i]).Ok? && FrameNonce(prefix, e.reserved[i]) != FrameNonce(prefix,
               e.reserved[j])
            && |e.reserved| <= MAX_FRAME_COUNTER + 1
  {
    RunKeepsCounters(Fresh(id, confirmation, p, q), run);
    var ch := Exec(Fresh(id, confirmation, p, q), run);
    var e, prefix := if atSender then ch.sender else ch.receiver, if atSender then p else q;
    if FrameNonce(prefix, e.reserved[i]) == FrameNonce(prefix, e.reserved[j]) {
      NonceIsInjective(prefix, e.reserved[i], e.reserved[j]);
    }
  }

  // ----- Prefix integrity -----

  // The peer sealed this frame under this counter.
  predicate SentAs(peer: Endpoint, i: nat, f: Frame) {
    i in peer.log && peer.log[i].frameType == f.frameType && peer.log[i].plaintext == f.plaintext
  }

  ghost predicate IsPrefix(e: Endpoint, peer: Endpoint) {
    forall i :: 0 <= i < |e.delivered| ==> SentAs(peer, i, e.delivered[i])
  }

  function Types(fs: seq<Frame>): seq<FrameType> {
    seq(|fs|, i requires 0 <= i < |fs| => fs[i].frameType)
  }

  // The receiving half of a stream is a function of what it has delivered, until it is stuck before a confirmation.
  ghost predicate ReceivingOk(e: Endpoint) {
    && e.stream.receivedConfirmation == (e.delivered != [])
    && (e.delivered != [] ==> e.stream.receiveNext == |e.delivered|
                              && e.stream.receivedType == Some(e.delivered[|e.delivered| - 1].frameType)
                              && ConfirmedBy(e.stream, e.delivered[0]))
    && (e.delivered == [] ==> e.stream.receivedType == None)
    && InOrder(Types(e.delivered), Opposite(e.stream.direction))
  }

  // A frame that passed the checks is either out of date or still allowed next.
  ghost predicate InspectedOk(e: Endpoint) {
    forall f :: f in e.inspected ==> StillAllowed(e.stream, f)
  }

  predicate StillAllowed(s: Stream, f: Bytes) {
    && SplitFrame(f).Ok? && SplitFrame(f).value.0.direction == Opposite(s.direction)
    && SplitFrame(f).value.0.counter <= s.receiveNext
    && (SplitFrame(f).value.0.counter == s.receiveNext ==>
          SequenceTypeAllowed(s.receivedType, SplitFrame(f).value.0.frameType, Opposite(s.direction)))
  }

  predicate ConfirmedBy(s: Stream, f: Frame) {
    f.frameType == Confirm && |f.plaintext| == CONFIRMATION_BYTES
        && (s.confirmation.Some? ==> s.confirmation.value == f.plaintext)
  }

  // What the stream checks about the types of consecutive frames.
  predicate InOrder(ts: seq<FrameType>, d: Direction) {
    ts == [] ||
    var init, last := ts[..|ts| - 1], ts[|ts| - 1];
    && InOrder(init, d) && TypeFitsDirection(d, last)
    && if init == [] then last == Confirm else SequenceTypeAllowed(Some(init[|init| - 1]), last, d)
  }

  ghost predicate SamePeers(e: Endpoint, peer: Endpoint) {
    e.stream.transferId == peer.stream.transferId && peer.stream.direction == Opposite(e.stream.direction)
        && |peer.prefix| == 4
  }

  // The only frame the cipher opens for the expected counter is the one the peer sealed under it.
  lemma OpenedIsSent(e: Endpoint, peer: Endpoint, frame: Bytes, claimed: Option<Bytes>)
    requires SamePeers(e, peer) && Opened(peer, frame, claimed).Some?
    ensures var (h, _) := SplitFrame(frame).value;
            h.counter >= 0 && SentAs(peer, h.counter, Frame(h.frameType, claimed.value))
  {
    var (h, ciphertext) := SplitFrame(frame).value;
    var nonce, header := FrameNonce(peer.prefix, h.counter), EncodeFrameHeader(h);
    var c :| c in peer.log && SealedAs(peer, c, nonce, header, ciphertext, claimed.value);
    NonceIsInjective(peer.prefix, h.counter, c);
    HeaderRoundTrip(h);
    HeaderRoundTrip(HeaderOf(peer.stream, peer.log[c].frameType, c, |peer.log[c].plaintext|));
  }

  lemma ParsedTypeFits(frame: Bytes)
    requires SplitFrame(frame).Ok?
    ensures var (h, _) := SplitFrame(frame).value; TypeFitsDirection(h.direction, h.frameType)
  {
  }

  lemma {:induction false} AppendInOrder(fs: seq<Frame>, f: Frame, d: Direction)
    requires InOrder(Types(fs), d) && TypeFitsDirection(d, f.frameType)
    requires if fs == [] then f.frameType == Confirm else SequenceTypeAllowed(Some(fs[|fs| - 1].frameType),
             f.frameType, d)
    ensures InOrder(Types(fs + [f]), d)
  {
    var ts := Types(fs + [f]);
    assert ts[..|ts| - 1] == Types(fs);
  }

  // One returned frame extends the stream's account of what it has delivered.
  lemma AdmitKeepsReceiving(e: Endpoint, t: FrameType, counter: int, plaintext: Bytes)
    requires ReceivingOk(e) && TypeFitsDirection(Opposite(e.stream.direction), t)
    requires SequenceTypeAllowed(e.stream.receivedType, t, Opposite(e.stream.direction))
    ensures var (s, r) := Admit(e.stream, t, counter, plaintext);
            ReceivingOk(e.(stream := s, delivered := if r.Ok? then e.delivered + [r.value] else e.delivered))
  {
    if Admit(e.stream, t, counter, plaintext).1.Ok? {
      AppendInOrder(e.delivered, Frame(t, plaintext), Opposite(e.stream.direction));
    }
  }

  // A frame is only returned under the number of frames returned before it.
  lemma AdmittedNumber(e: Endpoint, t: FrameType, counter: int, plaintext: Bytes)
    requires ReceivingOk(e) && Admit(e.stream, t, counter, plaintext).1.Ok?
    ensures counter == |e.delivered| && Admit(e.stream, t, counter, plaintext).1.value == Frame(t, plaintext)
  {
  }

  lemma PrefixGrows(e: Endpoint, peer: Endpoint, s: Stream, f: Frame)
    requires IsPrefix(e, peer) && SentAs(peer, |e.delivered|, f)
    ensures IsPrefix(e.(stream := s, delivered := e.delivered + [f]), peer)
  {
  }

  // The part of a receiveFrame call after the decryption, for a frame that is still allowed next.
  lemma AdmitKeepsIntegrity(e: Endpoint, peer: Endpoint, frame: Bytes, claimed: Option<Bytes>)
    requires SamePeers(e, peer) && ReceivingOk(e) && IsPrefix(e, peer)
    requires Opened(peer, frame, claimed).Some? && StillAllowed(e.stream, frame)
    ensures var (h, _) := SplitFrame(frame).value;
            var (s, r) := Admit(e.stream, h.frameType, h.counter, claimed.value);
            var e' := e.(stream := s, delivered := if r.Ok? then e.delivered + [r.value] else e.delivered);
            ReceivingOk(e') && IsPrefix(e', peer)
  {
    var (h, _) := SplitFrame(frame).value;
    var (s, r) := Admit(e.stream, h.frameType, h.counter, claimed.value);
    if h.counter == e.stream.receiveNext {
      ParsedTypeFits(frame);
      AdmitKeepsReceiving(e, h.frameType, h.counter, claimed.value);
      if r.Ok? {
        OpenedIsSent(e, peer, frame, claimed);
        AdmittedNumber(e, h.frameType, h.counter, claimed.value);
        PrefixGrows(e, peer, s, r.value);
      }
    }
  }

  lemma ReceiveKeepsIntegrity(e: Endpoint, peer: Endpoint, frame: Bytes, claimed: Option<Bytes>)
    requires SamePeers(e, peer) && ReceivingOk(e) && IsPrefix(e, peer)
    ensures ReceivingOk(Acted(e, peer, Receive(frame, claimed)))
            && IsPrefix(Acted(e, peer, Receive(frame, claimed)), peer)
  {
    if Opened(peer, frame, claimed).Some? && Inspect(e.stream, frame).Ok? {
      AdmitKeepsIntegrity(e, peer, frame, claimed);
    }
  }

  lemma DecryptKeepsIntegrity(e: Endpoint, peer: Endpoint, frame: Bytes, claimed: Option<Bytes>)
    requires SamePeers(e, peer) && ReceivingOk(e) && InspectedOk(e) && IsPrefix(e, peer)
    ensures ReceivingOk(Acted(e, peer, Decrypt(frame, claimed)))
            && IsPrefix(Acted(e, peer, Decrypt(frame, claimed)), peer)
  {
    if Opened(peer, frame, claimed).Some? && frame in e.inspected {
      assert StillAllowed(e.stream, frame);
      AdmitKeepsIntegrity(e, peer, frame, claimed);
    }
  }

  lemma ActKeepsInspected(e: Endpoint, peer: Endpoint, a: Act)
    requires InspectedOk(e)
    ensures InspectedOk(Acted(e, peer, a))
  {
    var e' := Acted(e, peer, a);
    ActKeepsHalves(e, peer, a);
    forall f | f in e'.inspected ensures StillAllowed(e'.stream, f) {
      if f in e.inspected { assert StillAllowed(e.stream, f); }
    }
  }

  // Sealing more frames never changes one that was sealed before.
  lemma ActKeepsSealed(e: Endpoint, peer: Endpoint, a: Act)
    requires CountersOk(e)
    ensures forall c :: c in e.log ==> c in Acted(e, peer, a).log && Acted(e, peer, a).log[c] == e.log[c]
  {
  }

  // Creating frames leaves the receiving half alone, and the other way round.
  lemma ActKeepsHalves(e: Endpoint, peer: Endpoint, a: Act)
    ensures var e' := Acted(e, peer, a);
            if a.Receive? || a.Decrypt? then OnlyReceives(e.stream, e'.stream)
                && e' == e.(stream := e'.stream, delivered := e'.delivered)
            else e'.delivered == e.delivered
                 && e'.stream == e.stream.(sendNext := e'.stream.sendNext,
                    sentConfirmation := e'.stream.sentConfirmation, sentType := e'.stream.sentType)
    ensures Acted(e, peer, a).inspected == if a.Check? && Inspect(e.stream, a.frame).Ok? then e.inspected + {a.frame}
            else e.inspected
    ensures Acted(e, peer, a).prefix == e.prefix
  {
  }

  ghost predicate Inv(ch: Channel) {
    && CountersOk(ch.sender) && CountersOk(ch.receiver)
    && SamePeers(ch.sender, ch.receiver) && SamePeers(ch.receiver, ch.sender)
    && ReceivingOk(ch.sender) && ReceivingOk(ch.receiver)
    && InspectedOk(ch.sender) && InspectedOk(ch.receiver)
    && IsPrefix(ch.sender, ch.receiver) && IsPrefix(ch.receiver, ch.sender)
  }

  lemma EndpointStep(e: Endpoint, peer: Endpoint, a: Act)
    requires CountersOk(e) && SamePeers(e, peer) && SamePeers(peer, e)
    requires ReceivingOk(e) && InspectedOk(e) && IsPrefix(e, peer) && IsPrefix(peer, e)
    ensures var e' := Acted(e, peer, a);
            && CountersOk(e') && SamePeers(e', peer) && SamePeers(peer, e')
            && ReceivingOk(e') && InspectedOk(e') && IsPrefix(e', peer) && IsPrefix(peer, e')
  {
    ActKeepsCounters(e, peer, a);
    ActKeepsSealed(e, peer, a);
    ActKeepsHalves(e, peer, a);
    ActKeepsInspected(e, peer, a);
    match a
    case Receive(frame, claimed) => ReceiveKeepsIntegrity(e, peer, frame, claimed);
    case Decrypt(frame, claimed) => DecryptKeepsIntegrity(e, peer, frame, claimed);
    case _ =>
  }

  lemma {:induction false} RunKeepsInv(ch: Channel, run: seq<Action>)
    requires Inv(ch)
    ensures Inv(Exec(ch, run))
  {
    if run != [] {
      RunKeepsInv(ch, run[..|run| - 1]);
      var before := Exec(ch, run[..|run| - 1]);
      match run[|run| - 1]
      case AtSender(act) => EndpointStep(before.sender, before.receiver, act);
      case AtReceiver(act) => EndpointStep(before.receiver, before.sender, act);
    }
  }

  lemma FreshIsInv(id: Text, confirmation: Bytes, p: Bytes, q: Bytes)
    requires |p| == |q| == 4
    ensures Inv(Fresh(id, confirmation, p, q))
  {
  }

  /** With an ideal cipher and any network whatsoever, the frames an endpoint's receiveFrame has returned are, in
      order, exactly the frames its peer sealed under counters 0, 1, 2, ...; and there is none unless the first is
      the peer's matching confirmation. */
  lemma {:induction false} PrefixIntegrity(id: Text, confirmation: Bytes, p: Bytes, q: Bytes, run: seq<Action>)
    requires |p| == |q| == 4
    ensures var ch := Exec(Fresh(id, confirmation, p, q), run);
            && (forall i :: 0 <= i < |ch.receiver.delivered| ==> SentAs(ch.sender, i, ch.receiver.delivered[i]))
            && (forall i :: 0 <= i < |ch.sender.delivered| ==> SentAs(ch.receiver, i, ch.sender.delivered[i]))
            && (ch.receiver.delivered != [] ==> ch.receiver.delivered[0] == Frame(Confirm, confirmation))
            && (ch.sender.delivered != [] ==> ch.sender.delivered[0] == Frame(Confirm, confirmation))
  {
    FreshIsInv(id, confirmation, p, q);
    RunKeepsInv(Fresh(id, confirmation, p, q), run);
    RunKeepsConfirmation(Fresh(id, confirmation, p, q), run);
  }

  lemma {:induction false} RunKeepsConfirmation(ch: Channel, run: seq<Action>)
    ensures Exec(ch, run).sender.stream.confirmation == ch.sender.stream.confirmation
    ensures Exec(ch, run).receiver.stream.confirmation == ch.receiver.stream.confirmation
    ensures Exec(ch, run).sender.stream.direction == ch.sender.stream.direction
    ensures Exec(ch, run).receiver.stream.direction == ch.receiver.stream.direction
  {
    if run != [] {
      RunKeepsConfirmation(ch, run[..|run| - 1]);
      var before, a := Exec(ch, run[..|run| - 1]), run[|run| - 1];
      ActKeepsHalves(before.sender, before.receiver, a.act);
      ActKeepsHalves(before.receiver, before.sender, a.act);
    }
  }

  // ----- The language of frame types -----

  function Repeat(t: FrameType, n: nat): seq<FrameType> {
    seq(n, _ => t)
  }

  predicate AllTerminal(ts: seq<FrameType>) {
    forall i :: 0 <= i < |ts| ==> ts[i] == Cancel || ts[i] == Error
  }

  function SenderCore(offer: nat, manifest: nat, chunks: nat, complete: nat): seq<FrameType> {
    [Confirm] + Repeat(FileOffer, offer) + Repeat(Manifest, manifest) + Repeat(Chunk, chunks)
        + Repeat(Complete, complete)
  }

  // confirm, file_offer?, (manifest, chunk*, complete?)?, (cancel | error)*
  ghost predicate SenderShape(
      ts: seq<FrameType>, offer: nat, manifest: nat, chunks: nat, complete: nat, tail: seq<FrameType>)
  {
    && offer <= 1 && manifest <= 1 && complete <= 1 && AllTerminal(tail)
    && (manifest == 0 ==> chunks == 0 && complete == 0)
    && ts == SenderCore(offer, manifest, chunks, complete) + tail
  }

  // confirm, accept?, receipt?, (cancel | error)*
  ghost predicate ReceiverShape(ts: seq<FrameType>, accept: nat, receipt: nat, tail: seq<FrameType>) {
    && accept <= 1 && receipt <= 1 && AllTerminal(tail)
    && ts == [Confirm] + Repeat(Accept, accept) + Repeat(Receipt, receipt) + tail
  }

  lemma {:induction false} SenderOrderHasShape(ts: seq<FrameType>)
    returns (offer: nat, manifest: nat, chunks: nat, complete: nat, tail: seq<FrameType>)
    requires ts != [] && InOrder(ts, S2R)
    ensures SenderShape(ts, offer, manifest, chunks, complete, tail)
  {
    offer, manifest, chunks, complete, tail := 0, 0, 0, 0, [];
    var init, last := ts[..|ts| - 1], ts[|ts| - 1];
    assert ts == init + [last];
    if init == [] {
      assert ts == [Confirm];
      return;
    }
    offer, manifest, chunks, complete, tail := SenderOrderHasShape(init);
    if last == Cancel || last == Error {
      tail := tail + [last];
    } else if last == FileOffer {
      offer := 1;
    } else if last == Manifest {
      manifest := 1;
    } else if last == Chunk {
      assert Repeat(Chunk, chunks + 1) == Repeat(Chunk, chunks) + [Chunk];
      chunks := chunks + 1;
    } else {
      complete := 1;
    }
  }

  lemma {:induction false} OneMore(ts: seq<FrameType>, t: FrameType, d: Direction)
    requires ts != [] && InOrder(ts, d) && TypeFitsDirection(d, t) && SequenceTypeAllowed(Some(ts[|ts| - 1]), t, d)
    ensures InOrder(ts + [t], d)
  {
    assert (ts + [t])[..|ts|] == ts;
  }

  lemma {:induction false} ConfirmIsInOrder(d: Direction)
    ensures InOrder([Confirm], d)
  {
    assert [Confirm][..0] == [];
  }

  lemma {:induction false} TailIsInOrder(ts: seq<FrameType>, tail: seq<FrameType>, d: Direction)
    requires ts != [] && InOrder(ts, d) && AllTerminal(tail)
    ensures InOrder(ts + tail, d)
    decreases |tail|
  {
    if tail == [] {
      assert ts + tail == ts;
    } else {
      var init, last := tail[..|tail| - 1], tail[|tail| - 1];
      TailIsInOrder(ts, init, d);
      OneMore(ts + init, last, d);
      assert ts + init + [last] == ts + tail;
    }
  }

  lemma {:induction false} SenderCoreIsInOrder(offer: nat, manifest: nat, chunks: nat, complete: nat)
    requires offer <= 1 && manifest <= 1 && complete <= 1 && (manifest == 0 ==> chunks == 0 && complete == 0)
    ensures InOrder(SenderCore(offer, manifest, chunks, complete), S2R)
    decreases complete, chunks, manifest, offer
  {
    var ts := SenderCore(offer, manifest, chunks, complete);
    if complete == 1 {
      SenderCoreIsInOrder(offer, manifest, chunks, 0);
      OneMore(SenderCore(offer, manifest, chunks, 0), Complete, S2R);
      assert ts == SenderCore(offer, manifest, chunks, 0) + [Complete];
    } else if chunks > 0 {
      SenderCoreIsInOrder(offer, manifest, chunks - 1, 0);
      OneMore(SenderCore(offer, manifest, chunks - 1, 0), Chunk, S2R);
      assert ts == SenderCore(offer, manifest, chunks - 1, 0) + [Chunk];
    } else if manifest == 1 {
      SenderCoreIsInOrder(offer, 0, 0, 0);
      OneMore(SenderCore(offer, 0, 0, 0), Manifest, S2R);
      assert ts == SenderCore(offer, 0, 0, 0) + [Manifest];
    } else if offer == 1 {
      ConfirmIsInOrder(S2R);
      OneMore([Confirm], FileOffer, S2R);
      assert ts == [Confirm] + [FileOffer];
    } else {
      ConfirmIsInOrder(S2R);
      assert ts == [Confirm];
    }
  }

  lemma {:induction false} SenderShapeIsInOrder(
      ts: seq<FrameType>, offer: nat, manifest: nat, chunks: nat, complete: nat, tail: seq<FrameType>)
    requires SenderShape(ts, offer, manifest, chunks, complete, tail)
    ensures InOrder(ts, S2R)
  {
    SenderCoreIsInOrder(offer, manifest, chunks, complete);
    TailIsInOrder(SenderCore(offer, manifest, chunks, complete), tail, S2R);
  }

  lemma {:induction false} ReceiverOrderHasShape(
      ts: seq<FrameType>) returns (accept: nat, receipt: nat, tail: seq<FrameType>)
    requires ts != [] && InOrder(ts, R2S)
    ensures ReceiverShape(ts, accept, receipt, tail)
  {
    accept, receipt, tail := 0, 0, [];
    var init, last := ts[..|ts| - 1], ts[|ts| - 1];
    assert ts == init + [last];
    if init == [] {
      assert ts == [Confirm];
      return;
    }
    accept, receipt, tail := ReceiverOrderHasShape(init);
    if last == Cancel || last == Error {
      tail := tail + [last];
    } else if last == Accept {
      accept := 1;
    } else {
      receipt := 1;
    }
  }

  lemma {:induction false} ReceiverShapeIsInOrder(ts: seq<FrameType>, accept: nat, receipt: nat, tail: seq<FrameType>)
    requires ReceiverShape(ts, accept, receipt, tail)
    ensures InOrder(ts, R2S)
  {
    ConfirmIsInOrder(R2S);
    var core := [Confirm];
    if accept == 1 {
      OneMore(core, Accept, R2S);
      core := core + [Accept];
    }
    if receipt == 1 {
      OneMore(core, Receipt, R2S);
      core := core + [Receipt];
    }
    TailIsInOrder(core, tail, R2S);
    assert core + tail == ts;
  }

  ghost predicate SenderLanguage(ts: seq<FrameType>) {
    exists offer: nat, manifest: nat, chunks: nat, complete: nat, tail
        :: SenderShape(ts, offer, manifest, chunks, complete, tail)
  }

  ghost predicate ReceiverLanguage(ts: seq<FrameType>) {
    exists accept: nat, receipt: nat, tail :: ReceiverShape(ts, accept, receipt, tail)
  }

  /** The orders the stream lets through are exactly the two languages of the protocol. */
  lemma {:induction false} OrderIsLanguage(ts: seq<FrameType>)
    ensures InOrder(ts, S2R) <==> ts == [] || SenderLanguage(ts)
    ensures InOrder(ts, R2S) <==> ts == [] || ReceiverLanguage(ts)
  {
    if ts != [] && InOrder(ts, S2R) {
      var offer, manifest, chunks, complete, tail := SenderOrderHasShape(ts);
    }
    if SenderLanguage(ts) {
      var offer: nat, manifest: nat, chunks: nat, complete: nat,
          tail :| SenderShape(ts, offer, manifest, chunks, complete, tail);
      SenderShapeIsInOrder(ts, offer, manifest, chunks, complete, tail);
    }
    if ts != [] && InOrder(ts, R2S) {
      var accept, receipt, tail := ReceiverOrderHasShape(ts);
    }
    if ReceiverLanguage(ts) {
      var accept: nat, receipt: nat, tail :| ReceiverShape(ts, accept, receipt, tail);
      ReceiverShapeIsInOrder(ts, accept, receipt, tail);
    }
  }

  /** Whatever arrives, the types each endpoint delivers spell a word of its language. */
  lemma {:induction false} FrameOrderLanguage(id: Text, confirmation: Bytes, p: Bytes, q: Bytes, run: seq<Action>)
    requires |p| == |q| == 4
    ensures var ch := Exec(Fresh(id, confirmation, p, q), run);
            && (ch.receiver.delivered == [] || SenderLanguage(Types(ch.receiver.delivered)))
            && (ch.sender.delivered == [] || ReceiverLanguage(Types(ch.sender.delivered)))
  {
    FreshIsInv(id, confirmation, p, q);
    RunKeepsInv(Fresh(id, confirmation, p, q), run);
    RunKeepsConfirmation(Fresh(id, confirmation, p, q), run);
    var ch := Exec(Fresh(id, confirmation, p, q), run);
    OrderIsLanguage(Types(ch.receiver.delivered));
    OrderIsLanguage(Types(ch.sender.delivered));
  }

  // ----- Key confirmation -----

  // A confirmation has counter 0; anything else was made after both confirmations.
  predicate MadeInTurn(e: Endpoint, c: nat, t: FrameType, body: Bytes) {
    if t == Confirm then c == 0 && (e.stream.confirmation.Some? ==> body == e.stream.confirmation.value)
    else e.stream.sentConfirmation && e.stream.receivedConfirmation
  }

  ghost predicate ConfirmsFirst(e: Endpoint) {
    && (forall c :: c in e.drafts ==> MadeInTurn(e, c, e.drafts[c].frameType, e.drafts[c].plaintext))
    && (forall c :: c in e.log ==> MadeInTurn(e, c, e.log[c].frameType, e.log[c].plaintext))
    && (e.stream.sentConfirmation ==> 0 in e.log && e.log[0].frameType == Confirm)
  }

  lemma {:induction false} ReceivingConfirmsFirst(e: Endpoint, e': Endpoint)
    requires ConfirmsFirst(e) && e' == e.(stream := e'.stream, delivered := e'.delivered, inspected := e'.inspected)
    requires OnlyReceives(e.stream, e'.stream) && (e.stream.receivedConfirmation ==> e'.stream.receivedConfirmation)
    ensures ConfirmsFirst(e')
  {
  }

  lemma {:induction false} ReceiptKeepsConfirmation(s: Stream, frame: Bytes, plain: Option<Bytes>)
    ensures s.receivedConfirmation ==> Received(s, frame, plain).0.receivedConfirmation
  {
    hide Inspect;
  }

  lemma {:induction false} ActConfirmsFirst(e: Endpoint, peer: Endpoint, a: Act)
    requires ConfirmsFirst(e) && CountersOk(e)
    ensures ConfirmsFirst(Acted(e, peer, a))
  {
    hide EncodeFrameHeader, FrameNonce, Inspect, Received, SplitFrame, Opened, SequenceTypeAllowed, TypeFitsDirection;
    match a
    case Receive(frame, claimed) =>
      ReceiptKeepsConfirmation(e.stream, frame, Opened(peer, frame, claimed));
      ReceivingConfirmsFirst(e, Acted(e, peer, a));
    case Decrypt(frame, claimed) => ReceivingConfirmsFirst(e, Acted(e, peer, a));
    case _ =>
  }

  lemma {:induction false} RunConfirmsFirst(ch: Channel, run: seq<Action>)
    requires Inv(ch) && ConfirmsFirst(ch.sender) && ConfirmsFirst(ch.receiver)
    ensures ConfirmsFirst(Exec(ch, run).sender) && ConfirmsFirst(Exec(ch, run).receiver)
  {
    hide ConfirmsFirst, Acted;
    if run != [] {
      var init := run[..|run| - 1];
      RunConfirmsFirst(ch, init);
      RunKeepsInv(ch, init);
      var before, a := Exec(ch, init), run[|run| - 1];
      ActConfirmsFirst(before.sender, before.receiver, a.act);
      ActConfirmsFirst(before.receiver, before.sender, a.act);
    }
  }

  // This end has sealed its confirmation under its first counter.
  predicate HasConfirmed(e: Endpoint, confirmation: Bytes) {
    0 in e.log && e.log[0].frameType == Confirm && e.log[0].plaintext == confirmation
  }

  lemma {:induction false} ConfirmedAtBothEnds(e: Endpoint, peer: Endpoint, confirmation: Bytes, c: nat)
    requires ConfirmsFirst(e) && ReceivingOk(e) && IsPrefix(e, peer) && e.stream.confirmation == Some(confirmation)
    requires c in e.log && e.log[c].frameType != Confirm
    ensures HasConfirmed(e, confirmation) && HasConfirmed(peer, confirmation)
  {
    assert MadeInTurn(e, c, e.log[c].frameType, e.log[c].plaintext);
    assert MadeInTurn(e, 0, e.log[0].frameType, e.log[0].plaintext);
    assert SentAs(peer, 0, e.delivered[0]);
  }

  /** In every run, an endpoint that has sealed anything but a confirmation has sealed its own confirmation of the
      handshake first, and its peer has sealed the same one. */
  lemma {:induction false} NothingBeforeConfirmation(
      id: Text, confirmation: Bytes, p: Bytes, q: Bytes, run: seq<Action>, c: nat)
    requires |p| == |q| == 4
    ensures var ch := Exec(Fresh(id, confirmation, p, q), run);
            (c in ch.sender.log && ch.sender.log[c].frameType != Confirm)
            || (c in ch.receiver.log && ch.receiver.log[c].frameType != Confirm)
            ==> HasConfirmed(ch.sender, confirmation) && HasConfirmed(ch.receiver, confirmation)
  {
    hide Exec, HasConfirmed, ConfirmsFirst, CountersOk, InspectedOk;
    var fresh' := Fresh(id, confirmation, p, q);
    FreshIsInv(id, confirmation, p, q);
    FreshConfirmsFirst(id, confirmation, p, q);
    RunKeepsInv(fresh', run);
    RunConfirmsFirst(fresh', run);
    RunKeepsConfirmation(fresh', run);
    var ch := Exec(fresh', run);
    if c in ch.sender.log && ch.sender.log[c].frameType != Confirm {
      ConfirmedAtBothEnds(ch.sender, ch.receiver, confirmation, c);
    }
    if c in ch.receiver.log && ch.receiver.log[c].frameType != Confirm {
      ConfirmedAtBothEnds(ch.receiver, ch.sender, confirmation, c);
    }
  }

  lemma {:induction false} FreshConfirmsFirst(id: Text, confirmation: Bytes, p: Bytes, q: Bytes)
    ensures ConfirmsFirst(Fresh(id, confirmation, p, q).sender) && ConfirmsFirst(Fresh(id, confirmation, p, q).receiver)
  {
  }

  // ----- Undisturbed delivery -----

  // The peer expects this frame next.
  predicate Expects(peer: Endpoint, e: Endpoint, t: FrameType, body: Bytes) {
    && peer.stream.receiveNext == e.stream.sendNext
    && SequenceTypeAllowed(peer.stream.receivedType, t, e.stream.direction)
    && (t != Confirm <==> peer.stream.receivedConfirmation)
    && (t == Confirm && peer.stream.confirmation.Some? ==> peer.stream.confirmation.value == body)
  }

  // The frame on the wire: the header and the ciphertext.
  function OnTheWire(s: Stream, t: FrameType, counter: nat, body: Bytes, ciphertext: Bytes): Bytes
    requires EncodeFrameHeader(HeaderOf(s, t, counter, |body|)).Ok?
  {
    EncodeFrameHeader(HeaderOf(s, t, counter, |body|)).value + ciphertext
  }

  lemma WireFrameSplits(s: Stream, t: FrameType, counter: nat, body: Bytes, ciphertext: Bytes)
    requires EncodeFrameHeader(HeaderOf(s, t, counter, |body|)).Ok? && |ciphertext| == |body| + FRAME_TAG_BYTES
    ensures SplitFrame(OnTheWire(s, t, counter, body, ciphertext)) == Ok((HeaderOf(s, t, counter, |body|), ciphertext))
  {
    hide ParseFrameHeader;
    var h := HeaderOf(s, t, counter, |body|);
    var frame := OnTheWire(s, t, counter, body, ciphertext);
    HeaderRoundTrip(h);
    hide EncodeFrameHeader;
    assert h.plaintextLength <= MAX_FRAME_PLAINTEXT_BYTES;
    assert frame[..FRAME_HEADER_BYTES] == EncodeFrameHeader(h).value && frame[FRAME_HEADER_BYTES..] == ciphertext;
  }

  lemma SealedFrame(e: Endpoint, peer: Endpoint, t: FrameType, body: Bytes, ciphertext: Bytes)
    requires CountersOk(e) && |e.prefix| == 4 && IsUuid(e.stream.transferId) && CreateError(e.stream, t, body).None?
    requires |body| <= MAX_FRAME_PLAINTEXT_BYTES && |ciphertext| == |body| + FRAME_TAG_BYTES
    ensures var n := e.stream.sendNext;
            var e' := Acted(Acted(e, peer, Create(t, body)), peer, Seal(n, ciphertext));
            && n in e'.log && e'.log[n] == Sealed(t, body, ciphertext) && e'.prefix == e.prefix
            && e'.stream == Applied(e.stream.(sendNext := n + 1), t)
            && EncodeFrameHeader(HeaderOf(e.stream, t, n, |body|)).Ok? && FrameNonce(e.prefix, n).Ok?
  {
  }

  lemma SealedOpens(e: Endpoint, s: Stream, t: FrameType, n: nat, body: Bytes, ciphertext: Bytes)
    requires n in e.log && e.log[n] == Sealed(t, body, ciphertext) && |ciphertext| == |body| + FRAME_TAG_BYTES
    requires HeaderOf(e.stream, t, n, |body|) == HeaderOf(s, t, n, |body|)
    requires EncodeFrameHeader(HeaderOf(s, t, n, |body|)).Ok? && FrameNonce(e.prefix, n).Ok?
    ensures Opened(e, OnTheWire(s, t, n, body, ciphertext), Some(body)) == Some(body)
  {
    WireFrameSplits(s, t, n, body, ciphertext);
    hide EncodeFrameHeader, FrameNonce, SplitFrame, OnTheWire;
    var h := HeaderOf(s, t, n, |body|);
    assert SealedAs(e, n, FrameNonce(e.prefix, n), EncodeFrameHeader(h), ciphertext, body);
    assert Opens(e, FrameNonce(e.prefix, h.counter), EncodeFrameHeader(h), ciphertext, body);
  }

  lemma ExpectedIsReceived(s: Stream, peer: Stream, t: FrameType, n: nat, body: Bytes, ciphertext: Bytes)
    requires EncodeFrameHeader(HeaderOf(s, t, n, |body|)).Ok? && |ciphertext| == |body| + FRAME_TAG_BYTES
    requires peer.transferId == s.transferId && s.direction == Opposite(peer.direction) && peer.receiveNext == n
    requires SequenceTypeAllowed(peer.receivedType, t, s.direction) && (t != Confirm <==> peer.receivedConfirmation)
    requires t == Confirm ==>
               n == 0 && |body| == CONFIRMATION_BYTES && (peer.confirmation.Some? ==> peer.confirmation.value == body)
    ensures Received(peer, OnTheWire(s, t, n, body, ciphertext), Some(body)).1 == Ok(Frame(t, body))
  {
    WireFrameSplits(s, t, n, body, ciphertext);
    hide EncodeFrameHeader, SplitFrame, OnTheWire, SequenceTypeAllowed;
  }

  /** A frame that createFrame makes and the network delivers next is returned by the peer's receiveFrame. */
  lemma FrameGoesThrough(e: Endpoint, peer: Endpoint, t: FrameType, body: Bytes, ciphertext: Bytes)
    requires CountersOk(e) && SamePeers(peer, e) && IsUuid(e.stream.transferId) && CreateError(e.stream, t, body).None?
    requires |body| <= MAX_FRAME_PLAINTEXT_BYTES && |ciphertext| == |body| + FRAME_TAG_BYTES
             && Expects(peer, e, t, body)
    ensures var n := e.stream.sendNext;
            var e' := Acted(Acted(e, peer, Create(t, body)), peer, Seal(n, ciphertext));
            && EncodeFrameHeader(HeaderOf(e.stream, t, n, |body|)).Ok?
            && Acted(peer, e', Receive(OnTheWire(e.stream, t, n, body, ciphertext), Some(body))).delivered
               == peer.delivered + [Frame(t, body)]
  {
    SealedFrame(e, peer, t, body, ciphertext);
    var n := e.stream.sendNext;
    var e' := Acted(Acted(e, peer, Create(t, body)), peer, Seal(n, ciphertext));
    hide Acted, CountersOk, EncodeFrameHeader, FrameNonce, SplitFrame, SequenceTypeAllowed, OnTheWire, Opened, Received;
    SealedOpens(e', e.stream, t, n, body, ciphertext);
    ExpectedIsReceived(e.stream, peer.stream, t, n, body, ciphertext);
    ReceivedIsDelivered(peer, e', OnTheWire(e.stream, t, n, body, ciphertext), body, Frame(t, body));
  }

  lemma ReceivedIsDelivered(e: Endpoint, peer: Endpoint, frame: Bytes, body: Bytes, f: Frame)
    requires Opened(peer, frame, Some(body)) == Some(body) && Received(e.stream, frame, Some(body)).1 == Ok(f)
    ensures Acted(e, peer, Receive(frame, Some(body))).delivered == e.delivered + [f]
  {
    hide Opened, Received;
  }

  // ----- What is received, exactly -----

  // The frame the stream waits for: for this transfer, from the peer, with the next counter, of an allowed type.
  predicate IsAwaited(s: Stream, frame: Bytes, t: FrameType, body: Bytes) {
    var header := EncodeFrameHeader(Header(1, s.transferId, Opposite(s.direction), t, s.receiveNext, |body|));
    && header.Ok? && |frame| == 31 + |body| + 16 && frame[..31] == header.value
    && SequenceTypeAllowed(s.receivedType, t, Opposite(s.direction))
    && if t == Confirm
       then !s.receivedConfirmation && s.receiveNext == 0 && |body| == 32
            && (s.confirmation.Some? ==> s.confirmation.value == body)
       else s.receivedConfirmation
  }

  lemma {:induction false} SplitsExactly(frame: Bytes, h: Header, ciphertext: Bytes)
    requires IsUuid(h.transferId)
    ensures SplitFrame(frame) == Ok((h, ciphertext)) <==>
            && EncodeFrameHeader(h).Ok? && |frame| == 31 + h.plaintextLength + 16
            && frame[..31] == EncodeFrameHeader(h).value && ciphertext == frame[31..]
  {
    hide EncodeFrameHeader, ParseFrameHeader, IsUuid;
    if |frame| >= 31 {
      var b := frame[..31];
      if ParseFrameHeader(b) == Ok(h) {
        HeaderIsEncodable(b);
        HeaderReencodes(b);
      }
      if EncodeFrameHeader(h).Ok? && EncodeFrameHeader(h).value == b { HeaderRoundTrip(h); }
    }
    if EncodeFrameHeader(h).Ok? { LengthInRange(h); }
  }

  lemma {:induction false} LengthInRange(h: Header)
    requires EncodeFrameHeader(h).Ok?
    ensures 0 <= h.plaintextLength <= MAX_FRAME_PLAINTEXT_BYTES
  {
  }

  lemma {:induction false} HeaderIsEncodable(b: Bytes)
    requires ParseFrameHeader(b).Ok? && IsUuid(ParseFrameHeader(b).value.transferId)
    ensures EncodeFrameHeader(ParseFrameHeader(b).value).Ok?
  {
    hide IsUuid;
    CounterInRange(b[19..27]);
  }

  /** receiveFrame returns a frame exactly when it is the one the stream waits for and the cipher opens it with a
      plaintext
      of the length its header gives. */
  lemma {:induction false} ReceivesExactly(s: Stream, frame: Bytes, plain: Option<Bytes>, t: FrameType, body: Bytes)
    requires IsUuid(s.transferId)
    ensures Received(s, frame, plain).1 == Ok(Frame(t, body)) <==> plain == Some(body) && IsAwaited(s, frame, t, body)
  {
    hide EncodeFrameHeader, SplitFrame, SequenceTypeAllowed, IsUuid;
    var h := Header(1, s.transferId, Opposite(s.direction), t, s.receiveNext, |body|);
    if |frame| >= 31 { SplitsExactly(frame, h, frame[31..]); }
    if SplitFrame(frame).Ok? {
      var (g, ciphertext) := SplitFrame(frame).value;
      ParsedVersion(frame);
    }
  }

  lemma {:induction false} ParsedVersion(frame: Bytes)
    requires SplitFrame(frame).Ok?
    ensures |frame| >= 31 && SplitFrame(frame).value.0.version == 1 && SplitFrame(frame).value.1 == frame[31..]
  {
  }

  /** A frame of another transfer or of the stream's own direction is refused as such before it is decrypted. */
  lemma {:induction false} ForeignFramesAreRefused(s: Stream, frame: Bytes, plain: Option<Bytes>)
    requires SplitFrame(frame).Ok?
    requires SplitFrame(frame).value.0.transferId != s.transferId || SplitFrame(frame).value.0.direction == s.direction
    ensures Received(s, frame, plain) == (s, Err("identity_mismatch"))
  {
    hide SplitFrame;
  }

  // ----- The order of what is sent -----

  // The types an endpoint sealed, in the order in which the encryptions ended.
  ghost function SealedBy(ch: Channel, run: seq<Action>, atSender: bool): seq<FrameType> {
    if run == [] then []
    else
      var init, a := run[..|run| - 1], run[|run| - 1];
      var e := At(Exec(ch, init), atSender);
      SealedBy(ch, init, atSender)
      + if a.AtSender? == atSender && a.act.Seal? && a.act.counter in At(Exec(ch, run), atSender).log
           && a.act.counter in e.drafts
        then [e.drafts[a.act.counter].frameType] else []
  }

  function At(ch: Channel, atSender: bool): Endpoint { if atSender then ch.sender else ch.receiver }

  // The endpoint starts a createFrame call only when no other is waiting for its encryption.
  ghost predicate OneCallAtATime(ch: Channel, run: seq<Action>, atSender: bool) {
    forall i :: 0 <= i < |run| && run[i].AtSender? == atSender && run[i].act.Create? ==>
      At(Exec(ch, run[..i]), atSender).drafts == map[]
  }

  // What one endpoint has sealed, and the frame that may be waiting.
  ghost predicate SendingOk(e: Endpoint, ts: seq<FrameType>) {
    && InOrder(ts, e.stream.direction)
    && e.stream.sentType == (if ts == [] then None else Some(ts[|ts| - 1]))
    && (ts == [] ==> !e.stream.sentConfirmation)
    && (forall n, m :: n in e.drafts && m in e.drafts ==> n == m)
    && (forall n :: n in e.drafts ==> var t := e.drafts[n].frameType;
          && TypeFitsDirection(e.stream.direction, t)
          && if ts == [] then t == Confirm else SequenceTypeAllowed(e.stream.sentType, t, e.stream.direction))
  }

  lemma {:induction false} CreateKeepsOrder(e: Endpoint, peer: Endpoint, a: Act, ts: seq<FrameType>)
    requires SendingOk(e, ts) && a.Create? && e.drafts == map[]
    ensures SendingOk(Acted(e, peer, a), ts)
  {
    hide InOrder, SequenceTypeAllowed, TypeFitsDirection;
  }

  lemma {:induction false} SealKeepsOrder(e: Endpoint, peer: Endpoint, a: Act, ts: seq<FrameType>)
    requires SendingOk(e, ts) && CountersOk(e) && a.Seal?
    ensures var e' := Acted(e, peer, a);
            SendingOk(e', ts + if a.counter in e.drafts && a.counter in e'.log then [e.drafts[a.counter].frameType]
                               else [])
  {
    hide EncodeFrameHeader, FrameNonce, SequenceTypeAllowed, TypeFitsDirection, InOrder;
    if a.counter in e.drafts {
      var t := e.drafts[a.counter].frameType;
      InOrderAppend(ts, t, e.stream.direction);
    }
    assert ts + [] == ts;
  }

  lemma {:induction false} InOrderAppend(ts: seq<FrameType>, t: FrameType, d: Direction)
    requires InOrder(ts, d) && TypeFitsDirection(d, t)
    requires if ts == [] then t == Confirm else SequenceTypeAllowed(Some(ts[|ts| - 1]), t, d)
    ensures InOrder(ts + [t], d)
  {
    assert (ts + [t])[..|ts|] == ts;
  }

  lemma {:induction false} OthersKeepOrder(e: Endpoint, peer: Endpoint, a: Act, ts: seq<FrameType>)
    requires SendingOk(e, ts) && !a.Create? && !a.Seal?
    ensures SendingOk(Acted(e, peer, a), ts)
  {
    hide InOrder, SequenceTypeAllowed, TypeFitsDirection, Inspect, Received, SplitFrame, Opened, Admit;
  }

  lemma {:induction false} RunKeepsOrder(ch: Channel, run: seq<Action>, atSender: bool)
    requires Inv(ch) && SendingOk(At(ch, atSender), []) && OneCallAtATime(ch, run, atSender)
    ensures SendingOk(At(Exec(ch, run), atSender), SealedBy(ch, run, atSender))
  {
    hide SendingOk, Acted, CountersOk;
    if run != [] {
      var init, a := run[..|run| - 1], run[|run| - 1];
      assert forall i :: 0 <= i < |init| ==> init[i] == run[i] && init[..i] == run[..i];
      RunKeepsOrder(ch, init, atSender);
      RunKeepsCounters(ch, init);
      var before := Exec(ch, init);
      var e, peer, ts := At(before, atSender), At(before, !atSender), SealedBy(ch, init, atSender);
      assert ts + [] == ts;
      if a.AtSender? == atSender {
        if a.act.Create? {
          CreateKeepsOrder(e, peer, a.act, ts);
        } else if a.act.Seal? {
          SealKeepsOrder(e, peer, a.act, ts);
        } else {
          OthersKeepOrder(e, peer, a.act, ts);
        }
      }
    }
  }

  /** If an endpoint never starts a createFrame call while another waits for its encryption, the types of the frames it
      seals spell a word of its language. */
  lemma {:induction false} SealedOrderLanguage(
      id: Text, confirmation: Bytes, p: Bytes, q: Bytes, run: seq<Action>, atSender: bool)
    requires |p| == |q| == 4 && OneCallAtATime(Fresh(id, confirmation, p, q), run, atSender)
    ensures var ts := SealedBy(Fresh(id, confirmation, p, q), run, atSender);
            ts == [] || if atSender then SenderLanguage(ts) else ReceiverLanguage(ts)
  {
    hide Exec, OneCallAtATime, InOrder;
    var ch := Fresh(id, confirmation, p, q);
    FreshIsInv(id, confirmation, p, q);
    NothingSealedYet(id, confirmation, p, q);
    RunKeepsOrder(ch, run, atSender);
    RunKeepsConfirmation(ch, run);
    OrderIsLanguage(SealedBy(ch, run, atSender));
  }

  lemma {:induction false} NothingSealedYet(id: Text, confirmation: Bytes, p: Bytes, q: Bytes)
    ensures SendingOk(Fresh(id, confirmation, p, q).sender, []) && SendingOk(Fresh(id, confirmation, p, q).receiver, [])
  {
  }

  /** Calls that overlap need not keep the order: after the confirmations, two offers can be under way at once. */
  lemma {:induction false} OverlappingCallsBothPass(e: Endpoint, peer: Endpoint, first: Bytes, second: Bytes)
    requires e.stream.sentConfirmation && e.stream.receivedConfirmation && e.stream.sentType == Some(Confirm)
    requires e.stream.direction == S2R && e.stream.sendNext < MAX_FRAME_COUNTER
    ensures var n := e.stream.sendNext;
            var e' := Acted(Acted(e, peer, Create(FileOffer, first)), peer, Create(FileOffer, second));
            && n in e'.drafts && e'.drafts[n] == Frame(FileOffer, first)
            && n + 1 in e'.drafts && e'.drafts[n + 1] == Frame(FileOffer, second)
    ensures !InOrder([Confirm, FileOffer, FileOffer], S2R)
  {
    assert [Confirm, FileOffer, FileOffer][..2] == [Confirm, FileOffer];
  }
}
