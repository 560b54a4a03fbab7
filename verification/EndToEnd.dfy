/** The whole pipeline: from microphone chunks, or from a PIN, to the frames the Mac gets back. */
module EndToEnd {
  import opened Wrappers
  import opened Bytes
  import opened Symbolic
  import opened Session
  import opened Protocol
  import opened Frames
  import opened Wav
  import opened Assembly
  import opened AudioStreams
  import Capture
  import Handshake
  import Pairing
  import PairingRuns
  import Agreement

  /** The nonce of one message and the clocks it is encrypted and decrypted at. */
  datatype Stamp = Stamp(nonce: Octets, sent: Clock, arrived: Clock)

  function Kind(m: Message): Octets {
    match m
    case AudioStart(_, _, _) => Ascii("audio_start")
    case AudioFrame(_, _, _, _) => Ascii("audio_frame")
    case AudioStop(_, _, _) => Ascii("audio_stop")
    case _ => Ascii("ping")
  }

  /** The messages of one recording. */
  function Recording(c: Codec, sessionID: string, streamID: string, metadata: AudioMetadata, frames: seq<seq<byte>>)
    : seq<Message>
  {
    [AudioStart(sessionID, streamID, metadata)] + Tail(c, sessionID, streamID, frames, 0)
  }

  /** The frames numbered on from `first`, and the stop that counts them all. */
  function Tail(c: Codec, sessionID: string, streamID: string, frames: seq<seq<byte>>, first: nat): (r: seq<Message>)
    ensures |r| == |frames| + 1
    ensures r[|r| - 1] == AudioStop(sessionID, streamID, first + |frames|)
    ensures forall i :: 0 <= i < |frames| ==> r[i].AudioFrame?
    decreases |frames|
  {
    if frames == [] then [AudioStop(sessionID, streamID, first)]
    else
      [AudioFrame(sessionID, streamID, first + 1, c.encode64(frames[0]))]
      + Tail(c, sessionID, streamID, frames[1..], first + 1)
  }

  /** Encrypts the messages in order; an error ends the list. */
  function SealAll(c: Codec, client: SessionState, ms: seq<Message>, stamps: seq<Stamp>): seq<Arrival>
    requires |ms| == |stamps|
    decreases |ms|
  {
    if ms == [] then []
    else
      match EncryptStep(client, Kind(ms[0]), c.encode(ms[0]), Some(stamps[0].nonce), stamps[0].sent)
      case (_, Failure(_)) => []
      case (client', Success(m)) => [Arrival(m, stamps[0].arrived)] + SealAll(c, client', ms[1..], stamps[1..])
  }

  /** Neither end is idle for longer than its timeout between one message and the next. */
  predicate Prompt(client: int, server: int, clientTimeout: int, serverTimeout: int, stamps: seq<Stamp>)
    decreases |stamps|
  {
    stamps != [] ==>
      && |stamps[0].nonce| == NONCE_SIZE
      && stamps[0].sent.check - client <= clientTimeout
      && stamps[0].arrived.check - server <= serverTimeout
      && Prompt(stamps[0].sent.touch, stamps[0].arrived.touch, clientTimeout, serverTimeout, stamps[1..])
  }

  /** The client is about to send the message the server expects next. */
  ghost predicate InStep(client: SessionState, server: SessionState) {
    && client.sessionID == server.sessionID && client.sendKey == server.receiveKey
    && client.status.Active? && server.status.Active?
    && Canonical(server) && client.nextLocalSeq == Next(server.lastRemoteSeq)
  }

  ghost predicate CanCarry(client: SessionState, server: SessionState, stamps: seq<Stamp>) {
    && InStep(client, server)
    && Accepted(server) + |stamps| <= TWO_64
    && Prompt(client.lastActivity, server.lastActivity, client.timeout, server.timeout, stamps)
  }

  /** Messages encrypted in step and delivered promptly all arrive. */
  lemma {:induction false} AllArrive(c: Codec, client: SessionState, server: SessionState, ms: seq<Message>,
                                     stamps: seq<Stamp>)
    requires Faithful(c) && |ms| == |stamps| && CanCarry(client, server, stamps)
    ensures |SealAll(c, client, ms, stamps)| == |ms|
    ensures ReceiveAll(c, server, SealAll(c, client, ms, stamps)).1 == Success(ms)
    decreases |ms|
  {
    if ms != [] {
      OneArrives(c, client, server, ms[0], stamps[0], stamps[1..]);
      var (client', m) := EncryptStep(client, Kind(ms[0]), c.encode(ms[0]), Some(stamps[0].nonce), stamps[0].sent);
      hide EncryptStep, Receive, CanCarry;
      var arrival := Arrival(m.value, stamps[0].arrived);
      var server' := Receive(c, server, arrival).0;
      AllArrive(c, client', server', ms[1..], stamps[1..]);
      var rest := SealAll(c, client', ms[1..], stamps[1..]);
      assert ([arrival] + rest)[1..] == rest;
      assert [ms[0]] + ms[1..] == ms;
    }
  }

  lemma OneArrives(c: Codec, client: SessionState, server: SessionState, m: Message, stamp: Stamp, more: seq<Stamp>)
    requires Faithful(c) && CanCarry(client, server, [stamp] + more)
    ensures var (client', sealed) := EncryptStep(client, Kind(m), c.encode(m), Some(stamp.nonce), stamp.sent);
            && sealed.Success?
            && var (server', r) := Receive(c, server, Arrival(sealed.value, stamp.arrived));
               r == Success(m) && CanCarry(client', server', more)
  {
    assert ([stamp] + more)[1..] == more;
    EncryptThenDecrypt(client, server, Kind(m), c.encode(m), stamp.nonce, stamp.sent, stamp.arrived);
    hide EncryptStep, DecryptStep, Canonical, Kind;
  }

  lemma {:induction false} TailContinues(c: Codec, sessionID: string, streamID: string, frames: seq<seq<byte>>,
                                         first: nat)
    requires Faithful(c)
    ensures Continues(c, Tail(c, sessionID, streamID, frames, first), streamID, first, frames)
    decreases |frames|
  {
    var ms := Tail(c, sessionID, streamID, frames, first);
    ContinuesFront(c, ms, streamID, first, frames);
    if frames == [] {
      assert ms[1..] == [] && FramesIn(ms[1..]) == [];
    } else {
      TailContinues(c, sessionID, streamID, frames[1..], first + 1);
      assert ms[1..] == Tail(c, sessionID, streamID, frames[1..], first + 1);
    }
    hide Continues;
  }

  lemma RecordingInLanguage(c: Codec, sessionID: string, streamID: string, metadata: AudioMetadata,
                            frames: seq<seq<byte>>)
    requires Faithful(c) && ValidMetadata(metadata)
    ensures InLanguage(c, Recording(c, sessionID, streamID, metadata, frames), metadata, frames)
  {
    var tail := Tail(c, sessionID, streamID, frames, 0);
    TailContinues(c, sessionID, streamID, frames, 0);
    assert Recording(c, sessionID, streamID, metadata, frames)[1..] == tail;
    assert tail[|tail| - 1].AudioStop?;
    hide Continues;
  }

  lemma {:induction false} ReceivePrefix(c: Codec, s: SessionState, arrivals: seq<Arrival>, j: nat)
    requires ReceiveAll(c, s, arrivals).1.Success? && j <= |arrivals|
    ensures |ReceiveAll(c, s, arrivals).1.value| == |arrivals|
    ensures ReceiveAll(c, s, arrivals[..j]).1 == Success(ReceiveAll(c, s, arrivals).1.value[..j])
    decreases |arrivals|
  {
    hide Receive;
    if arrivals == [] {
      assert arrivals[..j] == [];
    } else {
      var (s', r) := Receive(c, s, arrivals[0]);
      var ms := ReceiveAll(c, s', arrivals[1..]).1.value;
      ReceivePrefix(c, s', arrivals[1..], if j == 0 then 0 else j - 1);
      if j == 0 {
        assert arrivals[..0] == [];
      } else {
        assert arrivals[..j][0] == arrivals[0] && arrivals[..j][1..] == arrivals[1..][..j - 1];
        assert ([r.value] + ms)[..j] == [r.value] + ms[..j - 1];
      }
    }
  }

  lemma NoEarlyStop(c: Codec, sessionID: string, streamID: string, metadata: AudioMetadata,
                    frames: seq<seq<byte>>, j: nat)
    requires j <= |frames| + 1
    ensures |Recording(c, sessionID, streamID, metadata, frames)| == |frames| + 2
    ensures !HasStop(Recording(c, sessionID, streamID, metadata, frames)[..j])
  {
    var ms := Recording(c, sessionID, streamID, metadata, frames);
    forall i | 0 <= i < j
      ensures !ms[..j][i].AudioStop?
    {
      assert i > 0 ==> ms[i] == Tail(c, sessionID, streamID, frames, 0)[i - 1];
    }
  }

  lemma RecordingStopsOnlyLast(c: Codec, server: SessionState, arrivals: seq<Arrival>, sessionID: string,
                               streamID: string, metadata: AudioMetadata, frames: seq<seq<byte>>)
    requires ReceiveAll(c, server, arrivals).1 == Success(Recording(c, sessionID, streamID, metadata, frames))
    ensures StopsOnlyLast(c, server, arrivals)
  {
    ReceivePrefix(c, server, arrivals, 0);
    NoEarlyStop(c, sessionID, streamID, metadata, frames, 0);
    hide ReceiveAll, Recording, HasStop;
    forall j: nat | j < |arrivals|
      ensures match ReceiveAll(c, server, arrivals[..j]).1
              case Failure(_) => true
              case Success(ms) => !HasStop(ms)
    {
      ReceivePrefix(c, server, arrivals, j);
      NoEarlyStop(c, sessionID, streamID, metadata, frames, j);
    }
  }

  /** Encrypting a recording, decrypting it and assembling it gives back the frames; capturing it for diagnosis,
      decoding the captured WAV and splitting gives back the audio. */
  lemma RecordingRoundTrip(c: Codec, client: SessionState, server: SessionState, sessionID: string, streamID: string,
                           metadata: AudioMetadata, frames: seq<seq<byte>>, stamps: seq<Stamp>, size: int)
    requires Faithful(c) && ValidMetadata(metadata) && |stamps| == |frames| + 2
    requires CanCarry(client, server, stamps) && |Flatten(frames)| < TWO_32
    ensures var arrivals := SealAll(c, client, Recording(c, sessionID, streamID, metadata, frames), stamps);
            && Assembled(c, server, arrivals).1 == Success((metadata, frames))
            && var captured := Capture.CaptureAll(c, true, server, NOTHING_CAPTURED, arrivals).2;
               && captured.Success? && captured.value.Some?
               && captured.value.value.frameCount == |frames|
               && DecodeWav(captured.value.value.wav) == Success(Flatten(frames))
    ensures Flatten(Split(Flatten(frames), FrameSize(size))) == Flatten(frames)
    ensures Split(Flatten(frames), FrameSize(size)) == frames <==> Framed(frames, FrameSize(size))
  {
    var ms := Recording(c, sessionID, streamID, metadata, frames);
    var arrivals := SealAll(c, client, ms, stamps);
    AllArrive(c, client, server, ms, stamps);
    RecordingInLanguage(c, sessionID, streamID, metadata, frames);
    BatchLanguage(c, server, arrivals, metadata, frames);
    RecordingStopsOnlyLast(c, server, arrivals, sessionID, streamID, metadata, frames);
    Capture.CaptureAgrees(c, true, server, NOTHING_CAPTURED, arrivals, metadata, frames);
    var tail := Tail(c, sessionID, streamID, frames, 0);
    assert ms[|ms| - 1] == tail[|tail| - 1];
    WavRoundTrip(Flatten(frames), metadata);
    SplitIsFramed(Flatten(frames), FrameSize(size));
    SplitIsUnique(frames, FrameSize(size));
    hide SealAll, CanCarry, Assembled, StopsOnlyLast, InLanguage, Framed, DecodeWav, EncodeWav;
  }

  /** However the microphone's audio was chunked, the frames the phone accumulates come back from the captured WAV
      exactly, and their bytes are the audio followed by less than a frame of silence. */
  lemma FromMicrophone(c: Codec, client: SessionState, server: SessionState, sessionID: string, streamID: string,
                       metadata: AudioMetadata, chunks: seq<seq<byte>>, stamps: seq<Stamp>)
    requires Faithful(c) && ValidMetadata(metadata)
    requires |stamps| == |FeedAndFlush(chunks, DEFAULT_FRAME_SIZE)| + 2 && CanCarry(client, server, stamps)
    requires |Flatten(FeedAndFlush(chunks, DEFAULT_FRAME_SIZE))| < TWO_32
    ensures var frames := FeedAndFlush(chunks, DEFAULT_FRAME_SIZE);
            var arrivals := SealAll(c, client, Recording(c, sessionID, streamID, metadata, frames), stamps);
            var captured := Capture.CaptureAll(c, true, server, NOTHING_CAPTURED, arrivals).2;
            && captured.Success? && captured.value.Some?
            && var pcm := DecodeWav(captured.value.value.wav);
               && pcm.Success?
               && Split(pcm.value, DEFAULT_FRAME_SIZE) == frames
               && Flatten(chunks) <= pcm.value
               && |pcm.value| < |Flatten(chunks)| + DEFAULT_FRAME_SIZE
               && pcm.value[|Flatten(chunks)|..] == Zeros(|pcm.value| - |Flatten(chunks)|)
  {
    hide CanCarry, SealAll, FeedAndFlush, Framed, DecodeWav, Split, Flatten, Recording, Capture.CaptureAll, Zeros;
    hide Faithful, Assembled;
    assert FrameSize(0) == DEFAULT_FRAME_SIZE;
    var frames := FeedAndFlush(chunks, DEFAULT_FRAME_SIZE);
    RecordingRoundTrip(c, client, server, sessionID, streamID, metadata, frames, stamps, 0);
    FlushedIsFramed(chunks, DEFAULT_FRAME_SIZE);
  }

  lemma {:induction false} FullFrames(s: seq<byte>, size: nat)
    requires size > 0
    ensures forall f :: f in Full(s, size) ==> |f| == size
  {
    if |s| >= size {
      FullFrames(s[size..], size);
    }
  }

  lemma FlushedIsFramed(chunks: seq<seq<byte>>, size: nat)
    requires size > 0
    ensures var frames := FeedAndFlush(chunks, size);
            var pcm := Flatten(frames);
            && Framed(frames, size) && Flatten(chunks) <= pcm
            && |pcm| < |Flatten(chunks)| + size
            && pcm[|Flatten(chunks)|..] == Zeros(|pcm| - |Flatten(chunks)|)
  {
    FeedIsWhole(chunks, size);
    FullAndRestAreSplit(Flatten(chunks), size);
    FullFrames(Flatten(chunks), size);
    FlushOne(Full(Flatten(chunks), size), Rest(Flatten(chunks), size), size);
    hide Full, Rest, Feed, Framed;
  }

  // What flushing `rest` adds after full frames have been emitted.
  lemma FlushOne(emitted: seq<seq<byte>>, rest: seq<byte>, size: nat)
    requires |rest| < size && forall f :: f in emitted ==> |f| == size
    ensures var frames := if rest == [] then emitted else emitted + [Padded(rest, size)];
            var pcm, whole := Flatten(frames), Flatten(emitted) + rest;
            && Framed(frames, size) && whole <= pcm
            && |pcm| < |whole| + size
            && pcm[|whole|..] == Zeros(|pcm| - |whole|)
  {
    var whole := Flatten(emitted) + rest;
    if rest == [] {
      assert whole == Flatten(emitted);
    } else {
      FlattenPadded(emitted, rest, size);
      var silence := Zeros(size - |rest|);
      assert (whole + silence)[|whole|..] == silence;
      hide Flatten;
    }
  }

  lemma FlattenPadded(emitted: seq<seq<byte>>, rest: seq<byte>, size: nat)
    requires |rest| < size
    ensures Flatten(emitted + [Padded(rest, size)]) == Flatten(emitted) + rest + Zeros(size - |rest|)
  {
    var last := Padded(rest, size);
    FlattenAppend(emitted, [last]);
    assert Flatten([last]) == last + Flatten([last][1..]);
    assert last + [] == last;
    Reassociate(Flatten(emitted), rest, Zeros(size - |rest|));
  }

  /** From a PIN to the audio: whatever keys and names are used, a client that pairs with the announced PIN and then
      records gets every frame through, and the captured WAV decodes to exactly the audio recorded. */
  lemma FromPinToAudio(m: Pairing.ManagerState, start: Handshake.StartResponse, phone: Agreement.Client,
                       at: Pairing.CompleteClock, timeout: int, now: int,
                       c: Codec, sessionID: string, streamID: string, metadata: AudioMetadata,
                       frames: seq<seq<byte>>, stamps: seq<Stamp>)
    requires Agreement.Ready(m, start, at.now) && timeout > 0
    requires Faithful(c) && ValidMetadata(metadata)
    requires |stamps| == |frames| + 2 <= TWO_64 && |Flatten(frames)| < TWO_32
    requires Prompt(now, at.sessionStart, timeout, m.config.inactivityTimeout, stamps)
    ensures Agreement.RequestOf(m, start, phone, start.pin).Some?
    ensures var paired := Pairing.CompleteStep(m, Agreement.RequestOf(m, start, phone, start.pin).value, at).1;
            && paired.Success?
            && var client := Handshake.NewClientSession(start, paired.value.answer, phone.identity, phone.ephemeral,
                                                        timeout, now);
               && client.Some?
               && var arrivals := SealAll(c, client.value, Recording(c, sessionID, streamID, metadata, frames), stamps);
                  && Assembled(c, paired.value.session, arrivals).1 == Success((metadata, frames))
                  && var captured := Capture.CaptureAll(c, true, paired.value.session, NOTHING_CAPTURED, arrivals).2;
                     && captured.Success? && captured.value.Some?
                     && DecodeWav(captured.value.value.wav) == Success(Flatten(frames))
  {
    Agreement.PairingAgreement(m, start, phone, start.pin, at, timeout, now);
    SessionsAsConfigured(m, start, phone, at, timeout, now);
    var paired := Pairing.CompleteStep(m, Agreement.RequestOf(m, start, phone, start.pin).value, at).1;
    var client := Handshake.NewClientSession(start, paired.value.answer, phone.identity, phone.ephemeral, timeout, now);
    hide Pairing.CompleteStep, Handshake.NewClientSession, Handshake.NewPairingRequest;
    LinkedCanCarry(client.value, paired.value.session, stamps);
    RecordingRoundTrip(c, client.value, paired.value.session, sessionID, streamID, metadata, frames, stamps, 0);
    hide CanCarry, SealAll, Recording, Assembled, DecodeWav, Prompt, Agreement.Ready;
  }

  /** The same after a resume: a phone that holds a trusted identity resumes and then records, and every frame gets
      through. */
  lemma FromResumeToAudio(m: Pairing.ManagerState, phone: Agreement.Client, pairingID: Octets, at: Pairing.ResumeClock,
                          timeout: int, now: int, c: Codec, sessionID: string, streamID: string,
                          metadata: AudioMetadata, frames: seq<seq<byte>>, stamps: seq<Stamp>)
    requires Pairing.ValidConfig(m.config) && Agreement.GoodStore(m.store) && |m.random| >= 3 * KEY_SIZE && timeout > 0
    requires PairingRuns.KeyedByID(m.store) && phone.deviceID in m.store.trusted
    requires m.store.trusted[phone.deviceID].identityPublicKey == PublicOf(phone.identity)
    requires Faithful(c) && ValidMetadata(metadata)
    requires |stamps| == |frames| + 2 <= TWO_64 && |Flatten(frames)| < TWO_32
    requires Prompt(now, at.sessionStart, timeout, m.config.inactivityTimeout, stamps)
    ensures var resumed := Pairing.ResumeStep(m, ResumeOf(phone, pairingID), at).1;
            && resumed.Success?
            && var client := Handshake.NewResumedClientSession(pairingID, resumed.value.answer, phone.identity,
                                                               phone.ephemeral, timeout, now);
               && client.Some?
               && var arrivals := SealAll(c, client.value, Recording(c, sessionID, streamID, metadata, frames), stamps);
                  && Assembled(c, resumed.value.session, arrivals).1 == Success((metadata, frames))
                  && var captured := Capture.CaptureAll(c, true, resumed.value.session, NOTHING_CAPTURED, arrivals).2;
                     && captured.Success? && captured.value.Some?
                     && DecodeWav(captured.value.value.wav) == Success(Flatten(frames))
  {
    Agreement.ResumeAgreement(m, phone, pairingID, at, timeout, now);
    ResumedAsConfigured(m, phone, pairingID, at, timeout, now);
    var resumed := Pairing.ResumeStep(m, ResumeOf(phone, pairingID), at).1;
    var client := Handshake.NewResumedClientSession(pairingID, resumed.value.answer, phone.identity, phone.ephemeral,
                                                    timeout, now);
    hide Pairing.ResumeStep, Handshake.NewResumedClientSession;
    LinkedCanCarry(client.value, resumed.value.session, stamps);
    RecordingRoundTrip(c, client.value, resumed.value.session, sessionID, streamID, metadata, frames, stamps, 0);
    hide CanCarry, SealAll, Recording, Assembled, DecodeWav, Prompt;
  }

  function ResumeOf(phone: Agreement.Client, pairingID: Octets): Handshake.ResumeRequest {
    Handshake.ResumeRequest(pairingID, phone.deviceID, phone.deviceName,
                            PublicOf(phone.identity), PublicOf(phone.ephemeral))
  }

  /** The two sessions of a resume start at the times and with the timeouts they were given. */
  lemma ResumedAsConfigured(m: Pairing.ManagerState, phone: Agreement.Client, pairingID: Octets,
                            at: Pairing.ResumeClock, timeout: int, now: int)
    ensures var resumed := Pairing.ResumeStep(m, ResumeOf(phone, pairingID), at).1;
            resumed.Success? ==>
              && resumed.value.session.lastActivity == at.sessionStart
              && resumed.value.session.timeout == m.config.inactivityTimeout
              && var client := Handshake.NewResumedClientSession(pairingID, resumed.value.answer, phone.identity,
                                                                 phone.ephemeral, timeout, now);
                 client.Some? ==> client.value.lastActivity == now && client.value.timeout == timeout
  {
    hide Handshake.ComputeResumeConfirmation, Handshake.DeriveSessionKeys, Handshake.Secrets;
    hide Handshake.ResumeTranscript;
  }

  lemma LinkedCanCarry(client: SessionState, server: SessionState, stamps: seq<Stamp>)
    requires Agreement.LinkedSessions(client, server) && |stamps| <= TWO_64
    requires Prompt(client.lastActivity, server.lastActivity, client.timeout, server.timeout, stamps)
    ensures CanCarry(client, server, stamps)
  {
    assert client in [client, server] && server in [client, server];
    hide Prompt;
  }

  /** The two sessions start at the times and with the timeouts they were given. */
  lemma SessionsAsConfigured(m: Pairing.ManagerState, start: Handshake.StartResponse, phone: Agreement.Client,
                             at: Pairing.CompleteClock, timeout: int, now: int)
    requires Agreement.RequestOf(m, start, phone, start.pin).Some?
    ensures match Pairing.CompleteStep(m, Agreement.RequestOf(m, start, phone, start.pin).value, at).1
            case Failure(_) => true
            case Success(grant) =>
              && grant.session.lastActivity == at.sessionStart && grant.session.timeout == m.config.inactivityTimeout
              && match Handshake.NewClientSession(start, grant.answer, phone.identity, phone.ephemeral, timeout, now)
                 case None => true
                 case Some(client) => client.lastActivity == now && client.timeout == timeout
  {
    hide Handshake.ComputePairingConfirmation, Handshake.DeriveSessionKeys, Handshake.Secrets;
    hide Handshake.NewPairingRequest;
  }
}
