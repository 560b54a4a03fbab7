/** Assembling a decrypted audio stream: all messages at once, one at a time into a recogniser, and for debugging. */
module Assembly {
  import opened Wrappers
  import opened Bytes
  import opened Session
  import opened Protocol
  import opened Wav

  /** An encrypted message with the clock readings of the call that decrypts it. */
  datatype Arrival = Arrival(message: EncryptedMessage, at: Clock)

  datatype StreamError =
    | ErrDecrypt(cause: SessionError)
    | ErrDecode
    | ErrDuplicateStart
    | ErrMetadata(reason: MetadataError)
    | ErrStartRequired
    | ErrStreamID
    | ErrSequence
    | ErrPayload
    | ErrLastSequence
    | ErrUnexpectedType
    | ErrStopRequired
    | ErrRecogniser

  /** Decrypting and decoding one message. */
  function Receive(c: Codec, s: SessionState, a: Arrival): (SessionState, Result<Message, StreamError>) {
    var (s', r) := DecryptStep(s, a.message, a.at);
    match r
    case Failure(e) => (s', Failure(ErrDecrypt(e)))
    case Success(plaintext) =>
      match c.decode(plaintext)
      case None => (s', Failure(ErrDecode))
      case Some(m) => (s', Success(m))
  }

  method DecryptIOSAudioMessage(c: Codec, machine: StateMachine, a: Arrival) returns (r: Result<Message, StreamError>)
    modifies machine
    ensures (machine.Contents(), r) == Receive(c, old(machine.Contents()), a)
  {
    var plaintext := machine.Decrypt(a.message, a.at);
    if plaintext.Failure? {
      return Failure(ErrDecrypt(plaintext.error));
    }
    var decoded := c.decode(plaintext.value);
    if decoded.None? {
      return Failure(ErrDecode);
    }
    r := Success(decoded.value);
  }

  // ---------- The batch assembler ----------

  datatype Assembler = Assembler(
    metadata: AudioMetadata,
    streamID: string,
    frames: seq<seq<byte>>,
    started: bool,
    stopped: bool)

  const NO_METADATA: AudioMetadata := AudioMetadata(0, 0, "", 0, "")
  const EMPTY: Assembler := Assembler(NO_METADATA, "", [], false, false)

  function Assemble(c: Codec, s: Assembler, m: Message): Result<Assembler, StreamError> {
    match m
    case AudioStart(_, streamID, metadata) =>
      if s.started then Failure(ErrDuplicateStart)
      else if ValidateAudioMetadata(metadata).Some? then Failure(ErrMetadata(ValidateAudioMetadata(metadata).value))
      else Success(s.(metadata := metadata, streamID := streamID, started := true))
    case AudioFrame(_, streamID, sequence, payload64) =>
      if !s.started then Failure(ErrStartRequired)
      else if streamID != s.streamID then Failure(ErrStreamID)
      else if sequence != |s.frames| + 1 then Failure(ErrSequence)
      else if c.decode64(payload64).None? then Failure(ErrPayload)
      else Success(s.(frames := s.frames + [c.decode64(payload64).value]))
    case AudioStop(_, streamID, _) =>
      if !s.started then Failure(ErrStartRequired)
      else if streamID != s.streamID then Failure(ErrStreamID)
      else Success(s.(stopped := true))
    case _ => Failure(ErrUnexpectedType)
  }

  /** Receiving and assembling one message after another up to the first error. */
  function Batch(c: Codec, s: SessionState, a: Assembler, arrivals: seq<Arrival>)
    : (SessionState, Result<Assembler, StreamError>)
    decreases |arrivals|
  {
    if arrivals == [] then (s, Success(a))
    else
      match Receive(c, s, arrivals[0])
      case (s', Failure(e)) => (s', Failure(e))
      case (s', Success(m)) =>
        match Assemble(c, a, m)
        case Failure(e) => (s', Failure(e))
        case Success(a') => Batch(c, s', a', arrivals[1..])
  }

  function Assembled(c: Codec, s: SessionState, arrivals: seq<Arrival>)
    : (SessionState, Result<(AudioMetadata, seq<seq<byte>>), StreamError>)
  {
    match Batch(c, s, EMPTY, arrivals)
    case (s', Failure(e)) => (s', Failure(e))
    case (s', Success(a)) =>
      if !a.stopped then (s', Failure(ErrStopRequired)) else (s', Success((a.metadata, a.frames)))
  }

  method DecryptIOSAudioMessages(c: Codec, machine: StateMachine, arrivals: seq<Arrival>)
    returns (r: Result<(AudioMetadata, seq<seq<byte>>), StreamError>)
    modifies machine
    ensures (machine.Contents(), r) == Assembled(c, old(machine.Contents()), arrivals)
  {
    var metadata := NO_METADATA;
    var streamID := "";
    var frames: seq<seq<byte>> := [];
    var started, stopped := false, false;
    for index := 0 to |arrivals|
      invariant Batch(c, old(machine.Contents()), EMPTY, arrivals)
                == Batch(c, machine.Contents(), Assembler(metadata, streamID, frames, started, stopped),
                         arrivals[index..])
    {
      assert arrivals[index..][0] == arrivals[index] && arrivals[index..][1..] == arrivals[index + 1..];
      var decoded := DecryptIOSAudioMessage(c, machine, arrivals[index]);
      if decoded.Failure? {
        return Failure(decoded.error);
      }
      match decoded.value {
        case AudioStart(_, id, audio) =>
          if started {
            return Failure(ErrDuplicateStart);
          }
          var invalid := ValidateAudioMetadata(audio);
          if invalid.Some? {
            return Failure(ErrMetadata(invalid.value));
          }
          metadata := audio;
          streamID := id;
          started := true;
        case AudioFrame(_, id, sequence, payload64) =>
          if !started {
            return Failure(ErrStartRequired);
          }
          if id != streamID {
            return Failure(ErrStreamID);
          }
          if sequence != |frames| + 1 {
            return Failure(ErrSequence);
          }
          var payload := c.decode64(payload64);
          if payload.None? {
            return Failure(ErrPayload);
          }
          frames := frames + [payload.value];
        case AudioStop(_, id, _) =>
          if !started {
            return Failure(ErrStartRequired);
          }
          if id != streamID {
            return Failure(ErrStreamID);
          }
          stopped := true;
        case _ =>
          return Failure(ErrUnexpectedType);
      }
    }
    assert arrivals[|arrivals|..] == [];
    if !stopped {
      return Failure(ErrStopRequired);
    }
    r := Success((metadata, frames));
  }

  // ---------- The recogniser, and the streaming loop that feeds it ----------

  /** An arbitrary deterministic streaming recogniser. */
  datatype Recogniser<!S, !R> = Recogniser(
    newStream: AudioMetadata -> Option<S>,
    acceptFrame: (S, seq<byte>) -> Option<S>,
    finish: S -> Option<R>)

  function AcceptAll<S, R>(asr: Recogniser<S, R>, stream: S, frames: seq<seq<byte>>): Option<S> {
    if frames == [] then Some(stream)
    else
      match asr.acceptFrame(stream, frames[0])
      case None => None
      case Some(next) => AcceptAll(asr, next, frames[1..])
  }

  /** `StreamingBatchAdapter.Transcribe`. */
  function Transcription<S, R>(asr: Recogniser<S, R>, metadata: AudioMetadata, frames: seq<seq<byte>>): Option<R> {
    match asr.newStream(metadata)
    case None => None
    case Some(stream) =>
      match AcceptAll(asr, stream, frames)
      case None => None
      case Some(end) => asr.finish(end)
  }

  method Transcribe<S, R>(asr: Recogniser<S, R>, metadata: AudioMetadata, frames: seq<seq<byte>>)
    returns (r: Option<R>)
    ensures r == Transcription(asr, metadata, frames)
  {
    var stream := asr.newStream(metadata);
    if stream.None? {
      return None;
    }
    for i := 0 to |frames|
      invariant stream.Some?
      invariant AcceptAll(asr, asr.newStream(metadata).value, frames) == AcceptAll(asr, stream.value, frames[i..])
    {
      assert frames[i..][0] == frames[i] && frames[i..][1..] == frames[i + 1..];
      stream := asr.acceptFrame(stream.value, frames[i]);
      if stream.None? {
        return None;
      }
    }
    assert frames[|frames|..] == [];
    r := asr.finish(stream.value);
  }

  /** How the streaming loop ends.  `Starved` is a connection that closes, or fails, before the stop. */
  datatype Ending<R> =
    | Finished(result: R)
    | KeyPressed(key: string, modifiers: seq<string>)
    | Failed(error: StreamError)
    | Starved

  /** The loop's variables; `frames` is only counted there. */
  datatype Streaming<S> = Idle | Open(streamID: string, frames: nat, stream: S)

  function StreamFrom<S, R>(c: Codec, asr: Recogniser<S, R>, s: SessionState, st: Streaming<S>, arrivals: seq<Arrival>)
    : (SessionState, Ending<R>)
    decreases |arrivals|
  {
    if arrivals == [] then (s, Starved)
    else
      var (s', r) := Receive(c, s, arrivals[0]);
      match r
      case Failure(e) => (s', Failed(e))
      case Success(m) =>
        match m
        case KeyPress(_, key, modifiers) => (s', KeyPressed(key, modifiers))
        case AudioStart(_, streamID, metadata) =>
          if st.Open? then (s', Failed(ErrDuplicateStart))
          else if ValidateAudioMetadata(metadata).Some? then
            (s', Failed(ErrMetadata(ValidateAudioMetadata(metadata).value)))
          else if asr.newStream(metadata).None? then (s', Failed(ErrRecogniser))
          else StreamFrom(c, asr, s', Open(streamID, 0, asr.newStream(metadata).value), arrivals[1..])
        case AudioFrame(_, streamID, sequence, payload64) =>
          if st.Idle? then (s', Failed(ErrStartRequired))
          else if streamID != st.streamID then (s', Failed(ErrStreamID))
          else if sequence != st.frames + 1 then (s', Failed(ErrSequence))
          else if c.decode64(payload64).None? then (s', Failed(ErrPayload))
          else
            var next := asr.acceptFrame(st.stream, c.decode64(payload64).value);
            if next.None? then (s', Failed(ErrRecogniser))
            else StreamFrom(c, asr, s', Open(st.streamID, st.frames + 1, next.value), arrivals[1..])
        case AudioStop(_, streamID, _) =>
          if st.Idle? then (s', Failed(ErrStartRequired))
          else if streamID != st.streamID then (s', Failed(ErrStreamID))
          else if asr.finish(st.stream).None? then (s', Failed(ErrRecogniser))
          else (s', Finished(asr.finish(st.stream).value))
        case _ => (s', Failed(ErrUnexpectedType))
  }

  /** A recogniser whose result goes through a further stage: here, the clean-up of the transcript. */
  function Prepared<S, R, T>(asr: Recogniser<S, R>, prepare: R -> Option<T>): Recogniser<S, T> {
    Recogniser(
      asr.newStream,
      asr.acceptFrame,
      s => match asr.finish(s) case None => None case Some(r) => prepare(r))
  }

  /** Why no further message comes. */
  datatype Silence = PeerClosed | ReadFails | Malformed

  // `Processing` also stands for the codes that the recogniser and the key press injector bring with their errors.
  datatype ReplyCode =
    | ReplayedSequence
    | OutOfOrderSequence
    | SessionExpired
    | SessionForbidden
    | ReadFailed
    | InvalidMessage
    | Processing

  datatype Reply<T> = Answered(result: T) | Acknowledged | Refused(code: ReplyCode)

  function CodeOf(e: StreamError): ReplyCode {
    match e
    case ErrDecrypt(ErrReplay) => ReplayedSequence
    case ErrDecrypt(ErrOutOfOrder) => OutOfOrderSequence
    case ErrDecrypt(ErrExpired) => SessionExpired
    case ErrDecrypt(ErrForgotten) => SessionForbidden
    case _ => Processing
  }

  /** What the phone is told; `pressed` is whether a key press was injected. */
  function ReplyTo<T>(ending: Ending<T>, silence: Silence, pressed: (string, seq<string>) -> bool): Option<Reply<T>> {
    match ending
    case Finished(result) => Some(Answered(result))
    case KeyPressed(key, modifiers) => Some(if pressed(key, modifiers) then Acknowledged else Refused(Processing))
    case Failed(e) => Some(Refused(CodeOf(e)))
    case Starved =>
      match silence
      case PeerClosed => None
      case ReadFails => Some(Refused(ReadFailed))
      case Malformed => Some(Refused(InvalidMessage))
  }

  method FinishAndPrepare<S, R, T>(asr: Recogniser<S, R>, prepare: R -> Option<T>, stream: S) returns (r: Option<T>)
    ensures r == Prepared(asr, prepare).finish(stream)
  {
    var result := asr.finish(stream);
    if result.None? {
      return None;
    }
    r := prepare(result.value);
  }

  // The loop over the messages, up to what it answers.
  method StreamLoop<S, R, T>(c: Codec, asr: Recogniser<S, R>, prepare: R -> Option<T>, machine: StateMachine,
                             arrivals: seq<Arrival>)
    returns (ending: Ending<T>)
    modifies machine
    ensures (machine.Contents(), ending)
            == StreamFrom(c, Prepared(asr, prepare), old(machine.Contents()), Idle, arrivals)
  {
    ghost var whole := Prepared(asr, prepare);
    assert whole.newStream == asr.newStream && whole.acceptFrame == asr.acceptFrame;
    ghost var goal := StreamFrom(c, whole, machine.Contents(), Idle, arrivals);
    var started := false;
    var streamID := "";
    var frames: nat := 0;
    var stream: Option<S> := None;
    for index := 0 to |arrivals|
      invariant started <==> stream.Some?
      invariant goal
                == StreamFrom(c, whole, machine.Contents(),
                              if started then Open(streamID, frames, stream.value) else Idle, arrivals[index..])
      invariant !started ==> frames == 0
    {
      assert arrivals[index..][0] == arrivals[index] && arrivals[index..][1..] == arrivals[index + 1..];
      var decoded := DecryptIOSAudioMessage(c, machine, arrivals[index]);
      if decoded.Failure? {
        return Failed(decoded.error);
      }
      match decoded.value {
        case KeyPress(_, key, modifiers) =>
          return KeyPressed(key, modifiers);
        case AudioStart(_, id, metadata) =>
          if started {
            return Failed(ErrDuplicateStart);
          }
          var invalid := ValidateAudioMetadata(metadata);
          if invalid.Some? {
            return Failed(ErrMetadata(invalid.value));
          }
          streamID := id;
          stream := asr.newStream(metadata);
          if stream.None? {
            return Failed(ErrRecogniser);
          }
          started := true;
        case AudioFrame(_, id, sequence, payload64) =>
          if !started || stream.None? {
            return Failed(ErrStartRequired);
          }
          if id != streamID {
            return Failed(ErrStreamID);
          }
          if sequence != frames + 1 {
            return Failed(ErrSequence);
          }
          var frame := c.decode64(payload64);
          if frame.None? {
            return Failed(ErrPayload);
          }
          frames := frames + 1;
          stream := asr.acceptFrame(stream.value, frame.value);
          if stream.None? {
            return Failed(ErrRecogniser);
          }
        case AudioStop(_, id, _) =>
          if !started || stream.None? {
            return Failed(ErrStartRequired);
          }
          if id != streamID {
            return Failed(ErrStreamID);
          }
          var result := FinishAndPrepare(asr, prepare, stream.value);
          if result.None? {
            return Failed(ErrRecogniser);
          }
          return Finished(result.value);
        case _ =>
          return Failed(ErrUnexpectedType);
      }
    }
    assert arrivals[|arrivals|..] == [];
    ending := Starved;
  }

  method HandleIOSAudioStream<S, R, T>(c: Codec, asr: Recogniser<S, R>, prepare: R -> Option<T>,
                                       pressed: (string, seq<string>) -> bool, machine: StateMachine,
                                       arrivals: seq<Arrival>, silence: Silence)
    returns (ending: Ending<T>, reply: Option<Reply<T>>)
    modifies machine
    ensures (machine.Contents(), ending)
            == StreamFrom(c, Prepared(asr, prepare), old(machine.Contents()), Idle, arrivals)
    ensures reply == ReplyTo(ending, silence, pressed)
  {
    ending := StreamLoop(c, asr, prepare, machine, arrivals);
    reply := ReplyTo(ending, silence, pressed);
  }

  // ---------- The diagnostic capture ----------

  datatype CaptureState = CaptureState(
    metadata: AudioMetadata,
    streamID: string,
    started: bool,
    lastSeq: int,
    frameCount: int,
    pcm: seq<byte>)

  datatype CaptureResult = CaptureResult(metadata: AudioMetadata, streamID: string, frameCount: int, wav: seq<byte>)

  /** One decrypted message: the new state and, at a stop, the result. */
  function CaptureStep(c: Codec, enabled: bool, s: CaptureState, m: Message)
    : (CaptureState, Result<Option<CaptureResult>, StreamError>)
  {
    match m
    case AudioStart(_, streamID, metadata) =>
      if ValidateAudioMetadata(metadata).Some? then (s, Failure(ErrMetadata(ValidateAudioMetadata(metadata).value)))
      else (CaptureState(metadata, streamID, true, 0, 0, []), Success(None))
    case AudioFrame(_, streamID, sequence, payload64) =>
      if !s.started then (s, Failure(ErrStartRequired))
      else if streamID != s.streamID then (s, Failure(ErrStreamID))
      else if sequence != s.lastSeq + 1 then (s, Failure(ErrSequence))
      else if c.decode64(payload64).None? then (s, Failure(ErrPayload))
      else
        (s.(pcm := s.pcm + (if enabled then c.decode64(payload64).value else []), lastSeq := sequence,
            frameCount := s.frameCount + 1),
         Success(None))
    case AudioStop(_, streamID, lastSequence) =>
      if !s.started then (s, Failure(ErrStartRequired))
      else if streamID != s.streamID then (s, Failure(ErrStreamID))
      else if lastSequence != s.lastSeq then (s, Failure(ErrLastSequence))
      else
        (s, Success(Some(CaptureResult(s.metadata, s.streamID, s.frameCount,
                                       if enabled then EncodeWav(s.pcm, s.metadata) else []))))
    case _ => (s, Success(None))
  }

  function CaptureReceived(c: Codec, enabled: bool, session: SessionState, s: CaptureState, a: Arrival)
    : (SessionState, CaptureState, Result<Option<CaptureResult>, StreamError>)
  {
    match Receive(c, session, a)
    case (session', Failure(e)) => (session', s, Failure(e))
    case (session', Success(m)) =>
      var (s', r) := CaptureStep(c, enabled, s, m);
      (session', s', r)
  }

  const NOTHING_CAPTURED: CaptureState := CaptureState(NO_METADATA, "", false, 0, 0, [])

  class DiagnosticAudioCapture {
    const enabled: bool
    var metadata: AudioMetadata
    var streamID: string
    var started: bool
    var lastSeq: int
    var frameCount: int
    var pcm: seq<byte>

    function Contents(): CaptureState
      reads this
    {
      CaptureState(metadata, streamID, started, lastSeq, frameCount, pcm)
    }

    constructor (enabled: bool)
      ensures this.enabled == enabled && Contents() == NOTHING_CAPTURED
    {
      this.enabled := enabled;
      metadata := NO_METADATA;
      streamID := "";
      started := false;
      lastSeq := 0;
      frameCount := 0;
      pcm := [];
    }

    method CaptureEncryptedMessage(c: Codec, machine: StateMachine, a: Arrival)
      returns (r: Result<Option<CaptureResult>, StreamError>)
      modifies this, machine
      ensures (machine.Contents(), Contents(), r)
              == CaptureReceived(c, enabled, old(machine.Contents()), old(Contents()), a)
    {
      var decoded := DecryptIOSAudioMessage(c, machine, a);
      if decoded.Failure? {
        return Failure(decoded.error);
      }
      match decoded.value {
        case AudioStart(_, id, audio) =>
          var invalid := ValidateAudioMetadata(audio);
          if invalid.Some? {
            return Failure(ErrMetadata(invalid.value));
          }
          metadata := audio;
          streamID := id;
          started := true;
          lastSeq := 0;
          frameCount := 0;
          pcm := [];
          return Success(None);
        case AudioFrame(_, id, sequence, payload64) =>
          if !started {
            return Failure(ErrStartRequired);
          }
          if id != streamID {
            return Failure(ErrStreamID);
          }
          if sequence != lastSeq + 1 {
            return Failure(ErrSequence);
          }
          var payload := c.decode64(payload64);
          if payload.None? {
            return Failure(ErrPayload);
          }
          if enabled {
            pcm := pcm + payload.value;
          } else {
            assert pcm + [] == pcm;
          }
          lastSeq := sequence;
          frameCount := frameCount + 1;
          return Success(None);
        case AudioStop(_, id, lastSequence) =>
          if !started {
            return Failure(ErrStartRequired);
          }
          if id != streamID {
            return Failure(ErrStreamID);
          }
          if lastSequence != lastSeq {
            return Failure(ErrLastSequence);
          }
          var wav: seq<byte> := [];
          if enabled {
            wav := EncodePCM16WAV(pcm, metadata);
          }
          return Success(Some(CaptureResult(metadata, streamID, frameCount, wav)));
        case _ =>
          return Success(None);
      }
    }
  }
}
