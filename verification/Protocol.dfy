/** The plaintext messages, and the text encodings they travel in, which are given as inverse pairs. */
module Protocol {
  import opened Wrappers
  import opened Bytes
  import opened Symbolic

  datatype AudioMetadata = AudioMetadata(
    sampleRate: int,
    channels: int,
    encoding: string,
    frameDurationMS: int,
    language: string)

  datatype MetadataError = UnsupportedEncoding | InvalidAudioMetadata

  const PCM_S16LE: string := "pcm_s16le"

  datatype Message =
    | ClientHello(clientName: string, sessionID: string)
    | ServerHello(runtimeName: string, ready: bool)
    | PairingConfirm(sessionID: string, pairingID: string)
    | SessionResume(sessionID: string)
    | AudioStart(sessionID: string, streamID: string, metadata: AudioMetadata)
    | AudioFrame(sessionID: string, streamID: string, sequence: int, payload64: string)
    | AudioStop(sessionID: string, streamID: string, lastSequence: int)
    | AudioCancel(sessionID: string, streamID: string, reason: string)
    | KeyPress(sessionID: string, key: string, modifiers: seq<string>)
    | ASRPartial(sessionID: string, streamID: string, segmentIndex: int, text: string)
    | ASRFinal(sessionID: string, streamID: string, segmentIndex: int, text: string)
    | TextFinal(sessionID: string, streamID: string, text: string)
    | ErrorMessage(code: string, message: string)
    | Ping(nonce: string)

  function ValidateAudioMetadata(m: AudioMetadata): Option<MetadataError> {
    if m.encoding != PCM_S16LE then Some(UnsupportedEncoding)
    else if m.sampleRate != 16000 || m.channels != 1 || m.frameDurationMS != 20 || m.language == "" then
      Some(InvalidAudioMetadata)
    else None
  }

  predicate ValidMetadata(m: AudioMetadata) {
    ValidateAudioMetadata(m).None?
  }

  /** The JSON and base64 codecs. */
  datatype Codec = Codec(
    encode: Message -> Octets,
    decode: Octets -> Option<Message>,
    encode64: seq<byte> -> string,
    decode64: string -> Option<seq<byte>>)

  ghost predicate Faithful(c: Codec) {
    && (forall m :: c.decode(c.encode(m)) == Some(m))
    && (forall b :: c.decode64(c.encode64(b)) == Some(b))
  }

  /** Valid metadata is 16 kHz mono 16-bit PCM in 20 ms frames with a language; another encoding is its own error. */
  lemma ValidationErrors(m: AudioMetadata)
    ensures ValidMetadata(m) <==>
              && m.encoding == "pcm_s16le" && m.sampleRate == 16000 && m.channels == 1 && m.frameDurationMS == 20
              && m.language != ""
    ensures ValidateAudioMetadata(m) == Some(UnsupportedEncoding) <==> m.encoding != "pcm_s16le"
    ensures ValidateAudioMetadata(m) == Some(InvalidAudioMetadata) <==>
              m.encoding == "pcm_s16le" && !ValidMetadata(m)
  {
  }
}
