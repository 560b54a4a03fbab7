# Talka: a verified model of its protocols

Talka is a local dictation system: a phone records speech, sends it over an encrypted session to a service on a Mac,
and the service transcribes it. This project models the stateful protocols that make up that path and proves what they
are for.

Everything that the program updates in place is a class here (`StateMachine`, `Manager`, `FakeStore`, `App`,
`LatencyRecorder`, `DiagnosticAudioCapture`, `PCMFrameAccumulator`, `SecureAudioStreamClient`, `Buffer`, `Reader`,
`Writer`), and every loop is a loop. Each method is proved equal to a specification function of its old state (`DecryptStep`,
`CompleteStep`, `StreamFrom`, `ScanFrom`, and so on), and the theorems are lemmas about those functions and about whole
runs of them.

| file | what it holds |
|---|---|
| `Bytes`, `Streams`, `Wrappers` | integer encodings, a consumed source of bytes, a connection that may fail, option and result types |
| `Symbolic` | cryptography as free terms over concrete octet strings: RFC 7748 section 6.1, RFC 5869 section 2, RFC 8439 section 2.8 |
| `Encoding` | associated data, transcripts and joined secrets, byte by byte, with parsers that invert them |
| `Session` | one endpoint of the sequence-numbered session |
| `Channel` | two linked endpoints and a network that drops, duplicates, delays, reorders, reflects and invents |
| `Network` | that network as a computing party: what it can derive and therefore deliver |
| `Pin`, `Handshake`, `Pairing`, `PairingCalls`, `PairingRuns`, `Agreement` | PIN drawing, key derivation for both roles, the pairing manager, what each of its calls answers, its runs, and the agreement of the two roles |
| `Protocol`, `Assembly`, `AudioStreams`, `Replies`, `Capture`, `CaptureLanguage` | messages; the batch, streaming and diagnostic assemblers; how they agree, what the phone is told, and what the capture accepts |
| `Frames`, `Wav`, `WavInputs`, `WebSocket` | the byte codecs (RFC 6455 sections 5.2 and 5.3 for WebSocket frames) |
| `EndToEnd` | the pieces composed, from the PIN and the microphone to the decoded WAV |
| `StreamClient` | the phone's sequence counter over recordings, key presses and changing sessions |
| `HotSwap` | replacing the audio pipeline while handlers hold references to it |
| `Recorder` | the latency recorder |

## Main results

- **Channel.** For every interleaving of sends, deliveries, expiry checks and invalidations, what each end has accepted
  is a prefix of what the other encrypted, in both directions (`Channel.ChannelSafety`); the next message always gets
  through (`Channel.NextIsAccepted`). `Network` removes the assumption about forging: a network that hears a pairing
  and everything after it, and computes what it likes, delivers nothing that breaks this while it lacks both private
  keys of one of the two pairs (`Network.PairedChannelResists`). After a resume the identity pair alone decides: a
  session is granted to whoever quotes a trusted identity key, and is of no use without the private key
  (`Network.ResumedChannelResists`, `Network.QuotingIsNotEnough`).
- **Handshake.** An honest client is admitted exactly when it uses the announced PIN in time, and then both ends hold
  equal confirmations and direction-swapped keys (`Agreement.PairingAgreement`, `Agreement.ResumeAgreement`). What every
  call of the manager answers, and which random bytes become which key, id and PIN, is in `PairingCalls`.
- **Budget and trust over all runs** of the manager (`PairingRuns`).
- **Assembly.** The exact languages of the batch assembler and of the diagnostic capture, the streaming loop as a
  refinement of the batch assembler (`AudioStreams`, `Capture`, `CaptureLanguage`), and every reply of the streaming
  handler by what the batch path would have said (`Replies`).
- **Pipeline.** From a PIN, or from a resume, to decoded audio, and from arbitrarily chunked microphone input to the same frames
  (`EndToEnd.FromPinToAudio`, `EndToEnd.FromResumeToAudio`, `EndToEnd.FromMicrophone`).
- **Hot swap.** No pipeline is shut down while a handler holds a reference to it, and none is lost
  (`HotSwap.ShutdownIsSafe`, `HotSwap.ReferencesProtect`, `HotSwap.NothingLeaks`).

## Where a property stops holding

Each of these is the exact edge of a theorem: the property holds if and only if the condition does, and what fails
beyond it is proved.

- Sequence numbers are 64-bit and wrap. Safety over all runs of at most `n` messages in each direction holds exactly for
  `n` up to 2^64 (`Channel.SafeIffWithinCounter`); with one more, the second message that bears the number 1 is accepted
  in place of the first (`Channel.WrapBreaksSafety`).
- The two direction keys must differ; otherwise a reflected message is accepted (`Channel.SafeIffKeysDiffer`). The
  derived keys always differ (`Handshake.KeysDetermine`).
- Field lengths are truncated to 32 bits. The encodings decode uniquely exactly when every field is shorter than 2^32
  bytes (`Encoding.LongSecretCollides` gives two lists with one encoding). The associated data of one session is
  injective without that condition.
- The WAV encoder truncates the data size to 32 bits: decoding undoes encoding exactly below 2^32 bytes
  (`Wav.WavRoundTrip`; `Wav.LongestIsLost` is the shortest loss).
- The phone keeps one counter, and a key press switches it to the session stored last without closing a recording made
  in another one; the return key handler does not look for one (`apps/ios/TalkaIOS/TalkaIOSApp.swift:952-966`). Numbers
  stay 1, 2, 3, ... in every session as long as no key press goes out in a new session while a recording in another is
  open (`StreamClient.StaysInStep`). A key press that is sent can lead to misnumbering with no such key press after it
  exactly when it is one itself (`StreamClient.StraddlingIsTheFault`), and such a key press is reachable
  (`StreamClient.StraddlingIsReachable`).
- Three users take the current pipeline without a reference: the warm-up of the recogniser
  (`internal/app/app.go:253-262`), the language model check (`internal/app/app.go:271-276`) and the insertion of the final
  text (`internal/app/ios_websocket.go:535-571`). A pipeline used that way can be shut down during the use: always after
  one more configuration update, and without one exactly when it has already been replaced (`HotSwap.UseDoesNotProtect`).
- An update that changes the id of its trace, and only that, breaks the recorder's index
  (`Recorder.LatencyRecorder.Update`, `Recorder.RenamingBreaksIndex`).
- The diagnostic capture compares the stop's frame count and the assemblers do not: they agree on a stream exactly when
  the stop claims the right number (`Capture.CaptureAgrees`).
- `Shutdown` of the application collects every live pipeline exactly when no replaced pipeline is still waiting for its
  separate retirement (`HotSwap.ShutdownCollectsAll`, `HotSwap.PendingEscapesShutdown`).

## Model

| member | source | states |
|---|---|---|
| Symbolic.AgreementCommutes | internal/crypto/crypto.go:63-76 | either private key with the other's public key gives the one shared secret of the unordered pair (RFC 7748 section 6.1) |
| Symbolic.OpenIffSealed | internal/session/session.go:203-207 | opening succeeds with a plaintext exactly on its sealing under the same key, nonce and associated data |
| Encoding.Buffer.WriteBytes | internal/crypto/crypto.go:147-152 | appends a big-endian length and the bytes, and changes nothing before them |
| Encoding.FieldSpelled | internal/crypto/crypto.go:147-152 | a field is the four bytes of its length modulo 2^32, the most significant first, and its value |
| Encoding.JoinSecrets | internal/crypto/crypto.go:163-169 | the loop over a buffer builds the concatenation of the length-prefixed secrets |
| Encoding.MarshalTranscript | internal/crypto/crypto.go:127-141 | the eleven writes build the length-prefixed fields in their fixed order |
| Encoding.AssociatedData | internal/session/session.go:239-253 | version, 64-bit sequence, session id and type are appended in that order |
| Encoding.JoinedSecretsDecode | internal/crypto/crypto.go:163-169 | a parser recovers a list of secrets of any length from its encoding if and only if every secret is shorter than 2^32 bytes |
| Encoding.LongSecretCollides | internal/crypto/crypto.go:147-152 | one secret of 2^32 zero bytes has the encoding of 2^30 + 1 empty secrets |
| Encoding.SecretsInjective | internal/crypto/crypto.go:163-169 | equal encodings of short secrets come from equal lists |
| Encoding.TranscriptDecodes | internal/crypto/crypto.go:127-141 | a parser recovers a transcript from its encoding if and only if every field is shorter than 2^32 bytes |
| Encoding.TranscriptInjective | apps/ios/TalkaIOS/TalkaIOSApp.swift:1970-1984 | equal encodings of transcripts with short fields come from equal transcripts |
| Encoding.HeaderDecodes | internal/session/session.go:239-253 | a parser recovers version, sequence, session id and type from the associated data if and only if the last two are short |
| Encoding.HeaderInjective | apps/ios/TalkaIOS/TalkaIOSApp.swift:1986-1993 | within one session the associated data fixes the whole header, whatever the length of its fields |
| Session.NewStateMachine | internal/session/session.go:80-123 | null exactly for an empty id, keys that are not 32 bytes or a timeout that is not positive; otherwise a fresh active machine with counters at 1 and 0 |
| Session.StateMachine.State | internal/session/session.go:125-131 | reports the status after expiry is applied, and changes nothing but the status |
| Session.StateMachine.InvalidateTrust | internal/session/session.go:141-146 | the status becomes forgotten and the rest of the state stays |
| Session.StateMachine.EnsureActive | internal/session/session.go:214-233 | an active machine idle for longer than the timeout becomes expired; the error is none for an active machine, expired for an expired one and forgotten for a forgotten one |
| Session.StateMachine.Encrypt | internal/session/session.go:148-174 | the whole new state and result, with expiry and failing randomness, as the specification function gives them |
| Session.StateMachine.Decrypt | internal/session/session.go:176-212 | the whole new state and result, with each rejection in the order of the checks, as the specification function gives them |
| Session.EncryptSeals | internal/session/session.go:148-174 | encryption succeeds exactly on a live session, and ciphertext and tag together seal the plaintext under the message's own header |
| Session.EncryptThenDecrypt | internal/session/session.go:148-212 | a message of a linked peer one ahead is accepted with its plaintext and leaves the two ends in step again |
| Session.DecryptKeepsCanonical | internal/session/session.go:176-212 | the set of seen numbers stays {1..last}; acceptance counts one and records the time; a rejection leaves numbers and activity alone |
| Session.SequenceVerdict | internal/session/session.go:195-201 | for a well-formed message to a live session: replay if and only if 1 <= seq <= last, out of order if and only if seq = 0 or seq > last + 1, with what becomes of both when the counter is at its end |
| Session.AcceptedIff | internal/session/session.go:176-212 | a message is accepted with a plaintext if and only if the session is live, the envelope fits, the number is next and the body seals that plaintext |
| Session.DecryptErrors | internal/session/session.go:176-223 | forgotten if and only if trust was invalidated; expired if and only if the session was expired or is idle for longer than its timeout; and exactly when the version, id, nonce size or tag size is the first that does not fit |
| Session.Inauthentic | internal/session/session.go:203-207 | with the next number in a fitting envelope, exactly what is no sealing under the receive key is inauthentic |
| Session.EncryptErrors | internal/session/session.go:148-165 | the same two conditions for an inactive session, a random error if and only if a live one gets no nonce, and a refusal leaves everything but the status |
| Session.RunsAreCanonical | internal/session/session.go:141-237 | in every reachable state the seen numbers are canonical and last activity is the time of the last success |
| Session.SuccessesAreClose | internal/session/session.go:214-237 | no call succeeds later than the timeout after the success before it |
| Session.DeadStaysDead | internal/session/session.go:214-233 | after expiry or invalidation no later call succeeds, whatever is called |
| Session.ForgottenIffInvalidated | internal/session/session.go:141-223 | over every run, calls fail as forgotten if and only if trust has been invalidated |
| Channel.AcceptedIsNext | internal/session/session.go:195-212 | whatever an end accepts is the next message its peer encrypted |
| Channel.RunKeepsInvariant | internal/session/session.go:148-212 | every step of every run keeps both directions numbered, counted and prefix-ordered |
| Channel.ChannelSafety | internal/session/session.go:148-212 | over all runs, the typed plaintexts each end has accepted are a prefix of those the other encrypted |
| Channel.NextIsAccepted | internal/session/session.go:176-212 | in every reachable state, the next message of the peer delivered in time is accepted with its own type and plaintext |
| Channel.ReflectionNeedsOneKey | internal/session/session.go:203-207 | with one key for both directions some run makes an end accept what its peer never encrypted |
| Channel.SafeIffKeysDiffer | internal/session/session.go:80-123 | a fresh, live link is safe over all bounded runs if and only if its two direction keys differ |
| Channel.WrapBreaksSafety | internal/session/session.go:171-172 | a run in which one end encrypts 2^64 + 1 messages, the other none, and what the other accepts first is the last of them, numbered 1 like the first, and not the first |
| Channel.SafeIffWithinCounter | internal/session/session.go:148-212 | a fresh, live link with differing keys is safe over all runs of at most n messages in each direction if and only if n is at most 2^64 |
| Network.DerivedIsPublic | internal/crypto/crypto.go:97-111 | secrecy: whatever is computed from octets that give nothing away gives nothing away |
| Network.OnlyKeptIsDerived | internal/session/session.go:148-174 | unforgeability: a sealing under a secret key is computed only by having heard it |
| Network.DerivableIsAdmissible | internal/session/session.go:148-212 | every run in which deliveries are computed from what was heard meets the hypothesis of the channel theorem |
| Network.SafeAgainstNetwork | internal/session/session.go:148-212 | channel safety with deliveries limited only by what the network can compute |
| Network.SessionKeysAreSecret | internal/crypto/crypto.go:97-111 | both session keys are secret as soon as one of the secrets they are derived from is |
| Network.SharedKeysAreSecret | internal/crypto/crypto.go:63-76 | that is so when the network holds neither private key of the ephemeral pair or neither of the identity pair |
| Network.PairingKeepsSecrets | internal/pairing/manager.go:150-233 | an honest pairing ends in secret keys, and its request and answer give nothing away |
| Network.PairedChannelResists | internal/pairing/manager.go:150-233 | having heard an honest pairing and all that follows, the network cannot make either end accept anything but a prefix |
| Network.ResumeKeepsSecrets | internal/pairing/manager.go:235-291 | whatever ephemeral key a resume request brings, the session granted has secret, distinct keys while the network lacks the quoted identity's private key and the server's, and the exchange gives nothing away |
| Network.ResumedChannelResists | internal/pairing/manager.go:235-291 | the granted session and any session linked to it form a channel the network cannot interfere with |
| Network.QuotingIsNotEnough | internal/pairing/manager.go:235-248 | a session granted to someone who only quotes a trusted identity key accepts nothing, whatever the network delivers, unless the holder of the identity speaks |
| Pin.RandomPIN | internal/pairing/manager.go:297-313 | the nested loops over an array draw and consume exactly what the specification draws |
| Pin.DrawIsFilter | internal/pairing/manager.go:297-313 | what is drawn is the first bytes below 250, and no byte beyond them is consumed |
| Pin.PinIsFilterAndMap | internal/pairing/manager.go:297-313 | the PIN is the first six bytes below 250, each mod 10 as a digit; the only error is a stream that ends first |
| Pin.PinsAreUniform | internal/pairing/manager.go:297-313 | every six-digit PIN has exactly 25^6 accepted six-byte preimages |
| Handshake.RolesAgree | internal/pairing/smokepairing/session_helpers.go:17-99 | client and server compute the same two secrets, in the same order |
| Handshake.DerivationsSpelled | internal/crypto/crypto.go:78-111 | which inputs are key material, salt and label in each derivation, and which half of the material is which key; no PIN and no session id give nothing |
| Handshake.TranscriptsSpelled | internal/pairing/manager.go:323-353 | version, flow, ids, names and keys of the two transcripts, each in its place |
| Handshake.NoPinNoRequest | internal/crypto/crypto.go:78-81 | without a PIN the client makes no request |
| Handshake.ClientDecides | internal/pairing/smokepairing/session_helpers.go:53-75 | the client opens a session if and only if the answer's confirmation is the one it computes itself; the session starts now, with the client's keys the right way round |
| Handshake.ResumedClientDecides | internal/pairing/smokepairing/session_helpers.go:77-99 | the same for a resume, over the answer's keys |
| Handshake.OnlyTheServerIsAccepted | internal/pairing/smokepairing/session_helpers.go:53-75 | a confirmation computed from any secrets, PIN and transcript is taken by the client only if all three are its own |
| Handshake.ConfirmationDetermines | internal/crypto/crypto.go:78-87 | equal pairing confirmations come from equal PINs, and from equal secrets and transcripts when their fields are short |
| Handshake.FlowsNeverCoincide | internal/pairing/manager.go:323-353 | a pairing and a resume transcript never have one encoding, and their confirmations never coincide, whatever the inputs |
| Handshake.KeysDetermine | internal/crypto/crypto.go:97-111 | a direction key fixes session id, secrets and transcript, and is never the key of the other direction of any session |
| Pairing.FakeStore.SaveLocalIdentity | internal/pairing/fake_store.go:25-31 | replaces the identity and keeps every trusted device |
| Pairing.FakeStore.LoadTrustedDevice | internal/pairing/fake_store.go:33-41 | the stored device, or none for an unknown id |
| Pairing.FakeStore.SaveTrustedDevice | internal/pairing/fake_store.go:43-48 | stores the device under its own id and keeps the others |
| Pairing.FakeStore.DeleteTrustedDevice | internal/pairing/fake_store.go:50-55 | removes the id and nothing else |
| Pairing.GenerateX25519KeyPair | internal/crypto/crypto.go:55-61 | consumes 32 bytes for a private key and pairs it with its public key, or fails at the end of the source |
| Pairing.LoadOrCreate | internal/pairing/store.go:34-55 | returns the stored identity, or generates and stores one when there is none |
| Pairing.Manager.constructor | internal/pairing/manager.go:95-112 | defaults are put in place of limits that are not positive; nothing is pending |
| Pairing.Manager.Start | internal/pairing/manager.go:114-148 | pending pairing, store, randomness and response as the specification gives them, in each failure too |
| Pairing.Manager.Complete | internal/pairing/manager.go:150-233 | every check in order, the counted failures, the enrolment and the session, and the state each outcome leaves |
| Pairing.Manager.Resume | internal/pairing/manager.go:235-291 | only a trusted identity resumes; last-seen time and session, and the state each outcome leaves |
| Pairing.Manager.ForgetDevice | internal/pairing/manager.go:293-295 | the device leaves the store and nothing else changes |
| PairingCalls.HexSpells | internal/pairing/manager.go:315-321 | each byte is spelled with two lower-case hexadecimal digits, the high one first |
| PairingCalls.HexInjective | internal/pairing/manager.go:315-321 | different bytes have different spellings |
| PairingCalls.IdentityDrawn | internal/pairing/store.go:34-55 | a stored identity of the right size is used as it is; without one, the first 32 random bytes become one and are stored; each failure |
| PairingCalls.StartDraws | internal/pairing/manager.go:114-148 | a start succeeds if and only if the identity is usable and the random source lasts; the next 32 bytes are the ephemeral key, 8 more the pairing id, and the first six below 250 after them the digits of the PIN |
| PairingCalls.CompleteRefusals | internal/pairing/manager.go:150-189 | before the confirmation: unknown pairing, exhausted budget, expired PIN, keys of the wrong size and points of low order, each if and only if it is the first, and nothing changes |
| PairingCalls.CompleteDecides | internal/pairing/manager.go:190-233 | a wrong confirmation is counted and the last allowed one reported as rate limited; the right one enrols the device with its keys and times, answers with the server's own names and keys, and opens a session at that time whose id is the next 32 random bytes |
| PairingCalls.CompletedInTime | internal/pairing/manager.go:160-162 | over runs, a pairing is completed no later than its time to live after its start, and under the id then announced |
| PairingCalls.ResumeDecides | internal/pairing/manager.go:235-291 | unknown device, unusable identity, failing randomness and points of low order, each if and only if it is the first, and success if and only if none |
| PairingCalls.ResumeGrants | internal/pairing/manager.go:235-291 | which random bytes become the ephemeral key and the session id, what is answered and stored, and that the session opens at that time with the configured timeout |
| PairingRuns.PendingAfter | internal/pairing/manager.go:114-295 | what each call does to the pending pairing: a successful start replaces it, an enrolment uses it up, a wrong confirmation counts one, everything else leaves it |
| PairingRuns.TrustedAfter | internal/pairing/manager.go:114-295 | devices are gained only by a successful completion and lost only by forgetting; a resume changes only one last-seen time |
| PairingRuns.FailuresAreBounded | internal/pairing/manager.go:150-233 | in every run the counted failures stay within the limit |
| PairingRuns.OneEnrolmentPerStart | internal/pairing/manager.go:150-233 | between two starts at most one completion succeeds, and wrong confirmations never exceed what was left of the budget |
| PairingRuns.ExhaustedStaysLimited | internal/pairing/manager.go:150-170 | once the budget is spent every completion for that pairing is rate limited until the next start, and changes nothing |
| PairingRuns.TrustedExactly | internal/pairing/manager.go:114-295 | after any run a device is trusted if and only if its last enrolment, or its initial trust, has not been followed by a forgetting |
| Agreement.StartAnnounces | internal/pairing/manager.go:114-148 | what a start leaves pending is what it announced, with no failures counted; a failed start keeps the old pairing |
| Agreement.KeysStayGood | internal/pairing/manager.go:114-295 | after any run every key pair the manager holds is one it generated |
| Agreement.PairingAgreement | internal/pairing/manager.go:150-233 | an honest client is admitted if and only if its PIN is the announced one and the pairing has not expired; then it accepts the answer and both sessions have one id and direction-swapped keys; a wrong PIN in time only counts a failure, and after expiry nothing changes |
| Agreement.ResumeAgreement | internal/pairing/manager.go:235-291 | a resume succeeds if and only if it quotes the identity key that device is trusted with, and the holder of that identity then ends in a session linked to the server's |
| Agreement.OnlyTheTranscriptIsAccepted | internal/pairing/manager.go:176-204 | a confirmation computed from any PIN, secrets and transcript is accepted only if all three are the server's own |
| Agreement.PairedChannelIsSafe | internal/pairing/smokepairing/session_helpers.go:53-75 | the two sessions of a pairing form a channel that is safe over all runs |
| Agreement.PhoneAgrees | apps/ios/TalkaIOS/TalkaIOSApp.swift:1929-1955 | after a pairing, the phone's confirmation is the one the server expects, and it seals under the key the server receives with |
| Agreement.PhoneResumes | apps/ios/TalkaIOS/TalkaIOSApp.swift:1939-1955 | after a resume too, the phone seals under the key the server receives with |
| Agreement.SessionsAreSeparate | internal/crypto/crypto.go:97-111 | a message sealed for one session is rejected by every session with another id |
| Frames.SplitPCMFrames | internal/asr/provider.go:227-244 | the shrinking loop returns the specified frames, with the default size for a size that is not positive |
| Frames.SplitIsFramed | internal/asr/provider.go:227-244 | every frame is full but the last, which is not empty, and together they are the input |
| Frames.SplitIsUnique | internal/asr/provider.go:227-244 | a list of frames is what splitting its bytes gives if and only if it is framed that way |
| Frames.PCMFrameAccumulator.Append | apps/ios/TalkaIOS/TalkaIOSApp.swift:323-333 | emits the full frames of what was buffered and what came, and buffers the rest |
| Frames.PCMFrameAccumulator.FlushPaddedFrame | apps/ios/TalkaIOS/TalkaIOSApp.swift:335-346 | empties the buffer into one zero-padded frame, or none |
| Frames.ChunkingDoesNotMatter | apps/ios/TalkaIOS/TalkaIOSApp.swift:313-347 | for every way of chunking, what is emitted and flushed is the split of the whole stream with its last frame padded, and between calls nothing is lost and less than a frame is held |
| Wav.EncodePCM16WAV | internal/session/audio_debug.go:92-112 | the writes build the specified header and data |
| Wav.HeaderSpelled | internal/session/audio_debug.go:92-112 | the 44 header bytes of a valid recording, field by field |
| Wav.WordSpelled | internal/session/audio_debug.go:114-116 | 32-bit integers are written least significant byte first |
| Wav.DecodePCM16LEWAV | internal/asr/wav.go:21-76 | the chunk loop terminates on all inputs and returns what the specification gives, errors included |
| Wav.WavFrames | internal/asr/wav.go:9-19 | decoding followed by splitting, errors passed on |
| Wav.TakeAllFindsLast | internal/asr/wav.go:38-75 | taking chunks in order finds the last fmt and the last data chunk, and fails if and only if some fmt chunk is short or not PCM |
| Wav.ScanSerialised | internal/asr/wav.go:38-66 | on serialised chunks, odd ones padded, the scan takes exactly the chunks in order |
| Wav.DecodesChunkLists | internal/asr/wav.go:21-76 | on every serialised RIFF chunk list decoding succeeds if and only if its formats are good, the last is 16 kHz mono 16-bit and there is data, and returns the last data chunk |
| Wav.WavRoundTrip | internal/session/audio_debug.go:92-112 | for valid metadata decoding undoes encoding if and only if the PCM is shorter than 2^32 bytes, of even or odd length |
| Wav.LongestIsLost | internal/session/audio_debug.go:92-112 | 2^32 bytes of silence do not come back |
| WavInputs.ParseInverts | internal/asr/wav.go:38-66 | every byte string is its whole chunks, serialised with or without the padding of the last, and what is left: less than a chunk header, or a chunk that announces more than there is |
| WavInputs.DecodesExactly | internal/asr/wav.go:21-76 | for every byte string: it decodes to PCM if and only if the RIFF and WAVE header is there, every chunk is whole, the chunks are playable and the PCM is the last data chunk |
| WavInputs.DecodeErrors | internal/asr/wav.go:21-76 | for every byte string: which error it gets, and when |
| WebSocket.XorIsBitwise | internal/asr/websocket.go:197-199 | each bit of the masking operation is the exclusive or of the operands' bits |
| WebSocket.MaskInPlace | internal/app/ios_websocket.go:752-756 | the loop over the slice combines every byte in place with the key byte at its position modulo four |
| WebSocket.MaskTwice | internal/app/ios_websocket.go:752-756 | masking with the same key undoes itself (RFC 6455 section 5.3) |
| WebSocket.FrameSpelled | internal/asr/websocket.go:168-208 | the bytes of a frame: final bit and opcode, mask bit and length in one or three bytes, key, masked payload (RFC 6455 section 5.2) |
| WebSocket.WriteFrame | internal/asr/websocket.go:168-208 | what is sent and which error, for every payload, mask and connection: nothing of a frame that is too large or lacks its random mask, otherwise the specified bytes as far as the connection takes them |
| WebSocket.WriteIOSWebSocketText | internal/app/ios_websocket.go:760-773 | the same for the service's unmasked text frames |
| WebSocket.ReadFrameWithOpcode | internal/asr/websocket.go:221-282 | result and unread input of the ASR reader, for every input |
| WebSocket.ReadTextFrame | internal/asr/websocket.go:210-219 | only text frames are delivered, and the frame read is consumed in any case |
| WebSocket.ReadIOSWebSocketFrame | internal/app/ios_websocket.go:718-758 | result and unread input of the service's reader, for every input |
| WebSocket.StreamRoundTrip | internal/asr/websocket.go:168-282 | any list of frames, masked with any keys or not, written back to back, is read back in order by either reader with exactly the rest left over |
| WebSocket.ReadIffWritten | internal/asr/websocket.go:168-282 | on a new connection, however soon it fails, the reader gets exactly the frame when the writer reports no error and an error when it reports one |
| WebSocket.CloseFrames | internal/asr/websocket.go:246-248 | a close frame ends the stream for the ASR reader and is delivered by the other |
| WebSocket.CutFramesAreRejected | internal/app/ios_websocket.go:718-758 | a frame cut anywhere is reported as cut short |
| WebSocket.ErrorsAreFinal | internal/asr/websocket.go:221-282 | every other error stays whatever arrives after it |
| WebSocket.LongFrames | internal/app/ios_websocket.go:718-742 | frames with an eight-byte length: not supported by the ASR reader, and read by the service's if and only if the payload is at most 2^20 bytes |
| WebSocket.TopBitsAreIgnored | internal/app/ios_websocket.go:718-725 | the final bit and the reserved bits do not matter to either reader |
| WebSocket.ReadExtends | internal/asr/websocket.go:221-282 | what is read does not depend on what arrives after it |
| Protocol.ValidationErrors | internal/protocol/codec.go:95-105 | metadata is valid if and only if it is 16-bit PCM at 16 kHz, mono, in 20 ms frames, with a language; another encoding has its own error |
| Assembly.DecryptIOSAudioMessage | internal/app/ios_session.go:284-290 | decryption, then decoding, with the session the decryption leaves |
| Assembly.DecryptIOSAudioMessages | internal/app/ios_session.go:226-282 | the batch loop returns what the specification gives and leaves the same session, in each failure too |
| Assembly.Transcribe | internal/asr/provider.go:43-56 | opening, feeding every frame and finishing, for any deterministic recogniser |
| Assembly.HandleIOSAudioStream | internal/app/ios_websocket.go:243-431 | how the streaming loop ends, the session it leaves and what the phone is told, for any deterministic recogniser and clean-up stage |
| Assembly.DiagnosticAudioCapture.CaptureEncryptedMessage | internal/session/audio_debug.go:30-90 | state, session and result of the capture after one message, in each failure too |
| AudioStreams.AssemblesExactly | internal/app/ios_session.go:226-282 | a message list is assembled into metadata and frames if and only if it is one valid start followed by same-stream frames numbered 1..n with those payloads, with at least one same-stream stop among them |
| AudioStreams.BatchLanguage | internal/app/ios_session.go:226-282 | the batch assembler succeeds if and only if every message decrypts and decodes and the list is in that language |
| AudioStreams.ReceiveErrors | internal/app/ios_session.go:284-290 | a message is received as what its plaintext decodes to, and otherwise with the error of the decryption or of the decoding |
| AudioStreams.MessageErrors | internal/app/ios_session.go:236-278 | which error a message gets from the batch assembler, and when none |
| AudioStreams.BatchErrors | internal/app/ios_session.go:226-282 | the batch error is that of the first message that cannot be received or assembled; without one, a missing stop |
| AudioStreams.RecogniserHearsAll | internal/asr/provider.go:43-56 | transcription hands the recogniser the metadata and every frame, once and in order |
| AudioStreams.FirstStopIsShortest | internal/app/ios_session.go:226-282 | the first prefix that ends in an accepted stop, and no shorter one, satisfies the batch assembler |
| AudioStreams.StreamingRefinesBatch | internal/app/ios_websocket.go:243-393 | for every message list and recogniser the streaming loop finishes with a result if and only if batch assembly and transcription of the shortest satisfying prefix give it, and the sessions left are equal |
| AudioStreams.StreamingEqualsBatch | internal/app/ios_websocket.go:243-393 | on lists whose only stop is last, streaming and batch give the same result and leave the same session |
| AudioStreams.StreamingAnswersAsBatch | internal/app/ios_websocket.go:384-400 | on lists whose only stop is last, the handler answers with a text if and only if the clean-up stage turns the batch transcription into that text |
| Replies.EndOfLoop | internal/app/ios_websocket.go:243-431 | the loop ends at the first message after which the batch assembler has failed or stopped or the recogniser has refused: with the error of a message that cannot be received, with the key and modifiers of a key press, starved if there is no such message |
| Replies.AnsweredAsBatch | internal/app/ios_websocket.go:372-411 | the phone is told a text if and only if some prefix is the first to satisfy the batch assembler and its batch transcription, cleaned up, is that text |
| Replies.AnsweredOnlyStopLast | internal/app/ios_websocket.go:372-411 | on lists whose only stop is last, that prefix is the whole list |
| Replies.AcknowledgedIffPressed | internal/app/ios_websocket.go:276-292 | a key press is acknowledged if and only if it is the first message the stream does not survive and its own key and modifiers are injected |
| Replies.RefusedForTheSession | internal/app/ios_websocket.go:600-622 | replayed, out of order, expired and forbidden are told if and only if the first message the stream does not survive fails to decrypt for that reason |
| Replies.SilenceIffClosed | internal/app/ios_websocket.go:248-268 | there is no reply if and only if the peer closes while the stream stands; a failed read or a malformed message is told exactly then |
| Capture.CaptureStream | internal/app/smokefakee2e/main.go:231-248 | the loop over the messages captures as the specification does |
| Capture.CaptureAgrees | internal/session/audio_debug.go:30-90 | on a stream the batch assembler accepts, a capture in any earlier state ends with the same session, metadata and audio if the stop claims the right count, and otherwise reports that and nothing else |
| CaptureLanguage.CapturesExactly | internal/session/audio_debug.go:30-90 | a new capture accepts a stream if and only if every message is received and fits the ones before it: frames and stops of the last started stream, numbered and counted since that start; what it returns for a stop is that stream's metadata, id, count and audio |
| CaptureLanguage.CaptureErrors | internal/session/audio_debug.go:30-90 | which error a message gets from the capture, and that it then changes nothing |
| EndToEnd.AllArrive | internal/app/smokefakee2e/main.go:157-251 | messages encrypted in step and delivered promptly are all decrypted and decoded, in order |
| EndToEnd.RecordingRoundTrip | internal/app/smokefakee2e/main.go:157-251 | encrypting a recording and assembling it gives the frames back; its captured WAV decodes to their bytes, which split into the frames if and only if they are framed |
| EndToEnd.FromMicrophone | apps/ios/TalkaIOS/TalkaIOSApp.swift:313-347 | however the microphone's audio is chunked, the accumulated frames come back from the captured WAV, and their bytes are the audio and less than a frame of silence |
| EndToEnd.FromPinToAudio | internal/pairing/smokepairing/session_helpers.go:17-75 | a client that pairs with the announced PIN and records gets every frame through, and the captured WAV decodes to the audio |
| EndToEnd.FromResumeToAudio | internal/pairing/smokepairing/session_helpers.go:77-99 | a phone that resumes with a trusted identity and records promptly gets every frame through, and the captured WAV decodes to the audio |
| StreamClient.SecureAudioStreamClient.PrepareStreamSession | apps/ios/TalkaIOS/TalkaIOSApp.swift:1892-1899 | fails without a stored session; a session not yet encrypted under restarts the counter at 1 |
| StreamClient.SecureAudioStreamClient.Send | apps/ios/TalkaIOS/TalkaIOSApp.swift:1868-1876 | seals under the given session with the next number, which advances only if the socket takes the message |
| StreamClient.SecureAudioStreamClient.SendAudioStart | apps/ios/TalkaIOS/TalkaIOSApp.swift:1788-1796 | makes the stored session the current one and sends in it |
| StreamClient.SecureAudioStreamClient.SendAudioFrame | apps/ios/TalkaIOS/TalkaIOSApp.swift:1798-1801 | sends in the current session, if there is one |
| StreamClient.SecureAudioStreamClient.SendAudioStop | apps/ios/TalkaIOS/TalkaIOSApp.swift:1803-1807 | sends in the current session, and closes the stream if that fails |
| StreamClient.SecureAudioStreamClient.ReceiveStopReply | apps/ios/TalkaIOS/TalkaIOSApp.swift:1808-1831 | a rejected sequence number clears the secure session; the stream is closed in every case |
| StreamClient.SecureAudioStreamClient.SendAudioCancel | apps/ios/TalkaIOS/TalkaIOSApp.swift:1833-1838 | closes the stream and keeps the counter |
| StreamClient.SecureAudioStreamClient.SendKeyPress | apps/ios/TalkaIOS/TalkaIOSApp.swift:1840-1846 | sends in the stored session without making it the current one |
| StreamClient.SealedOpens | apps/ios/TalkaIOS/TalkaIOSApp.swift:1957-1962 | what the phone encrypts is the sealing of its plaintext, and of no other, under the header the service checks |
| StreamClient.Outcomes | apps/ios/TalkaIOS/TalkaIOSApp.swift:1788-1876 | for each kind of send: whether it fails for want of a session, the number and session of what is sealed, and the state it leaves |
| StreamClient.RecordingIsSent | apps/ios/TalkaIOS/TalkaIOSApp.swift:1788-1807 | a recording whose sends go through is sent whole, in the stored session, numbered on from what was sent in it before |
| StreamClient.RunKeepsInvariant | apps/ios/TalkaIOS/TalkaIOSApp.swift:1766-1919 | every step keeps the counter one ahead of what was sent in its session, the log numbered and the service within it |
| StreamClient.StaysInStep | apps/ios/TalkaIOS/TalkaIOSApp.swift:1766-1919 | the successful sends of every session are numbered 1, 2, 3, ... over recordings and key presses, and the service has accepted, in order, the first so many of its session, whatever is lost, repeated or reordered |
| StreamClient.NextIsAccepted | internal/session/session.go:176-212 | in every such run the next unaccepted send of the session, delivered in time, is accepted with its plaintext |
| StreamClient.StraddlingBreaksStep | apps/ios/TalkaIOS/TalkaIOSApp.swift:1840-1866 | after any such run, a key press in a new session during a recording can be followed by a frame, a cancellation and one more key press, none of them at fault, that leave a session misnumbered |
| StreamClient.StraddlingIsTheFault | apps/ios/TalkaIOS/TalkaIOSApp.swift:1840-1866 | after any such run, a key press that is sent has a fair continuation without another such key press that misnumbers a session if and only if it is in another session than that of the open recording |
| StreamClient.StraddlingIsReachable | apps/ios/TalkaIOS/TalkaIOSApp.swift:1788-1796 | storing a session, beginning a recording in it and storing another session leads there |
| StreamClient.RefusedUntilStored | apps/ios/TalkaIOS/TalkaIOSApp.swift:1819-1825 | once the service has refused a sequence number, nothing is sent until a new session is stored |
| StreamClient.ClosedUntilStarted | apps/ios/TalkaIOS/TalkaIOSApp.swift:1908-1912 | after a cancellation or the reply to a stop, no frame and no stop is sent until a recording is started |
| HotSwap.App.RetainPipelineLocked | internal/app/app.go:551-555 | counts one more reference |
| HotSwap.App.Release | internal/app/app.go:556-572 | counts one less; the last release of a retired pipeline forgets it and asks for its shutdown |
| HotSwap.App.RetirePipeline | internal/app/app.go:575-587 | a held pipeline is remembered as retired, any other is shut down at once |
| HotSwap.App.Swap | internal/app/app.go:530-534 | the new pipeline becomes current and the previous one is returned |
| HotSwap.App.Acquire | internal/app/ios_websocket.go:434-464 | the current pipeline with one more reference, or nothing and no change |
| HotSwap.App.UseCurrent | internal/app/ios_websocket.go:540-542 | the current pipeline, without a reference |
| HotSwap.App.ShutdownList | internal/app/app.go:352-365 | every retired pipeline and the current one, each exactly once |
| HotSwap.StepKeepsInvariant | internal/app/app.go:551-587 | every critical section keeps counts equal to holders and each created pipeline in exactly one place |
| HotSwap.ShutdownIsSafe | internal/app/app.go:551-587 | in every interleaving a scheduled pipeline is scheduled once and is not current, awaiting retirement or held; counts are numbers of holders |
| HotSwap.ScheduledIff | internal/app/app.go:551-587 | a created pipeline has been scheduled for shutdown if and only if it is not current, not awaiting retirement and not held |
| HotSwap.ReferencesProtect | internal/app/app.go:551-573 | while a handler keeps its reference, no continuation schedules the pipeline |
| HotSwap.UseDoesNotProtect | internal/app/app.go:253-276 | a pipeline used without a reference can be scheduled during the use after one more update, and without one if and only if it is no longer current |
| HotSwap.NothingLeaks | internal/app/app.go:530-587 | the created pipelines not scheduled are exactly the current one, the retired and those awaiting retirement |
| HotSwap.ShutdownCollectsAll | internal/app/app.go:352-365 | what a shutdown collects is exactly the live pipelines if and only if no retirement is pending |
| HotSwap.PendingEscapesShutdown | internal/app/app.go:352-365 | right after a swap a shutdown misses the replaced pipeline |
| HotSwap.DrainingCounts | internal/app/app.go:551-587 | each release or retirement leaves one less to wait for, in any order |
| HotSwap.CanAlwaysDrain | internal/app/app.go:551-587 | from every reachable state the holders and retirements can run out, and whenever they have, every pipeline but the current one has been scheduled once |
| Recorder.LatencyRecorder.constructor | internal/app/latency_trace.go:39-44 | an empty recorder, with the default limit for one that is not positive |
| Recorder.LatencyRecorder.Start | internal/app/latency_trace.go:46-64 | an indexed id is restarted in place, a new one goes to the front and the oldest beyond the limit goes; the index stays exact |
| Recorder.StartWrites | internal/app/latency_trace.go:46-64 | a listed trace gets the new device and time and keeps the rest; a new one is in front with nothing else in it |
| Recorder.LatencyRecorder.Update | internal/app/latency_trace.go:66-78 | only the indexed trace changes, and the index stays exact if and only if that trace keeps its id |
| Recorder.RenamingBreaksIndex | internal/app/latency_trace.go:66-78 | renaming any trace to any other id leaves an index that does not fit |
| Recorder.LatencyRecorder.Snapshot | internal/app/latency_trace.go:80-90 | the traces, newest first |
| Recorder.LatencyRecorder.ReindexLocked | internal/app/latency_trace.go:92-97 | the loop rebuilds exactly the map from ids to positions |
| Recorder.SnapshotIsTheLatest | internal/app/latency_trace.go:46-97 | after any run the traces are those opened last, at most the limit, newest first, each with all that was done to its id since, and ids are distinct |

## Left out

- HTTP, JSON, base64, sockets, mDNS, the keychain, Ollama, clipboard insertion and the user interfaces: libraries and I/O. JSON and base64 enter as a `Codec` of inverse pairs, and decoded messages as a datatype.
- Real cryptographic arithmetic: operations are free terms. Private keys are not clamped, and the all-zero point stands for all points of low order.
- The clock and the random source are parameters: each call is given its clock readings, and consumes random bytes in the order the code asks for them.
- Calls of the pairing manager, of one session and of the application are atomic: the locks make them so, except `Resume` and `ForgetDevice`, which take none. The calls of the pairing handlers around the manager are not modelled.
- Stores that fail: the store is the in-memory one, which does not.
- Network.PairedChannelResists: the pairing itself is between honest ends and only overheard; for an active network during a pairing there is Agreement.OnlyTheTranscriptIsAccepted, which is about confirmations.
- Trimming of device names, the forget endpoint over HTTP, which edits only the application's own device list, and the device checks of the handlers.
- The handler's limit of 10000 buffered messages (`internal/app/ios_websocket.go:29`), deadlines, and readiness checks.
- Inserting the final text, beyond which pipeline it uses (`internal/app/ios_websocket.go:535-571`).
- Assembly.HandleIOSAudioStream: a connection that fails while the reply is written, and the error codes that the recogniser and the key press injector bring themselves, which appear as one code.
- Pairing.GenerateX25519KeyPair: the library may first read and discard one byte; the source of randomness here is the stream without such bytes, and every stream is covered.
- AudioStreams.StreamingRefinesBatch: about the messages up to the first stop, because the streaming loop ends there and the batch assembler goes on.
- `App.Shutdown` as a step of a run: it neither looks at nor clears references, so single scheduling is stated for runs without it; only the list it collects is modelled.
- Retaining a pipeline that is not current and calling one release closure twice, which no handler does; these are the `Enabled` conditions.
- Frames.PCMFrameAccumulator.Append: with no bytes per frame its loop would not end, so a positive size is required.
- What the phone does with the audio left over when a recording stops, and its queue of frames.
- StreamClient.SecureAudioStreamClient.Send: requires the counter below its last value, where the addition in the phone traps.
- StreamClient.StaysInStep: sends are sequential, a send that reports failure has not reached the network, and session ids are fresh.
- The phone's own WebSocket framing, which belongs to its system library.
- Error texts, audio levels, latency arithmetic and configuration validation: single-branch or shallow.
