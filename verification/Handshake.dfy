/** Confirmations and session keys, and the client's half of the pairing and resume handshakes. */
module Handshake {
  import opened Wrappers
  import opened Symbolic
  import opened Encoding
  import opened Session

  const PAIRING_CONFIRMATION_INFO: Octets := Ascii("talka/pairing-confirmation-key/v1")
  const RESUME_CONFIRMATION_INFO: Octets := Ascii("talka/resume-confirmation-key/v1")
  const SESSION_KEYS_INFO: Octets := Ascii("talka/session-keys/v1")
  const TRANSCRIPT_VERSION: Octets := Ascii("v1alpha1")
  const FLOW_PAIRING: Octets := Ascii("pairing")
  const FLOW_RESUME: Octets := Ascii("resume")
  const HASH_SIZE: nat := 32

  datatype SessionKeys = SessionKeys(clientToServer: Octets, serverToClient: Octets)

  datatype StartResponse = StartResponse(
    pairingID: Octets,
    pin: Octets,
    expiresAt: int,
    serverIdentityPublicKey: Octets,
    serverEphemeralPublicKey: Octets)

  datatype PairingRequest = PairingRequest(
    pairingID: Octets,
    clientDeviceID: Octets,
    clientDeviceName: Octets,
    clientIdentityPublicKey: Octets,
    clientEphemeralPublicKey: Octets,
    clientConfirmation: Octets)

  datatype ResumeRequest = ResumeRequest(
    pairingID: Octets,
    clientDeviceID: Octets,
    clientDeviceName: Octets,
    clientIdentityPublicKey: Octets,
    clientEphemeralPublicKey: Octets)

  /** What the server answers a completed or resumed pairing with. */
  datatype Answer = Answer(
    pairingID: Octets,
    sessionID: Octets,
    clientDeviceID: Octets,
    clientDeviceName: Octets,
    serverDeviceID: Octets,
    serverDeviceName: Octets,
    serverIdentityPublicKey: Octets,
    serverEphemeralPublicKey: Octets,
    confirmation: Octets)

  // ---------- Derivations ----------

  function TranscriptMac(key: Octets, t: Transcript): Octets {
    Expand(Mac(key, TranscriptOctets(t)), HASH_SIZE)
  }

  function ConfirmationKey(secrets: seq<Octets>, salt: Octets, info: Octets): Octets {
    Expand(Hkdf(Fields(secrets), salt, info), HASH_SIZE)
  }

  function ComputePairingConfirmation(secrets: seq<Octets>, pin: Octets, t: Transcript): Option<Octets> {
    if pin == [] then None
    else Some(TranscriptMac(ConfirmationKey(secrets, pin, PAIRING_CONFIRMATION_INFO), t))
  }

  function ComputeResumeConfirmation(secrets: seq<Octets>, t: Transcript): Octets {
    TranscriptMac(ConfirmationKey(secrets, t.clientDeviceID, RESUME_CONFIRMATION_INFO), t)
  }

  function KeyMaterial(secrets: seq<Octets>, sessionID: Octets, t: Transcript): Term {
    Hkdf(Fields(secrets), sessionID + Expand(Hash(TranscriptOctets(t)), HASH_SIZE), SESSION_KEYS_INFO)
  }

  function DeriveSessionKeys(secrets: seq<Octets>, sessionID: Octets, t: Transcript): Option<SessionKeys> {
    if sessionID == [] then None
    else
      var material := Expand(KeyMaterial(secrets, sessionID, t), 2 * KEY_SIZE);
      Some(SessionKeys(material[..KEY_SIZE], material[KEY_SIZE..]))
  }

  function PairingTranscript(pairingID: Octets, clientDeviceID: Octets, clientDeviceName: Octets,
                             serverDeviceID: Octets, serverDeviceName: Octets,
                             clientIdentity: Octets, clientEphemeral: Octets,
                             serverIdentity: Octets, serverEphemeral: Octets): Transcript
  {
    Transcript(TRANSCRIPT_VERSION, FLOW_PAIRING, pairingID, clientDeviceID, clientDeviceName, serverDeviceID,
               serverDeviceName, clientEphemeral, serverEphemeral, clientIdentity, serverIdentity)
  }

  function ResumeTranscript(pairingID: Octets, clientDeviceID: Octets, clientDeviceName: Octets,
                            serverDeviceID: Octets, serverDeviceName: Octets,
                            clientIdentity: Octets, clientEphemeral: Octets,
                            serverIdentity: Octets, serverEphemeral: Octets): Transcript
  {
    Transcript(TRANSCRIPT_VERSION, FLOW_RESUME, pairingID, clientDeviceID, clientDeviceName, serverDeviceID,
               serverDeviceName, clientEphemeral, serverEphemeral, clientIdentity, serverIdentity)
  }

  /** The ephemeral-ephemeral and the identity-identity secret, in that order. */
  function Secrets(ephemeral: PrivateKey, peerEphemeral: Octets, identity: PrivateKey, peerIdentity: Octets)
    : Option<seq<Octets>>
  {
    match SharedSecretOf(ephemeral, peerEphemeral)
    case None => None
    case Some(ee) =>
      match SharedSecretOf(identity, peerIdentity)
      case None => None
      case Some(ss) => Some([ee, ss])
  }

  // ---------- The client ----------

  function NewPairingRequest(start: StartResponse, identity: PrivateKey, ephemeral: PrivateKey,
                             clientDeviceID: Octets, clientDeviceName: Octets,
                             serverDeviceID: Octets, serverDeviceName: Octets, pin: Octets): Option<PairingRequest>
  {
    var t := PairingTranscript(start.pairingID, clientDeviceID, clientDeviceName, serverDeviceID, serverDeviceName,
                               PublicOf(identity), PublicOf(ephemeral),
                               start.serverIdentityPublicKey, start.serverEphemeralPublicKey);
    match Secrets(ephemeral, start.serverEphemeralPublicKey, identity, start.serverIdentityPublicKey)
    case None => None
    case Some(secrets) =>
      match ComputePairingConfirmation(secrets, pin, t)
      case None => None
      case Some(confirmation) =>
        Some(PairingRequest(start.pairingID, clientDeviceID, clientDeviceName,
                            PublicOf(identity), PublicOf(ephemeral), confirmation))
  }

  function ClientState(secrets: seq<Octets>, sessionID: Octets, t: Transcript, timeout: int, now: int)
    : Option<SessionState>
  {
    match DeriveSessionKeys(secrets, sessionID, t)
    case None => None
    case Some(keys) =>
      match NewSession(sessionID, keys.clientToServer, keys.serverToClient, timeout, now)
      case Failure(_) => None
      case Success(state) => Some(state)
  }

  function NewClientSession(start: StartResponse, answer: Answer, identity: PrivateKey, ephemeral: PrivateKey,
                            timeout: int, now: int): Option<SessionState>
  {
    var t := PairingTranscript(start.pairingID, answer.clientDeviceID, answer.clientDeviceName,
                               answer.serverDeviceID, answer.serverDeviceName, PublicOf(identity), PublicOf(ephemeral),
                               start.serverIdentityPublicKey, start.serverEphemeralPublicKey);
    match Secrets(ephemeral, start.serverEphemeralPublicKey, identity, start.serverIdentityPublicKey)
    case None => None
    case Some(secrets) =>
      if ComputePairingConfirmation(secrets, start.pin, t) != Some(answer.confirmation) then None
      else ClientState(secrets, answer.sessionID, t, timeout, now)
  }

  function NewResumedClientSession(pairingID: Octets, answer: Answer, identity: PrivateKey, ephemeral: PrivateKey,
                                   timeout: int, now: int): Option<SessionState>
  {
    var t := ResumeTranscript(pairingID, answer.clientDeviceID, answer.clientDeviceName,
                              answer.serverDeviceID, answer.serverDeviceName, PublicOf(identity), PublicOf(ephemeral),
                              answer.serverIdentityPublicKey, answer.serverEphemeralPublicKey);
    match Secrets(ephemeral, answer.serverEphemeralPublicKey, identity, answer.serverIdentityPublicKey)
    case None => None
    case Some(secrets) =>
      if ComputeResumeConfirmation(secrets, t) != answer.confirmation then None
      else ClientState(secrets, answer.sessionID, t, timeout, now)
  }

  // ---------- The phone, which derives only what it needs ----------

  /** The confirmation the phone sends; unlike the server it does not insist on a PIN. */
  function PhoneConfirmation(pin: Octets, pairingID: Octets, clientDeviceID: Octets, clientDeviceName: Octets,
                             serverDeviceID: Octets, serverDeviceName: Octets,
                             serverIdentity: Octets, serverEphemeral: Octets,
                             identity: PrivateKey, ephemeral: PrivateKey): Option<Octets>
  {
    var t := PairingTranscript(pairingID, clientDeviceID, clientDeviceName, serverDeviceID, serverDeviceName,
                               PublicOf(identity), PublicOf(ephemeral), serverIdentity, serverEphemeral);
    match Secrets(ephemeral, serverEphemeral, identity, serverIdentity)
    case None => None
    case Some(secrets) => Some(TranscriptMac(ConfirmationKey(secrets, pin, PAIRING_CONFIRMATION_INFO), t))
  }

  /** The key the phone seals under, from the server's answer alone. */
  function PhoneSendKey(flow: Octets, pairingID: Octets, answer: Answer, identity: PrivateKey, ephemeral: PrivateKey)
    : Option<Octets>
  {
    var t := Transcript(TRANSCRIPT_VERSION, flow, pairingID, answer.clientDeviceID, answer.clientDeviceName,
                        answer.serverDeviceID, answer.serverDeviceName,
                        PublicOf(ephemeral), answer.serverEphemeralPublicKey,
                        PublicOf(identity), answer.serverIdentityPublicKey);
    match Secrets(ephemeral, answer.serverEphemeralPublicKey, identity, answer.serverIdentityPublicKey)
    case None => None
    case Some(secrets) => Some(Expand(KeyMaterial(secrets, answer.sessionID, t), 2 * KEY_SIZE)[..KEY_SIZE])
  }

  /** The two transcripts spelled out; they differ in the name of the flow and nothing else. */
  lemma TranscriptsSpelled(pairingID: Octets, clientDeviceID: Octets, clientDeviceName: Octets,
                           serverDeviceID: Octets, serverDeviceName: Octets, clientIdentity: Octets,
                           clientEphemeral: Octets, serverIdentity: Octets, serverEphemeral: Octets)
    ensures PairingTranscript(pairingID, clientDeviceID, clientDeviceName, serverDeviceID, serverDeviceName,
                              clientIdentity, clientEphemeral, serverIdentity, serverEphemeral)
            == Transcript(Ascii("v1alpha1"), Ascii("pairing"), pairingID, clientDeviceID, clientDeviceName,
                          serverDeviceID, serverDeviceName, clientEphemeral, serverEphemeral,
                          clientIdentity, serverIdentity)
    ensures ResumeTranscript(pairingID, clientDeviceID, clientDeviceName, serverDeviceID, serverDeviceName,
                             clientIdentity, clientEphemeral, serverIdentity, serverEphemeral)
            == Transcript(Ascii("v1alpha1"), Ascii("resume"), pairingID, clientDeviceID, clientDeviceName,
                          serverDeviceID, serverDeviceName, clientEphemeral, serverEphemeral,
                          clientIdentity, serverIdentity)
  {
  }

  /** The derivations spelled out, as RFC 5869 section 2 takes its inputs: the secrets are the key material; a
      confirmation key is salted with the PIN or the client's id, session keys with the session id and the hash of the
      transcript; each purpose has its own label. */
  lemma DerivationsSpelled(secrets: seq<Octets>, pin: Octets, sessionID: Octets, t: Transcript)
    requires pin != [] && sessionID != []
    ensures ComputePairingConfirmation(secrets, pin, t)
            == Some(Expand(Mac(Expand(Hkdf(Fields(secrets), pin, Ascii("talka/pairing-confirmation-key/v1")), 32),
                               TranscriptOctets(t)), 32))
    ensures ComputeResumeConfirmation(secrets, t)
            == Expand(Mac(Expand(Hkdf(Fields(secrets), t.clientDeviceID,
                                      Ascii("talka/resume-confirmation-key/v1")), 32),
                          TranscriptOctets(t)), 32)
    ensures var salt := sessionID + Expand(Hash(TranscriptOctets(t)), 32);
            var material := Expand(Hkdf(Fields(secrets), salt, Ascii("talka/session-keys/v1")), 64);
            DeriveSessionKeys(secrets, sessionID, t) == Some(SessionKeys(material[..32], material[32..]))
    ensures ComputePairingConfirmation(secrets, [], t) == None && DeriveSessionKeys(secrets, [], t) == None
  {
  }

  // ---------- What the derivations determine ----------

  lemma {:induction false} Distinct()
    ensures PAIRING_CONFIRMATION_INFO != RESUME_CONFIRMATION_INFO
    ensures FLOW_PAIRING != FLOW_RESUME
    ensures Short(TRANSCRIPT_VERSION) && Short(FLOW_PAIRING) && Short(FLOW_RESUME)
  {
    assert |PAIRING_CONFIRMATION_INFO| == 33 && |RESUME_CONFIRMATION_INFO| == 32;
    assert |FLOW_PAIRING| == 7 && |FLOW_RESUME| == 6;
  }

  predicate AllShort(secrets: seq<Octets>) {
    forall v :: v in secrets ==> Short(v)
  }

  lemma MacDetermines(key1: Octets, t1: Transcript, key2: Octets, t2: Transcript)
    requires TranscriptMac(key1, t1) == TranscriptMac(key2, t2)
    ensures key1 == key2 && TranscriptOctets(t1) == TranscriptOctets(t2)
  {
    hide TranscriptOctets;
    ExpandInjective(Mac(key1, TranscriptOctets(t1)), Mac(key2, TranscriptOctets(t2)), HASH_SIZE, HASH_SIZE);
  }

  lemma ConfirmationKeyDetermines(s1: seq<Octets>, salt1: Octets, info1: Octets,
                                  s2: seq<Octets>, salt2: Octets, info2: Octets)
    requires ConfirmationKey(s1, salt1, info1) == ConfirmationKey(s2, salt2, info2)
    ensures Fields(s1) == Fields(s2) && salt1 == salt2 && info1 == info2
  {
    ExpandInjective(Hkdf(Fields(s1), salt1, info1), Hkdf(Fields(s2), salt2, info2), HASH_SIZE, HASH_SIZE);
  }

  /** A pairing confirmation fixes the PIN, and with it the secrets and every field of the transcript. */
  lemma ConfirmationDetermines(s1: seq<Octets>, pin1: Octets, t1: Transcript,
                               s2: seq<Octets>, pin2: Octets, t2: Transcript)
    requires pin1 != [] && pin2 != []
    ensures ComputePairingConfirmation(s1, pin1, t1) == ComputePairingConfirmation(s2, pin2, t2) ==>
              && pin1 == pin2
              && (AllShort(s1 + s2) ==> s1 == s2)
              && (ShortTranscript(t1) && ShortTranscript(t2) ==> t1 == t2)
  {
    hide TranscriptOctets, Fields, ShortTranscript;
    if ComputePairingConfirmation(s1, pin1, t1) == ComputePairingConfirmation(s2, pin2, t2) {
      MacDetermines(ConfirmationKey(s1, pin1, PAIRING_CONFIRMATION_INFO), t1,
                    ConfirmationKey(s2, pin2, PAIRING_CONFIRMATION_INFO), t2);
      ConfirmationKeyDetermines(s1, pin1, PAIRING_CONFIRMATION_INFO, s2, pin2, PAIRING_CONFIRMATION_INFO);
      if AllShort(s1 + s2) {
        SecretsInjective(s1, s2);
      }
      if ShortTranscript(t1) && ShortTranscript(t2) {
        TranscriptInjective(t1, t2);
      }
    }
  }

  /** A pairing and a resume never share a transcript encoding or a confirmation, whatever their inputs. */
  lemma FlowsNeverCoincide(p: Transcript, r: Transcript, s1: seq<Octets>, s2: seq<Octets>, pin: Octets)
    requires p.version == r.version == TRANSCRIPT_VERSION && p.flow == FLOW_PAIRING && r.flow == FLOW_RESUME
    ensures TranscriptOctets(p) != TranscriptOctets(r)
    ensures ComputePairingConfirmation(s1, pin, p) != Some(ComputeResumeConfirmation(s2, r))
  {
    Distinct();
    hide ShortTranscript;
    if TranscriptOctets(p) == TranscriptOctets(r) {
      FirstTwoFields(p);
      FirstTwoFields(r);
    }
    if ComputePairingConfirmation(s1, pin, p) == Some(ComputeResumeConfirmation(s2, r)) {
      hide TranscriptOctets;
      MacDetermines(ConfirmationKey(s1, pin, PAIRING_CONFIRMATION_INFO), p,
                    ConfirmationKey(s2, r.clientDeviceID, RESUME_CONFIRMATION_INFO), r);
    }
  }

  lemma FirstTwoFields(t: Transcript)
    requires Short(t.version) && Short(t.flow)
    ensures match TakeField(TranscriptOctets(t))
            case None => false
            case Some((version, rest)) =>
              version == t.version && TakeField(rest).Some? && TakeField(rest).value.0 == t.flow
  {
    var f := TranscriptFields(t);
    assert f[1..][0] == t.flow;
    TakeFieldInverse(t.version, Fields(f[1..]));
    TakeFieldInverse(t.flow, Fields(f[1..][1..]));
    hide Field;
    assert Fields(f) == Field(f[0]) + Fields(f[1..]);
    assert Fields(f[1..]) == Field(f[1..][0]) + Fields(f[1..][1..]);
  }

  lemma MaterialDetermines(s1: seq<Octets>, id1: Octets, t1: Transcript, s2: seq<Octets>, id2: Octets, t2: Transcript)
    requires KeyMaterial(s1, id1, t1) == KeyMaterial(s2, id2, t2)
    ensures Fields(s1) == Fields(s2) && id1 == id2 && TranscriptOctets(t1) == TranscriptOctets(t2)
  {
    hide TranscriptOctets, Fields;
    var h1, h2 := Expand(Hash(TranscriptOctets(t1)), HASH_SIZE), Expand(Hash(TranscriptOctets(t2)), HASH_SIZE);
    assert id1 + h1 == id2 + h2;
    assert (id1 + h1)[..|id1|] == id1 && (id2 + h2)[..|id2|] == id2;
    assert (id1 + h1)[|id1|..] == h1 && (id2 + h2)[|id2|..] == h2;
    ExpandInjective(Hash(TranscriptOctets(t1)), Hash(TranscriptOctets(t2)), HASH_SIZE, HASH_SIZE);
  }

  /** The key of one direction fixes everything it was derived from, and is never the key of the other direction,
      in the same or in any other session. */
  lemma KeysDetermine(s1: seq<Octets>, id1: Octets, t1: Transcript, s2: seq<Octets>, id2: Octets, t2: Transcript)
    requires id1 != [] && id2 != []
    ensures var k1 := DeriveSessionKeys(s1, id1, t1).value;
            var k2 := DeriveSessionKeys(s2, id2, t2).value;
            && k1.clientToServer != k2.serverToClient
            && (k1.clientToServer == k2.clientToServer || k1.serverToClient == k2.serverToClient ==>
                  && id1 == id2
                  && (AllShort(s1 + s2) ==> s1 == s2)
                  && (ShortTranscript(t1) && ShortTranscript(t2) ==> t1 == t2))
  {
    hide TranscriptOctets, Fields, ShortTranscript;
    var m1, m2 := KeyMaterial(s1, id1, t1), KeyMaterial(s2, id2, t2);
    var k1, k2 := DeriveSessionKeys(s1, id1, t1).value, DeriveSessionKeys(s2, id2, t2).value;
    assert k1.clientToServer[0] == Part(m1, 0) && k2.clientToServer[0] == Part(m2, 0);
    assert k1.serverToClient[0] == Part(m1, KEY_SIZE) && k2.serverToClient[0] == Part(m2, KEY_SIZE);
    if k1.clientToServer == k2.clientToServer || k1.serverToClient == k2.serverToClient {
      MaterialDetermines(s1, id1, t1, s2, id2, t2);
      if AllShort(s1 + s2) {
        SecretsInjective(s1, s2);
      }
      if ShortTranscript(t1) && ShortTranscript(t2) {
        TranscriptInjective(t1, t2);
      }
    }
  }

  /** Both roles compute the same pair of secrets. */
  lemma RolesAgree(clientIdentity: PrivateKey, clientEphemeral: PrivateKey,
                   serverIdentity: PrivateKey, serverEphemeral: PrivateKey)
    ensures Secrets(clientEphemeral, PublicOf(serverEphemeral), clientIdentity, PublicOf(serverIdentity))
            == Secrets(serverEphemeral, PublicOf(clientEphemeral), serverIdentity, PublicOf(clientIdentity))
            == Some([Expand(SharedSecret({clientEphemeral, serverEphemeral}), KEY_SIZE),
                     Expand(SharedSecret({clientIdentity, serverIdentity}), KEY_SIZE)])
  {
    AgreementCommutes(clientEphemeral, serverEphemeral);
    AgreementCommutes(clientIdentity, serverIdentity);
  }

  // ---------- What the client insists on ----------

  predicate ClientOpened(s: SessionState, sessionID: Octets, keys: SessionKeys, timeout: int, now: int) {
    s == SessionState(sessionID, keys.clientToServer, keys.serverToClient, timeout, Active, now, 1, 0, {})
  }

  /** Without a PIN there is no request. */
  lemma NoPinNoRequest(start: StartResponse, identity: PrivateKey, ephemeral: PrivateKey, clientDeviceID: Octets,
                       clientDeviceName: Octets, serverDeviceID: Octets, serverDeviceName: Octets)
    ensures NewPairingRequest(start, identity, ephemeral, clientDeviceID, clientDeviceName,
                              serverDeviceID, serverDeviceName, []) == None
  {
  }

  /** The client opens a session exactly on the confirmation it computes itself, and then one that starts now, sends
      with the key towards the server and receives with the other. */
  lemma ClientDecides(start: StartResponse, answer: Answer, identity: PrivateKey, ephemeral: PrivateKey,
                      timeout: int, now: int)
    requires timeout > 0 && answer.sessionID != []
    ensures var t := PairingTranscript(start.pairingID, answer.clientDeviceID, answer.clientDeviceName,
                                       answer.serverDeviceID, answer.serverDeviceName,
                                       PublicOf(identity), PublicOf(ephemeral),
                                       start.serverIdentityPublicKey, start.serverEphemeralPublicKey);
            var secrets := Secrets(ephemeral, start.serverEphemeralPublicKey, identity, start.serverIdentityPublicKey);
            var client := NewClientSession(start, answer, identity, ephemeral, timeout, now);
            && (client.Some? <==>
                  secrets.Some? && ComputePairingConfirmation(secrets.value, start.pin, t) == Some(answer.confirmation))
            && (client.Some? ==>
                  ClientOpened(client.value, answer.sessionID,
                               DeriveSessionKeys(secrets.value, answer.sessionID, t).value, timeout, now))
  {
    hide ComputePairingConfirmation, PairingTranscript, KeyMaterial, Secrets;
  }

  lemma ResumedClientDecides(pairingID: Octets, answer: Answer, identity: PrivateKey, ephemeral: PrivateKey,
                             timeout: int, now: int)
    requires timeout > 0 && answer.sessionID != []
    ensures var t := ResumeTranscript(pairingID, answer.clientDeviceID, answer.clientDeviceName,
                                      answer.serverDeviceID, answer.serverDeviceName,
                                      PublicOf(identity), PublicOf(ephemeral),
                                      answer.serverIdentityPublicKey, answer.serverEphemeralPublicKey);
            var secrets := Secrets(ephemeral, answer.serverEphemeralPublicKey,
                                   identity, answer.serverIdentityPublicKey);
            var client := NewResumedClientSession(pairingID, answer, identity, ephemeral, timeout, now);
            && (client.Some? <==>
                  secrets.Some? && ComputeResumeConfirmation(secrets.value, t) == answer.confirmation)
            && (client.Some? ==>
                  ClientOpened(client.value, answer.sessionID,
                               DeriveSessionKeys(secrets.value, answer.sessionID, t).value, timeout, now))
  {
    hide ComputeResumeConfirmation, ResumeTranscript, KeyMaterial, Secrets;
  }

  /** Whoever computed it and from whatever, the client takes an answer's confirmation only if it was computed from the
      client's own secrets, PIN and transcript. */
  lemma OnlyTheServerIsAccepted(start: StartResponse, answer: Answer, identity: PrivateKey, ephemeral: PrivateKey,
                                timeout: int, now: int, secrets: seq<Octets>, pin: Octets, t: Transcript)
    requires timeout > 0 && answer.sessionID != [] && pin != [] && start.pin != []
    requires Some(answer.confirmation) == ComputePairingConfirmation(secrets, pin, t)
    requires AllShort(secrets) && ShortTranscript(t)
    ensures var own := PairingTranscript(start.pairingID, answer.clientDeviceID, answer.clientDeviceName,
                                         answer.serverDeviceID, answer.serverDeviceName,
                                         PublicOf(identity), PublicOf(ephemeral),
                                         start.serverIdentityPublicKey, start.serverEphemeralPublicKey);
            NewClientSession(start, answer, identity, ephemeral, timeout, now).Some? && ShortTranscript(own) ==>
              && pin == start.pin && t == own
              && Secrets(ephemeral, start.serverEphemeralPublicKey, identity, start.serverIdentityPublicKey)
                 == Some(secrets)
  {
    ClientDecides(start, answer, identity, ephemeral, timeout, now);
    var own := PairingTranscript(start.pairingID, answer.clientDeviceID, answer.clientDeviceName,
                                 answer.serverDeviceID, answer.serverDeviceName,
                                 PublicOf(identity), PublicOf(ephemeral),
                                 start.serverIdentityPublicKey, start.serverEphemeralPublicKey);
    var mine := Secrets(ephemeral, start.serverEphemeralPublicKey, identity, start.serverIdentityPublicKey);
    hide NewClientSession, ComputePairingConfirmation, ShortTranscript, PairingTranscript;
    if mine.Some? {
      ConfirmationDetermines(secrets, pin, t, mine.value, start.pin, own);
    }
  }
}
