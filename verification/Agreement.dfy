/** The handshake as a whole: both roles end with linked sessions, and only the right PIN gets there. */
module Agreement {
  import opened Wrappers
  import opened Bytes
  import opened Symbolic
  import opened Encoding
  import opened Session
  import opened Handshake
  import opened Pairing
  import Pin
  import Channel
  import PairingRuns

  /** The client's device id and name and its two private keys. */
  datatype Client = Client(deviceID: Octets, deviceName: Octets, identity: PrivateKey, ephemeral: PrivateKey)

  predicate GoodPair(k: KeyPair) {
    k.public == PublicOf(k.private)
  }

  /** A stored identity, if any, is a key pair this server generated. */
  predicate GoodStore(store: StoreState) {
    store.local.Some? ==>
      |store.local.value.privateKey| == KEY_SIZE
      && store.local.value.publicKey == PublicOf(store.local.value.privateKey)
  }

  predicate GoodPending(m: ManagerState) {
    m.pending.Some? ==>
      GoodPair(m.pending.value.serverIdentity) && GoodPair(m.pending.value.serverEphemeral)
      && |m.pending.value.pin| == Pin.PIN_LENGTH
  }

  /** Two sessions that are the two ends of one channel, before anything was sent. */
  predicate LinkedSessions(client: SessionState, server: SessionState) {
    && client.sessionID == server.sessionID
    && client.sendKey == server.receiveKey && server.sendKey == client.receiveKey
    && client.sendKey != server.sendKey
    && (forall s :: s in [client, server] ==>
         s.status.Active? && s.nextLocalSeq == 1 && s.lastRemoteSeq == 0 && s.seen == {})
  }

  lemma IdentityIsGood(store: StoreState, random: seq<byte>)
    requires GoodStore(store)
    ensures var (store', _, r) := LoadOrCreateLocalIdentity(store, random);
            && GoodStore(store') && store'.trusted == store.trusted
            && (r.Success? ==> GoodPair(r.value))
            && (r.Failure? ==> r == Failure(PairingError.ErrRandom) && |random| < KEY_SIZE)
            && (store.local.Some? ==> store' == store)
  {
  }

  /** Every reachable manager holds only key pairs it generated. */
  lemma {:induction false} KeysStayGood(m: ManagerState, calls: seq<PairingRuns.Call>)
    requires GoodStore(m.store) && GoodPending(m)
    ensures GoodStore(PairingRuns.Run(m, calls).store) && GoodPending(PairingRuns.Run(m, calls))
  {
    if calls != [] {
      KeysStayGood(m, calls[..|calls| - 1]);
      OneCallKeepsKeysGood(PairingRuns.Run(m, calls[..|calls| - 1]), calls[|calls| - 1]);
    }
  }

  lemma OneCallKeepsKeysGood(m: ManagerState, call: PairingRuns.Call)
    requires GoodStore(m.store) && GoodPending(m)
    ensures GoodStore(PairingRuns.Apply(m, call).store) && GoodPending(PairingRuns.Apply(m, call))
  {
    PairingRuns.PendingAfter(m, call);
    hide TranscriptOctets, Fields, ComputePairingConfirmation, ComputeResumeConfirmation, DeriveSessionKeys, Secrets;
  }

  /** What `Start` leaves pending is what it announced. */
  lemma StartAnnounces(m: ManagerState, now: int)
    requires GoodStore(m.store)
    ensures match StartStep(m, now)
            case (m', Success(start)) =>
              && m'.config == m.config && m'.pending.Some? && GoodPending(m')
              && var p := m'.pending.value;
                 && start == StartResponse(p.pairingID, p.pin, p.expiresAt,
                                           p.serverIdentity.public, p.serverEphemeral.public)
                 && p.expiresAt == now + m.config.pairingTTL && p.failures == 0
            case (m', Failure(_)) => m'.pending == m.pending
  {
  }

  /** The server end of a pairing that was started, is not exhausted and has randomness for a session id. */
  predicate Announced(m: ManagerState, start: StartResponse) {
    && ValidConfig(m.config) && GoodPending(m) && m.pending.Some?
    && var p := m.pending.value;
       && start == StartResponse(p.pairingID, p.pin, p.expiresAt, p.serverIdentity.public, p.serverEphemeral.public)
       && 0 <= p.failures < m.config.maxFailures && |m.random| >= SESSION_ID_SIZE
  }

  predicate Ready(m: ManagerState, start: StartResponse, now: int) {
    Announced(m, start) && now <= start.expiresAt
  }

  function RequestOf(m: ManagerState, start: StartResponse, c: Client, pin: Octets): Option<PairingRequest> {
    NewPairingRequest(start, c.identity, c.ephemeral, c.deviceID, c.deviceName,
                      m.config.serverDeviceID, m.config.serverDeviceName, pin)
  }

  lemma ServerView(m: ManagerState, start: StartResponse, now: int, c: Client, pin: Octets)
    requires Ready(m, start, now) && pin != []
    ensures var r := RequestOf(m, start, c, pin);
            && r.Some?
            && Precheck(m, r.value, now).None?
            && ServerSecrets(m.pending.value, r.value).Some?
            && r.value.clientConfirmation
               == ComputePairingConfirmation(ServerSecrets(m.pending.value, r.value).value, pin,
                                             ServerTranscript(m.config, m.pending.value, r.value)).value
  {
    hide TranscriptMac, ConfirmationKey;
    var p := m.pending.value;
    RolesAgree(c.identity, c.ephemeral, p.serverIdentity.private, p.serverEphemeral.private);
    hide Secrets;
  }

  /** An honest client is admitted exactly when it used the right PIN in time.  Then both ends derive linked sessions
      and the client accepts the server's confirmation.  A wrong PIN in time is counted, and no PIN is even looked at
      after the pairing has expired. */
  lemma PairingAgreement(m: ManagerState, start: StartResponse, c: Client, pin: Octets, at: CompleteClock,
                         timeout: int, now: int)
    requires Announced(m, start) && pin != [] && timeout > 0
    ensures RequestOf(m, start, c, pin).Some?
    ensures var (m', r) := CompleteStep(m, RequestOf(m, start, c, pin).value, at);
            && (r.Success? <==> pin == start.pin && at.now <= start.expiresAt)
            && (at.now > start.expiresAt ==> (m', r) == (m, Failure(ErrExpiredPIN)))
            && (pin != start.pin && at.now <= start.expiresAt ==>
                  && m' == m.(pending := Some(m.pending.value.(failures := m.pending.value.failures + 1)))
                  && (r == Failure(ErrInvalidPIN) || r == Failure(ErrRateLimited)))
            && (pin == start.pin && at.now <= start.expiresAt ==>
                  && m'.pending.None? && c.deviceID in m'.store.trusted
                  && m'.store.trusted[c.deviceID].identityPublicKey == PublicOf(c.identity)
                  && var client := NewClientSession(start, r.value.answer, c.identity, c.ephemeral, timeout, now);
                     client.Some? && LinkedSessions(client.value, r.value.session))
  {
    ServerView(m, start, start.expiresAt, c, pin);
    var request := RequestOf(m, start, c, pin).value;
    var p := m.pending.value;
    var secrets := ServerSecrets(p, request).value;
    var t := ServerTranscript(m.config, p, request);
    ConfirmationDetermines(secrets, pin, t, secrets, p.pin, t);
    hide ComputePairingConfirmation;
    if pin == start.pin && at.now <= start.expiresAt {
      Linking(m, start, c, secrets, t, at, timeout, now);
    }
  }

  lemma Linking(m: ManagerState, start: StartResponse, c: Client, secrets: seq<Octets>, t: Transcript,
                at: CompleteClock, timeout: int, now: int)
    requires Ready(m, start, at.now) && timeout > 0
    requires RequestOf(m, start, c, start.pin).Some?
    requires var r := RequestOf(m, start, c, start.pin).value;
             && t == ServerTranscript(m.config, m.pending.value, r)
             && ServerSecrets(m.pending.value, r) == Some(secrets)
    ensures var r := RequestOf(m, start, c, start.pin).value;
            var (m', g) := Admit(m, r, secrets, t, r.clientConfirmation, at);
            && g.Success?
            && var client := NewClientSession(start, g.value.answer, c.identity, c.ephemeral, timeout, now);
               client.Some? && LinkedSessions(client.value, g.value.session)
  {
    var p := m.pending.value;
    var sessionID := Lits(m.random[..SESSION_ID_SIZE]);
    RolesAgree(c.identity, c.ephemeral, p.serverIdentity.private, p.serverEphemeral.private);
    KeysDetermine(secrets, sessionID, t, secrets, sessionID, t);
    hide TranscriptMac, ConfirmationKey, KeyMaterial, Secrets;
  }

  /** A resume succeeds, while there is randomness, exactly when it quotes the identity key that the device is trusted
      with; the holder of that identity then ends in a session linked to the server's. */
  lemma ResumeAgreement(m: ManagerState, c: Client, pairingID: Octets, at: ResumeClock, timeout: int, now: int)
    requires ValidConfig(m.config) && GoodStore(m.store) && |m.random| >= 3 * KEY_SIZE && timeout > 0
    requires PairingRuns.KeyedByID(m.store)
    ensures var request := ResumeRequest(pairingID, c.deviceID, c.deviceName,
                                         PublicOf(c.identity), PublicOf(c.ephemeral));
            var (m', r) := ResumeStep(m, request, at);
            && (r.Success? <==> && c.deviceID in m.store.trusted
                                && m.store.trusted[c.deviceID].identityPublicKey == PublicOf(c.identity))
            && (r.Failure? ==> r == Failure(ErrUnknownDevice) && m' == m)
            && (r.Success? ==>
                  var client := NewResumedClientSession(pairingID, r.value.answer, c.identity, c.ephemeral,
                                                        timeout, now);
                  client.Some? && LinkedSessions(client.value, r.value.session))
  {
    var request := ResumeRequest(pairingID, c.deviceID, c.deviceName, PublicOf(c.identity), PublicOf(c.ephemeral));
    hide TranscriptOctets, Fields, TranscriptMac, ConfirmationKey;
    IdentityIsGood(m.store, m.random);
    var (store, random, identity) := LoadOrCreateLocalIdentity(m.store, m.random);
    var (random', ephemeral) := GenerateKeyPair(random);
    RolesAgree(c.identity, c.ephemeral, identity.value.private, ephemeral.value.private);
    var t := ResumeTranscript(pairingID, c.deviceID, c.deviceName, m.config.serverDeviceID, m.config.serverDeviceName,
                              PublicOf(c.identity), PublicOf(c.ephemeral),
                              identity.value.public, ephemeral.value.public);
    var secrets := Secrets(ephemeral.value.private, PublicOf(c.ephemeral),
                           identity.value.private, PublicOf(c.identity)).value;
    var sessionID := Lits(random'[..SESSION_ID_SIZE]);
    KeysDetermine(secrets, sessionID, t, secrets, sessionID, t);
    hide ComputeResumeConfirmation, KeyMaterial, Secrets, PublicOf;
  }

  /** Whoever computed it and from whatever, a confirmation is accepted only if it was computed over the server's own
      transcript, secrets and PIN. */
  lemma OnlyTheTranscriptIsAccepted(m: ManagerState, request: PairingRequest, at: CompleteClock,
                                    secrets: seq<Octets>, pin: Octets, t: Transcript)
    requires pin != [] && AllShort(secrets) && ShortTranscript(t)
    requires m.pending.Some? && m.pending.value.pin != []
    requires Some(request.clientConfirmation) == ComputePairingConfirmation(secrets, pin, t)
    requires ShortTranscript(ServerTranscript(m.config, m.pending.value, request))
    ensures CompleteStep(m, request, at).1.Success? ==>
              && pin == m.pending.value.pin
              && t == ServerTranscript(m.config, m.pending.value, request)
              && Some(secrets) == ServerSecrets(m.pending.value, request)
  {
    var p := m.pending.value;
    if CompleteStep(m, request, at).1.Success? {
      PairingRuns.EnrolsIsNoGuess(m, PairingRuns.Complete(request, at));
      var own := ServerSecrets(p, request).value;
      assert AllShort(secrets + own);
      ConfirmationDetermines(secrets, pin, t, own, p.pin, ServerTranscript(m.config, p, request));
      hide ComputePairingConfirmation, ShortTranscript, Secrets;
    }
  }

  /** From handshake to channel: whatever the network does after a pairing, in both directions what is accepted is a
      prefix of what was encrypted. */
  lemma PairedChannelIsSafe(m: ManagerState, start: StartResponse, c: Client, at: CompleteClock, timeout: int, now: int,
                            events: seq<Channel.Event>)
    requires Ready(m, start, at.now) && timeout > 0
    ensures RequestOf(m, start, c, start.pin).Some?
    ensures var r := CompleteStep(m, RequestOf(m, start, c, start.pin).value, at).1;
            && r.Success?
            && var client := NewClientSession(start, r.value.answer, c.identity, c.ephemeral, timeout, now);
               && client.Some?
               && var link := Channel.Link(Channel.Endpoint(client.value, [], []),
                                           Channel.Endpoint(r.value.session, [], []));
                  Channel.AdmissibleRun(link, events) && Channel.WithinCounter(Channel.RunLink(link, events)) ==>
                    Channel.Safe(Channel.RunLink(link, events))
  {
    PairingAgreement(m, start, c, start.pin, at, timeout, now);
    var r := CompleteStep(m, RequestOf(m, start, c, start.pin).value, at).1;
    var client := NewClientSession(start, r.value.answer, c.identity, c.ephemeral, timeout, now).value;
    hide CompleteStep, NewClientSession, NewPairingRequest;
    var link := Channel.Link(Channel.Endpoint(client, [], []), Channel.Endpoint(r.value.session, [], []));
    assert client in [client, r.value.session] && r.value.session in [client, r.value.session];
    if Channel.AdmissibleRun(link, events) && Channel.WithinCounter(Channel.RunLink(link, events)) {
      Channel.ChannelSafety(link, events);
    }
  }

  /** The phone sends the confirmation and seals under the key that the server expects of it. */
  lemma PhoneAgrees(m: ManagerState, start: StartResponse, c: Client, at: CompleteClock)
    requires Ready(m, start, at.now)
    ensures RequestOf(m, start, c, start.pin).Some?
    ensures var request := RequestOf(m, start, c, start.pin).value;
            && PhoneConfirmation(start.pin, start.pairingID, c.deviceID, c.deviceName, m.config.serverDeviceID,
                                 m.config.serverDeviceName, start.serverIdentityPublicKey,
                                 start.serverEphemeralPublicKey, c.identity, c.ephemeral)
               == Some(request.clientConfirmation)
            && var r := CompleteStep(m, request, at).1;
               && r.Success?
               && PhoneSendKey(FLOW_PAIRING, start.pairingID, r.value.answer, c.identity, c.ephemeral)
                  == Some(r.value.session.receiveKey)
  {
    PairingAgreement(m, start, c, start.pin, at, 1, 0);
    var p := m.pending.value;
    RolesAgree(c.identity, c.ephemeral, p.serverIdentity.private, p.serverEphemeral.private);
    hide TranscriptMac, ConfirmationKey, KeyMaterial, Secrets, Precheck;
  }

  /** After a resume too, the phone seals under the key that the server receives with. */
  lemma PhoneResumes(m: ManagerState, c: Client, pairingID: Octets, at: ResumeClock)
    requires ValidConfig(m.config) && GoodStore(m.store) && |m.random| >= 3 * KEY_SIZE
    requires PairingRuns.KeyedByID(m.store)
    requires c.deviceID in m.store.trusted && m.store.trusted[c.deviceID].identityPublicKey == PublicOf(c.identity)
    ensures var request := ResumeRequest(pairingID, c.deviceID, c.deviceName,
                                         PublicOf(c.identity), PublicOf(c.ephemeral));
            var r := ResumeStep(m, request, at).1;
            && r.Success?
            && PhoneSendKey(FLOW_RESUME, pairingID, r.value.answer, c.identity, c.ephemeral)
               == Some(r.value.session.receiveKey)
  {
    ResumeAgreement(m, c, pairingID, at, 1, 0);
    IdentityIsGood(m.store, m.random);
    var (store, random, identity) := LoadOrCreateLocalIdentity(m.store, m.random);
    var ephemeral := GenerateKeyPair(random).1;
    RolesAgree(c.identity, c.ephemeral, identity.value.private, ephemeral.value.private);
    hide ComputeResumeConfirmation, KeyMaterial, Secrets, PublicOf, TranscriptOctets;
  }

  /** A message sealed for one session is rejected by every other: the keys of sessions with different ids differ. */
  lemma SessionsAreSeparate(s1: seq<Octets>, id1: Octets, t1: Transcript, s2: seq<Octets>, id2: Octets, t2: Transcript,
                            server: SessionState, message: EncryptedMessage, plaintext: Octets, at: Clock)
    requires id1 != [] && id2 != [] && id1 != id2
    requires Canonical(server)
    requires server.receiveKey == DeriveSessionKeys(s2, id2, t2).value.clientToServer
    requires message.ciphertext + message.tag
             == SealOctets(DeriveSessionKeys(s1, id1, t1).value.clientToServer, message.nonce, plaintext,
                           HeaderOctets(message.AsHeader()))
    ensures DecryptStep(server, message, at).1.Failure?
  {
    KeysDetermine(s1, id1, t1, s2, id2, t2);
    hide DeriveSessionKeys, HeaderOctets;
    var r := DecryptStep(server, message, at).1;
    if r.Success? {
      AcceptedIff(server, message, at, r.value);
    }
  }
}
