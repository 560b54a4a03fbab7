/** The server's pairing manager: PIN-confirmed pairing, resume, and the trusted-device store. */
module Pairing {
  import opened Wrappers
  import opened Bytes
  import opened Streams
  import opened Symbolic
  import opened Encoding
  import opened Session
  import opened Handshake
  import Pin

  datatype PairingError =
    | ErrInvalidPIN
    | ErrRateLimited
    | ErrExpiredPIN
    | ErrUnknownDevice
    | ErrPublicKey
    | ErrSharedSecret
    | ErrConfirmation
    | ErrIdentity
    | ErrRandom
    | ErrSession

  datatype Config = Config(
    serverDeviceID: Octets,
    serverDeviceName: Octets,
    pairingTTL: int,
    inactivityTimeout: int,
    maxFailures: int)

  datatype KeyPair = KeyPair(private: PrivateKey, public: Octets)

  datatype LocalIdentity = LocalIdentity(privateKey: seq<byte>, publicKey: Octets)

  datatype TrustedDevice = TrustedDevice(
    deviceID: Octets,
    deviceName: Octets,
    identityPublicKey: Octets,
    pairedAt: int,
    lastSeenAt: int)

  datatype Pending = Pending(
    pairingID: Octets,
    pin: Octets,
    expiresAt: int,
    failures: int,
    serverIdentity: KeyPair,
    serverEphemeral: KeyPair)

  datatype StoreState = StoreState(local: Option<LocalIdentity>, trusted: map<Octets, TrustedDevice>)

  datatype ManagerState = ManagerState(config: Config, pending: Option<Pending>, store: StoreState, random: seq<byte>)

  /** What a successful `Complete` or `Resume` returns. */
  datatype Grant = Grant(answer: Answer, device: TrustedDevice, session: SessionState)

  /** The clock readings of one call, in order. */
  datatype CompleteClock = CompleteClock(now: int, sessionStart: int, pairedAt: int, lastSeenAt: int)
  datatype ResumeClock = ResumeClock(sessionStart: int, lastSeenAt: int)

  const SECOND: int := 1_000_000_000
  const PAIRING_ID_SIZE: nat := 8

  function NewConfig(c: Config): (r: Config)
    ensures ValidConfig(r) && (ValidConfig(c) ==> r == c)
  {
    Config(c.serverDeviceID, c.serverDeviceName,
           if c.pairingTTL <= 0 then 120 * SECOND else c.pairingTTL,
           if c.inactivityTimeout <= 0 then 30 * SECOND else c.inactivityTimeout,
           if c.maxFailures <= 0 then 3 else c.maxFailures)
  }

  predicate ValidConfig(c: Config) {
    c.pairingTTL > 0 && c.inactivityTimeout > 0 && c.maxFailures > 0
  }

  function HexDigit(n: nat): Octet
    requires n < 16
  {
    Lit(if n < 10 then 48 + n else 87 + n)
  }

  function Hex(bytes: seq<byte>): (r: Octets)
    ensures |r| == 2 * |bytes|
  {
    if bytes == [] then [] else [HexDigit(bytes[0] / 16), HexDigit(bytes[0] % 16)] + Hex(bytes[1..])
  }

  function ValidatePublicKey(key: Octets): bool {
    |key| == KEY_SIZE
  }

  function GenerateKeyPair(random: seq<byte>): (seq<byte>, Option<KeyPair>) {
    var (rest, bytes) := Take(random, KEY_SIZE);
    (rest, if bytes.None? then None else Some(KeyPair(bytes.value, PublicOf(bytes.value))))
  }

  function LoadOrCreateLocalIdentity(store: StoreState, random: seq<byte>)
    : (StoreState, seq<byte>, Result<KeyPair, PairingError>)
  {
    match store.local
    case Some(identity) =>
      (store, random,
       if |identity.privateKey| != KEY_SIZE then Failure(ErrIdentity)
       else Success(KeyPair(identity.privateKey, identity.publicKey)))
    case None =>
      var (rest, pair) := GenerateKeyPair(random);
      if pair.None? then (store, rest, Failure(PairingError.ErrRandom))
      else (store.(local := Some(LocalIdentity(pair.value.private, pair.value.public))), rest, Success(pair.value))
  }

  function StartStep(m: ManagerState, now: int): (ManagerState, Result<StartResponse, PairingError>) {
    var (store, random, identity) := LoadOrCreateLocalIdentity(m.store, m.random);
    if identity.Failure? then (m.(store := store, random := random), Failure(identity.error))
    else
      var (random, ephemeral) := GenerateKeyPair(random);
      if ephemeral.None? then (m.(store := store, random := random), Failure(PairingError.ErrRandom))
      else
        var (random, id) := Take(random, PAIRING_ID_SIZE);
        if id.None? then (m.(store := store, random := random), Failure(PairingError.ErrRandom))
        else
          var (random, pin) := Pin.PinStep(random);
          if pin.None? then (m.(store := store, random := random), Failure(PairingError.ErrRandom))
          else
            var start := StartResponse(Hex(id.value), Lits(pin.value), now + m.config.pairingTTL,
                                       identity.value.public, ephemeral.value.public);
            (ManagerState(m.config,
                          Some(Pending(start.pairingID, start.pin, start.expiresAt, 0,
                                       identity.value, ephemeral.value)),
                          store, random),
             Success(start))
  }

  function ServerTranscript(c: Config, p: Pending, r: PairingRequest): Transcript {
    PairingTranscript(r.pairingID, r.clientDeviceID, r.clientDeviceName, c.serverDeviceID, c.serverDeviceName,
                      r.clientIdentityPublicKey, r.clientEphemeralPublicKey,
                      p.serverIdentity.public, p.serverEphemeral.public)
  }

  function ServerSecrets(p: Pending, r: PairingRequest): Option<seq<Octets>> {
    Secrets(p.serverEphemeral.private, r.clientEphemeralPublicKey, p.serverIdentity.private, r.clientIdentityPublicKey)
  }

  /** The checks made before any cryptography. */
  function Precheck(m: ManagerState, r: PairingRequest, now: int): Option<PairingError> {
    if m.pending.None? || r.pairingID != m.pending.value.pairingID then Some(ErrInvalidPIN)
    else if m.pending.value.failures >= m.config.maxFailures then Some(ErrRateLimited)
    else if now > m.pending.value.expiresAt then Some(ErrExpiredPIN)
    else if !ValidatePublicKey(r.clientIdentityPublicKey) then Some(ErrPublicKey)
    else if !ValidatePublicKey(r.clientEphemeralPublicKey) then Some(ErrPublicKey)
    else None
  }

  /** The session a handshake ends in: the server sends with the server-to-client key. */
  function ServerSession(c: Config, secrets: seq<Octets>, sessionID: Octets, t: Transcript, now: int)
    : Result<SessionState, PairingError>
  {
    match DeriveSessionKeys(secrets, sessionID, t)
    case None => Failure(ErrSession)
    case Some(keys) =>
      match NewSession(sessionID, keys.serverToClient, keys.clientToServer, c.inactivityTimeout, now)
      case Failure(_) => Failure(ErrSession)
      case Success(state) => Success(state)
  }

  function CompleteStep(m: ManagerState, r: PairingRequest, at: CompleteClock)
    : (ManagerState, Result<Grant, PairingError>)
  {
    var rejected := Precheck(m, r, at.now);
    if rejected.Some? then (m, Failure(rejected.value))
    else
      var p := m.pending.value;
      var t := ServerTranscript(m.config, p, r);
      match ServerSecrets(p, r)
      case None => (m, Failure(ErrSharedSecret))
      case Some(secrets) =>
        match ComputePairingConfirmation(secrets, p.pin, t)
        case None => (m, Failure(ErrConfirmation))
        case Some(expected) =>
          if r.clientConfirmation != expected then
            (m.(pending := Some(p.(failures := p.failures + 1))),
             Failure(if p.failures + 1 >= m.config.maxFailures then ErrRateLimited else ErrInvalidPIN))
          else Admit(m, r, secrets, t, expected, at)
  }

  function Admit(m: ManagerState, r: PairingRequest, secrets: seq<Octets>, t: Transcript, confirmation: Octets,
                 at: CompleteClock): (ManagerState, Result<Grant, PairingError>)
    requires m.pending.Some?
  {
    var p := m.pending.value;
    var (random, sessionID) := Take(m.random, SESSION_ID_SIZE);
    if sessionID.None? then (m.(random := random), Failure(PairingError.ErrRandom))
    else
      match ServerSession(m.config, secrets, Lits(sessionID.value), t, at.sessionStart)
      case Failure(e) => (m.(random := random), Failure(e))
      case Success(session) =>
        var device := TrustedDevice(r.clientDeviceID, r.clientDeviceName, r.clientIdentityPublicKey,
                                    at.pairedAt, at.lastSeenAt);
        (ManagerState(m.config, None, m.store.(trusted := m.store.trusted[device.deviceID := device]), random),
         Success(Grant(Answer(r.pairingID, Lits(sessionID.value), r.clientDeviceID, r.clientDeviceName,
                              m.config.serverDeviceID, m.config.serverDeviceName,
                              p.serverIdentity.public, p.serverEphemeral.public, confirmation),
                       device, session)))
  }

  function ResumeStep(m: ManagerState, r: ResumeRequest, at: ResumeClock)
    : (ManagerState, Result<Grant, PairingError>)
  {
    if r.clientDeviceID !in m.store.trusted
       || m.store.trusted[r.clientDeviceID].identityPublicKey != r.clientIdentityPublicKey
    then (m, Failure(ErrUnknownDevice))
    else
      var (store, random, identity) := LoadOrCreateLocalIdentity(m.store, m.random);
      if identity.Failure? then (m.(store := store, random := random), Failure(identity.error))
      else
        var (random, ephemeral) := GenerateKeyPair(random);
        if ephemeral.None? then (m.(store := store, random := random), Failure(PairingError.ErrRandom))
        else Readmit(m.(store := store, random := random), r, identity.value, ephemeral.value, at)
  }

  function Readmit(m: ManagerState, r: ResumeRequest, identity: KeyPair, ephemeral: KeyPair, at: ResumeClock)
    : (ManagerState, Result<Grant, PairingError>)
    requires r.clientDeviceID in m.store.trusted
  {
    var t := ResumeTranscript(r.pairingID, r.clientDeviceID, r.clientDeviceName,
                              m.config.serverDeviceID, m.config.serverDeviceName,
                              r.clientIdentityPublicKey, r.clientEphemeralPublicKey, identity.public, ephemeral.public);
    match Secrets(ephemeral.private, r.clientEphemeralPublicKey, identity.private, r.clientIdentityPublicKey)
    case None => (m, Failure(ErrSharedSecret))
    case Some(secrets) =>
      var confirmation := ComputeResumeConfirmation(secrets, t);
      var (random, sessionID) := Take(m.random, SESSION_ID_SIZE);
      if sessionID.None? then (m.(random := random), Failure(PairingError.ErrRandom))
      else
        match ServerSession(m.config, secrets, Lits(sessionID.value), t, at.sessionStart)
        case Failure(e) => (m.(random := random), Failure(e))
        case Success(session) =>
          var device := m.store.trusted[r.clientDeviceID].(lastSeenAt := at.lastSeenAt);
          (m.(store := m.store.(trusted := m.store.trusted[device.deviceID := device]), random := random),
           Success(Grant(Answer(r.pairingID, Lits(sessionID.value), r.clientDeviceID, r.clientDeviceName,
                                m.config.serverDeviceID, m.config.serverDeviceName,
                                identity.public, ephemeral.public, confirmation),
                         device, session)))
  }

  function ForgetStep(m: ManagerState, deviceID: Octets): ManagerState {
    m.(store := m.store.(trusted := m.store.trusted - {deviceID}))
  }

  // ---------- The store and the manager, as objects ----------

  class FakeStore {
    var local: Option<LocalIdentity>
    var trusted: map<Octets, TrustedDevice>

    function State(): StoreState
      reads this
    {
      StoreState(local, trusted)
    }

    constructor ()
      ensures State() == StoreState(None, map[])
    {
      local := None;
      trusted := map[];
    }

    method SaveLocalIdentity(identity: LocalIdentity)
      modifies this
      ensures State() == old(State()).(local := Some(identity))
    {
      local := Some(identity);
    }

    method LoadTrustedDevice(deviceID: Octets) returns (r: Option<TrustedDevice>)
      ensures r == if deviceID in trusted then Some(trusted[deviceID]) else None
    {
      if deviceID !in trusted {
        return None;
      }
      r := Some(trusted[deviceID]);
    }

    method SaveTrustedDevice(device: TrustedDevice)
      modifies this
      ensures State() == old(State()).(trusted := old(trusted)[device.deviceID := device])
    {
      trusted := trusted[device.deviceID := device];
    }

    method DeleteTrustedDevice(deviceID: Octets)
      modifies this
      ensures State() == old(State()).(trusted := old(trusted) - {deviceID})
    {
      trusted := trusted - {deviceID};
    }
  }

  method GenerateX25519KeyPair(reader: Reader) returns (r: Option<KeyPair>)
    modifies reader
    ensures (reader.data, r) == GenerateKeyPair(old(reader.data))
    ensures if |old(reader.data)| < 32 then r.None? && reader.data == []
            else
              && r == Some(KeyPair(old(reader.data)[..32], PublicOf(old(reader.data)[..32])))
              && reader.data == old(reader.data)[32..]
  {
    var bytes := reader.ReadFull(KEY_SIZE);
    if bytes.None? {
      return None;
    }
    r := Some(KeyPair(bytes.value, PublicOf(bytes.value)));
  }

  method LoadOrCreate(store: FakeStore, reader: Reader) returns (r: Result<KeyPair, PairingError>)
    modifies store, reader
    ensures (store.State(), reader.data, r) == LoadOrCreateLocalIdentity(old(store.State()), old(reader.data))
  {
    if store.local.Some? {
      var identity := store.local.value;
      if |identity.privateKey| != KEY_SIZE {
        return Failure(ErrIdentity);
      }
      return Success(KeyPair(identity.privateKey, identity.publicKey));
    }
    var generated := GenerateX25519KeyPair(reader);
    if generated.None? {
      return Failure(PairingError.ErrRandom);
    }
    store.SaveLocalIdentity(LocalIdentity(generated.value.private, generated.value.public));
    r := Success(generated.value);
  }

  class Manager {
    const config: Config
    const store: FakeStore
    const random: Reader
    var pending: Option<Pending>

    function State(): ManagerState
      reads this, store, random
    {
      ManagerState(config, pending, store.State(), random.data)
    }

    constructor (config: Config, store: FakeStore, random: Reader)
      ensures this.store == store && this.random == random
      ensures State() == ManagerState(NewConfig(config), None, store.State(), random.data)
      ensures State().config
              == Config(config.serverDeviceID, config.serverDeviceName,
                        if config.pairingTTL <= 0 then 120_000_000_000 else config.pairingTTL,
                        if config.inactivityTimeout <= 0 then 30_000_000_000 else config.inactivityTimeout,
                        if config.maxFailures <= 0 then 3 else config.maxFailures)
    {
      this.config := NewConfig(config);
      this.store := store;
      this.random := random;
      this.pending := None;
    }

    method Start(now: int) returns (r: Result<StartResponse, PairingError>)
      modifies this, store, random
      ensures (State(), r) == StartStep(old(State()), now)
    {
      var identity := LoadOrCreate(store, random);
      if identity.Failure? {
        return Failure(identity.error);
      }
      var ephemeral := GenerateX25519KeyPair(random);
      if ephemeral.None? {
        return Failure(PairingError.ErrRandom);
      }
      var id := random.ReadFull(PAIRING_ID_SIZE);
      if id.None? {
        return Failure(PairingError.ErrRandom);
      }
      var pin := Pin.RandomPIN(random);
      if pin.None? {
        return Failure(PairingError.ErrRandom);
      }
      var start := StartResponse(Hex(id.value), Lits(pin.value), now + config.pairingTTL,
                                 identity.value.public, ephemeral.value.public);
      pending := Some(Pending(start.pairingID, start.pin, start.expiresAt, 0, identity.value, ephemeral.value));
      r := Success(start);
    }

    method Complete(request: PairingRequest, at: CompleteClock)
      returns (r: Result<Grant, PairingError>, machine: StateMachine?)
      modifies this, store, random
      ensures (State(), r) == CompleteStep(old(State()), request, at)
      ensures r.Success? ==> machine != null && fresh(machine) && machine.Contents() == r.value.session
    {
      machine := null;
      if pending.None? || request.pairingID != pending.value.pairingID {
        return Failure(ErrInvalidPIN), null;
      }
      var p := pending.value;
      if p.failures >= config.maxFailures {
        return Failure(ErrRateLimited), null;
      }
      if at.now > p.expiresAt {
        return Failure(ErrExpiredPIN), null;
      }
      if !ValidatePublicKey(request.clientIdentityPublicKey) {
        return Failure(ErrPublicKey), null;
      }
      if !ValidatePublicKey(request.clientEphemeralPublicKey) {
        return Failure(ErrPublicKey), null;
      }
      var t := PairingTranscript(request.pairingID, request.clientDeviceID, request.clientDeviceName,
                                 config.serverDeviceID, config.serverDeviceName,
                                 request.clientIdentityPublicKey, request.clientEphemeralPublicKey,
                                 p.serverIdentity.public, p.serverEphemeral.public);
      var secrets := Secrets(p.serverEphemeral.private, request.clientEphemeralPublicKey,
                             p.serverIdentity.private, request.clientIdentityPublicKey);
      if secrets.None? {
        return Failure(ErrSharedSecret), null;
      }
      var expected := ComputePairingConfirmation(secrets.value, p.pin, t);
      if expected.None? {
        return Failure(ErrConfirmation), null;
      }
      if request.clientConfirmation != expected.value {
        pending := Some(p.(failures := p.failures + 1));
        if p.failures + 1 >= config.maxFailures {
          return Failure(ErrRateLimited), null;
        }
        return Failure(ErrInvalidPIN), null;
      }
      var bytes := random.ReadFull(SESSION_ID_SIZE);
      if bytes.None? {
        return Failure(PairingError.ErrRandom), null;
      }
      var sessionID := Lits(bytes.value);
      var keys := DeriveSessionKeys(secrets.value, sessionID, t);
      if keys.None? {
        return Failure(ErrSession), null;
      }
      machine := NewStateMachine(sessionID, keys.value.serverToClient, keys.value.clientToServer,
                                 config.inactivityTimeout, at.sessionStart);
      if machine == null {
        return Failure(ErrSession), null;
      }
      var device := TrustedDevice(request.clientDeviceID, request.clientDeviceName,
                                  request.clientIdentityPublicKey, at.pairedAt, at.lastSeenAt);
      store.SaveTrustedDevice(device);
      pending := None;
      r := Success(Grant(Answer(request.pairingID, sessionID, request.clientDeviceID, request.clientDeviceName,
                                config.serverDeviceID, config.serverDeviceName,
                                p.serverIdentity.public, p.serverEphemeral.public, expected.value),
                         device, machine.Contents()));
    }

    method Resume(request: ResumeRequest, at: ResumeClock)
      returns (r: Result<Grant, PairingError>, machine: StateMachine?)
      modifies this, store, random
      ensures (State(), r) == ResumeStep(old(State()), request, at)
      ensures r.Success? ==> machine != null && fresh(machine) && machine.Contents() == r.value.session
    {
      machine := null;
      var trusted := store.LoadTrustedDevice(request.clientDeviceID);
      if trusted.None? {
        return Failure(ErrUnknownDevice), null;
      }
      var device := trusted.value;
      if device.identityPublicKey != request.clientIdentityPublicKey {
        return Failure(ErrUnknownDevice), null;
      }
      var identity := LoadOrCreate(store, random);
      if identity.Failure? {
        return Failure(identity.error), null;
      }
      var ephemeral := GenerateX25519KeyPair(random);
      if ephemeral.None? {
        return Failure(PairingError.ErrRandom), null;
      }
      var t := ResumeTranscript(request.pairingID, request.clientDeviceID, request.clientDeviceName,
                                config.serverDeviceID, config.serverDeviceName,
                                request.clientIdentityPublicKey, request.clientEphemeralPublicKey,
                                identity.value.public, ephemeral.value.public);
      var secrets := Secrets(ephemeral.value.private, request.clientEphemeralPublicKey,
                             identity.value.private, request.clientIdentityPublicKey);
      if secrets.None? {
        return Failure(ErrSharedSecret), null;
      }
      var confirmation := ComputeResumeConfirmation(secrets.value, t);
      var bytes := random.ReadFull(SESSION_ID_SIZE);
      if bytes.None? {
        return Failure(PairingError.ErrRandom), null;
      }
      var sessionID := Lits(bytes.value);
      var keys := DeriveSessionKeys(secrets.value, sessionID, t);
      if keys.None? {
        return Failure(ErrSession), null;
      }
      machine := NewStateMachine(sessionID, keys.value.serverToClient, keys.value.clientToServer,
                                 config.inactivityTimeout, at.sessionStart);
      if machine == null {
        return Failure(ErrSession), null;
      }
      device := device.(lastSeenAt := at.lastSeenAt);
      store.SaveTrustedDevice(device);
      r := Success(Grant(Answer(request.pairingID, sessionID, request.clientDeviceID, request.clientDeviceName,
                                config.serverDeviceID, config.serverDeviceName,
                                identity.value.public, ephemeral.value.public, confirmation),
                         device, machine.Contents()));
    }

    method ForgetDevice(deviceID: Octets)
      modifies store
      ensures State() == ForgetStep(old(State()), deviceID)
    {
      store.DeleteTrustedDevice(deviceID);
    }
  }
}
