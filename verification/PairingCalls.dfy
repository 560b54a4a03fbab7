/** What each call of the pairing manager answers and leaves, case by case, in terms of its inputs and of the random
    bytes it consumes. */
module PairingCalls {
  import opened Wrappers
  import opened Bytes
  import opened Streams
  import opened Symbolic
  import opened Encoding
  import opened Session
  import opened Handshake
  import opened Pairing
  import opened Agreement
  import PairingRuns
  import Pin

  // ---------- Randomness becoming keys and names ----------

  const HEX_DIGITS := "0123456789abcdef"

  /** Each byte is spelled with two lower-case digits, the high one first. */
  lemma {:induction false} HexSpells(bytes: seq<byte>, i: nat)
    requires i < |bytes|
    ensures Hex(bytes)[2 * i] == Lit(HEX_DIGITS[bytes[i] / 16] as int)
    ensures Hex(bytes)[2 * i + 1] == Lit(HEX_DIGITS[bytes[i] % 16] as int)
  {
    if i == 0 {
      DigitSpells(bytes[0] / 16);
      DigitSpells(bytes[0] % 16);
    } else {
      HexSpells(bytes[1..], i - 1);
    }
  }

  lemma DigitSpells(n: nat)
    requires n < 16
    ensures HexDigit(n) == Lit(HEX_DIGITS[n] as int)
  {
  }

  lemma {:induction false} HexInjective(a: seq<byte>, b: seq<byte>)
    requires Hex(a) == Hex(b)
    ensures a == b
  {
    assert |a| == |b|;
    if a != [] {
      assert Hex(a)[0] == Hex(b)[0] && Hex(a)[1] == Hex(b)[1];
      assert a[0] / 16 == b[0] / 16 && a[0] % 16 == b[0] % 16;
      assert Hex(a)[2..] == Hex(a[1..]) && Hex(b)[2..] == Hex(b[1..]);
      HexInjective(a[1..], b[1..]);
    }
  }

  /** How many random bytes making sure of the identity takes. */
  function IdentityBytes(store: StoreState): nat {
    if store.local.Some? then 0 else 32
  }

  predicate UsableIdentity(store: StoreState) {
    store.local.Some? ==> |store.local.value.privateKey| == 32
  }

  /** A stored identity is used as it is; without one, the first 32 random bytes become one and are stored. */
  lemma IdentityDrawn(store: StoreState, random: seq<byte>)
    ensures var (store', random', r) := LoadOrCreateLocalIdentity(store, random);
            && (r.Success? <==> UsableIdentity(store) && |random| >= IdentityBytes(store))
            && (r == Failure(ErrIdentity) <==> !UsableIdentity(store))
            && (r.Failure? ==> r == Failure(ErrIdentity) || r == Failure(PairingError.ErrRandom))
            && store'.trusted == store.trusted
            && match store.local
               case Some(identity) =>
                 && store' == store && random' == random
                 && (r.Success? ==> r.value == KeyPair(identity.privateKey, identity.publicKey))
               case None =>
                 if |random| < 32 then store' == store && random' == []
                 else
                   && random' == random[32..]
                   && store'.local == Some(LocalIdentity(random[..32], PublicOf(random[..32])))
                   && r == Success(KeyPair(random[..32], PublicOf(random[..32])))
  {
  }

  lemma SlicesFrom(s: seq<byte>, k: nat, i: nat, j: nat)
    requires k + i + j <= |s|
    ensures s[k..][..i] == s[k..k + i]
    ensures s[k..][i..][..j] == s[k + i..k + i + j]
    ensures s[k..][i..][j..] == s[k + i + j..]
  {
    assert s[k..][i..] == s[k + i..];
  }

  // ---------- Start ----------

  /** The sixth usable byte is in the stream from `from` on. */
  predicate PinFrom(random: seq<byte>, from: nat) {
    from <= |random| && |Pin.Usable(random[from..])| >= 6
  }

  /** `Start` succeeds exactly when the identity can be used and the random source lasts; ephemeral key, pairing id and
      PIN are the next 32 bytes, the 8 after them and the first six usable ones from there. */
  lemma StartDraws(m: ManagerState, now: int)
    ensures var (m', r) := StartStep(m, now);
            var k := IdentityBytes(m.store);
            && (r.Success? <==> UsableIdentity(m.store) && PinFrom(m.random, k + 40))
            && (r == Failure(ErrIdentity) <==> !UsableIdentity(m.store))
            && (r.Failure? ==>
                  m'.pending == m.pending && (r == Failure(ErrIdentity) || r == Failure(PairingError.ErrRandom)))
            && (r.Success? ==>
                  var usable := Pin.Usable(m.random[k + 40..]);
                  && |r.value.pin| == 6
                  && (forall i :: 0 <= i < 6 ==> r.value.pin[i] == Lit(48 + usable[i] % 10))
                  && r.value.pairingID == Hex(m.random[k + 32..k + 40])
                  && r.value.serverEphemeralPublicKey == PublicOf(m.random[k..k + 32])
                  && r.value.expiresAt == now + m.config.pairingTTL
                  && m'.pending.Some? && m'.pending.value.failures == 0
                  && m'.pending.value.serverEphemeral == KeyPair(m.random[k..k + 32], PublicOf(m.random[k..k + 32]))
                  && m'.store == LoadOrCreateLocalIdentity(m.store, m.random).0
                  && r.value.serverIdentityPublicKey == LoadOrCreateLocalIdentity(m.store, m.random).2.value.public)
  {
    var k := IdentityBytes(m.store);
    IdentityDrawn(m.store, m.random);
    var (store, random, identity) := LoadOrCreateLocalIdentity(m.store, m.random);
    if identity.Success? {
      assert random == m.random[k..];
      if |random| >= 40 {
        SlicesFrom(m.random, k, 32, 8);
        PinDigits(m.random[k + 40..]);
      }
    }
    hide Pin.Usable, Hex, PublicOf, Pin.PinStep;
  }

  /** The PIN spelled out. */
  lemma PinDigits(data: seq<byte>)
    ensures var r := Pin.PinStep(data).1;
            && (r.Some? <==> |Pin.Usable(data)| >= 6)
            && (r.Some? ==>
                  |r.value| == 6 && forall i :: 0 <= i < 6 ==> r.value[i] == 48 + Pin.Usable(data)[i] % 10)
  {
    Pin.PinIsFilterAndMap(data);
    hide Pin.Usable, Pin.PinStep;
  }

  // ---------- Complete ----------

  predicate Matches(m: ManagerState, r: PairingRequest) {
    m.pending.Some? && r.pairingID == m.pending.value.pairingID
  }

  /** The request is for the pending pairing, which is neither exhausted nor expired. */
  predicate Live(m: ManagerState, r: PairingRequest, now: int) {
    Matches(m, r) && m.pending.value.failures < m.config.maxFailures && now <= m.pending.value.expiresAt
  }

  predicate KeysHaveSize(r: PairingRequest) {
    |r.clientIdentityPublicKey| == 32 && |r.clientEphemeralPublicKey| == 32
  }

  predicate LowOrder(point: Octets) {
    point == Lits(Zeros(32))
  }

  /** What is refused before the confirmation is looked at, why, and that it changes nothing. */
  lemma CompleteRefusals(m: ManagerState, r: PairingRequest, at: CompleteClock)
    ensures var (m', result) := CompleteStep(m, r, at);
            && (!Matches(m, r) ==> (m', result) == (m, Failure(ErrInvalidPIN)))
            && (Matches(m, r) && m.pending.value.failures >= m.config.maxFailures ==>
                  (m', result) == (m, Failure(ErrRateLimited)))
            && (result == Failure(ErrExpiredPIN) <==>
                  && Matches(m, r) && m.pending.value.failures < m.config.maxFailures
                  && at.now > m.pending.value.expiresAt)
            && (result == Failure(ErrPublicKey) <==> Live(m, r, at.now) && !KeysHaveSize(r))
            && (result == Failure(ErrSharedSecret) <==>
                  Live(m, r, at.now) && KeysHaveSize(r)
                  && (LowOrder(r.clientIdentityPublicKey) || LowOrder(r.clientEphemeralPublicKey)))
            && (result in {Failure(ErrExpiredPIN), Failure(ErrPublicKey), Failure(ErrSharedSecret)} ==> m' == m)
  {
    hide ComputePairingConfirmation, DeriveSessionKeys, ServerTranscript;
  }

  predicate GoodPoints(r: PairingRequest) {
    KeysHaveSize(r) && !LowOrder(r.clientIdentityPublicKey) && !LowOrder(r.clientEphemeralPublicKey)
  }

  /** A session just opened at `now`, with the key of its own direction and that of the other. */
  predicate Opened(c: Config, s: SessionState, sessionID: Octets, keys: SessionKeys, now: int) {
    s == SessionState(sessionID, keys.serverToClient, keys.clientToServer, c.inactivityTimeout, Active, now, 1, 0, {})
  }

  /** What the confirmation decides: a wrong one is counted, the last allowed one is reported as such, and the right one
      is granted a session whose id is the next 32 random bytes. */
  lemma CompleteDecides(m: ManagerState, r: PairingRequest, at: CompleteClock)
    requires ValidConfig(m.config) && Live(m, r, at.now) && GoodPoints(r) && m.pending.value.pin != []
    ensures ServerSecrets(m.pending.value, r).Some?
    ensures var p := m.pending.value;
            var t := ServerTranscript(m.config, p, r);
            var secrets := ServerSecrets(p, r).value;
            var expected := ComputePairingConfirmation(secrets, p.pin, t).value;
            var (m', result) := CompleteStep(m, r, at);
            if r.clientConfirmation != expected then
              && m' == m.(pending := Some(p.(failures := p.failures + 1)))
              && result == Failure(if p.failures + 1 == m.config.maxFailures then ErrRateLimited else ErrInvalidPIN)
            else if |m.random| < 32 then
              m' == m.(random := []) && result == Failure(PairingError.ErrRandom)
            else
              var sessionID := Lits(m.random[..32]);
              var device := TrustedDevice(r.clientDeviceID, r.clientDeviceName, r.clientIdentityPublicKey,
                                          at.pairedAt, at.lastSeenAt);
              && m' == ManagerState(m.config, None,
                                    m.store.(trusted := m.store.trusted[r.clientDeviceID := device]), m.random[32..])
              && result.Success? && result.value.device == device
              && result.value.answer
                 == Answer(r.pairingID, sessionID, r.clientDeviceID, r.clientDeviceName, m.config.serverDeviceID,
                           m.config.serverDeviceName, p.serverIdentity.public, p.serverEphemeral.public, expected)
              && Opened(m.config, result.value.session, sessionID, DeriveSessionKeys(secrets, sessionID, t).value,
                        at.sessionStart)
  {
    hide TranscriptMac, ConfirmationKey, KeyMaterial, ServerTranscript;
  }

  /** Over runs: a pairing is completed no later than its time to live after it was started. */
  lemma CompletedInTime(m: ManagerState, now: int, calls: seq<PairingRuns.Call>, request: PairingRequest,
                        at: CompleteClock)
    requires StartStep(m, now).1.Success? && PairingRuns.NoStart(calls)
    requires CompleteStep(PairingRuns.Run(StartStep(m, now).0, calls), request, at).1.Success?
    ensures at.now <= now + m.config.pairingTTL
    ensures request.pairingID == StartStep(m, now).1.value.pairingID
  {
    var started := StartStep(m, now).0;
    StartDraws(m, now);
    assert started.pending.Some? && started.pending.value.expiresAt == now + m.config.pairingTTL
           && started.pending.value.pairingID == StartStep(m, now).1.value.pairingID by {
      hide Pin.PinStep;
    }
    SamePending(started, calls);
    var before := PairingRuns.Run(started, calls);
    CompleteRefusals(before, request, at);
    hide StartStep, CompleteStep, PairingRuns.Run;
  }

  lemma {:induction false} SamePending(m: ManagerState, calls: seq<PairingRuns.Call>)
    requires PairingRuns.NoStart(calls) && m.pending.Some?
    ensures var after := PairingRuns.Run(m, calls);
            after.pending.Some? ==>
              && after.pending.value.expiresAt == m.pending.value.expiresAt
              && after.pending.value.pairingID == m.pending.value.pairingID
    ensures PairingRuns.Run(m, calls).config == m.config
  {
    if calls != [] {
      var before, last := calls[..|calls| - 1], calls[|calls| - 1];
      SamePending(m, before);
      PairingRuns.PendingAfter(PairingRuns.Run(m, before), last);
    }
  }

  // ---------- Resume ----------

  predicate Trusts(m: ManagerState, r: ResumeRequest) {
    && r.clientDeviceID in m.store.trusted
    && m.store.trusted[r.clientDeviceID].identityPublicKey == r.clientIdentityPublicKey
  }

  /** A request that does not quote a trusted device's key changes nothing; any other is answered with fresh keys and a
      fresh session id, the next 32 random bytes each, or with the error of the first of these that fails. */
  lemma ResumeDecides(m: ManagerState, r: ResumeRequest, at: ResumeClock)
    requires ValidConfig(m.config)
    ensures var (m', result) := ResumeStep(m, r, at);
            var k := IdentityBytes(m.store);
            && (!Trusts(m, r) ==> (m', result) == (m, Failure(ErrUnknownDevice)))
            && (result == Failure(ErrIdentity) <==> Trusts(m, r) && !UsableIdentity(m.store))
            && (result == Failure(PairingError.ErrRandom) <==>
                  && Trusts(m, r) && UsableIdentity(m.store)
                  && (|m.random| < k + 32 || (PointsAgree(r) && |m.random| < k + 64)))
            && (result == Failure(ErrSharedSecret) <==>
                  Trusts(m, r) && UsableIdentity(m.store) && |m.random| >= k + 32 && !PointsAgree(r))
            && (result.Success? <==>
                  Trusts(m, r) && UsableIdentity(m.store) && |m.random| >= k + 64 && PointsAgree(r))
            && m'.config == m.config && m'.pending == m.pending
  {
    IdentityDrawn(m.store, m.random);
    hide ComputeResumeConfirmation, KeyMaterial, ResumeTranscript, PublicOf;
  }

  // Both of the client's public keys are points that agreement succeeds with.
  predicate PointsAgree(r: ResumeRequest) {
    && |r.clientIdentityPublicKey| == 32 && |r.clientEphemeralPublicKey| == 32
    && !LowOrder(r.clientIdentityPublicKey) && !LowOrder(r.clientEphemeralPublicKey)
  }

  lemma ResumeGrants(m: ManagerState, r: ResumeRequest, at: ResumeClock)
    requires ValidConfig(m.config) && Trusts(m, r) && UsableIdentity(m.store) && PointsAgree(r)
    requires |m.random| >= IdentityBytes(m.store) + 64 && PairingRuns.KeyedByID(m.store)
    ensures var k := IdentityBytes(m.store);
            var identity := LoadOrCreateLocalIdentity(m.store, m.random).2.value;
            var ephemeral := m.random[k..k + 32];
            var sessionID := Lits(m.random[k + 32..k + 64]);
            var t := ResumeTranscript(r.pairingID, r.clientDeviceID, r.clientDeviceName, m.config.serverDeviceID,
                                      m.config.serverDeviceName, r.clientIdentityPublicKey, r.clientEphemeralPublicKey,
                                      identity.public, PublicOf(ephemeral));
            var secrets := Secrets(ephemeral, r.clientEphemeralPublicKey, identity.private, r.clientIdentityPublicKey);
            var (m', result) := ResumeStep(m, r, at);
            && secrets.Some? && result.Success?
            && m'.random == m.random[k + 64..]
            && m'.store.local == LoadOrCreateLocalIdentity(m.store, m.random).0.local
            && m'.store.trusted
               == m.store.trusted[r.clientDeviceID := m.store.trusted[r.clientDeviceID].(lastSeenAt := at.lastSeenAt)]
            && result.value.device == m'.store.trusted[r.clientDeviceID]
            && result.value.answer
               == Answer(r.pairingID, sessionID, r.clientDeviceID, r.clientDeviceName, m.config.serverDeviceID,
                         m.config.serverDeviceName, identity.public, PublicOf(ephemeral),
                         ComputeResumeConfirmation(secrets.value, t))
            && Opened(m.config, result.value.session, sessionID, DeriveSessionKeys(secrets.value, sessionID, t).value,
                      at.sessionStart)
  {
    var k := IdentityBytes(m.store);
    IdentityDrawn(m.store, m.random);
    var random := LoadOrCreateLocalIdentity(m.store, m.random).1;
    assert random == m.random[k..];
    SlicesFrom(m.random, k, 32, 32);
    hide ComputeResumeConfirmation, KeyMaterial, ResumeTranscript, PublicOf;
  }
}
