/** A network that hears everything, holds private keys of its own and applies any operation, but has to work for what
    it sends: it cannot make a message that either end would take for the other's. */
module Network {
  import opened Bytes
  import opened Symbolic
  import opened Encoding
  import opened Session
  import opened Channel
  import Handshake
  import Pairing
  import Agreement

  // ---------- What can be derived ----------

  ghost predicate Has(know: iset<Octet>, s: Octets) {
    forall i :: 0 <= i < |s| ==> s[i] in know
  }

  /** The operations whose output can be computed from private keys in `own` and octets in `know`. */
  ghost predicate Makes(own: iset<PrivateKey>, know: iset<Octet>, t: Term) {
    match t
    case PublicKey(_) => true
    case SharedSecret(keys) => exists x :: x in keys && x in own
    case ForeignSecret(x, point) => x in own && Has(know, point)
    case Hash(data) => Has(know, data)
    case Mac(key, data) => Has(know, key) && Has(know, data)
    case Hkdf(secret, salt, info) => Has(know, secret) && Has(know, salt) && Has(know, info)
    case Sealed(key, nonce, plaintext, additional) =>
      Has(know, key) && Has(know, nonce) && Has(know, plaintext) && Has(know, additional)
  }

  /** What one step gives: a literal, something known, an octet of an output that can be computed, or an octet of the
      plaintext of a sealing whose key is known. */
  ghost predicate Yields(own: iset<PrivateKey>, know: iset<Octet>, o: Octet) {
    || o.Lit?
    || o in know
    || (o.Part? && Makes(own, know, o.term))
    || exists u :: u in know && Opens(know, u, o)
  }

  ghost predicate Opens(know: iset<Octet>, u: Octet, o: Octet) {
    u.Part? && u.term.Sealed? && Has(know, u.term.key) && o in u.term.plaintext
  }

  ghost function Known(heard: iset<Octet>, derived: seq<Octet>): iset<Octet> {
    iset o: Octet | o in heard || o in derived
  }

  ghost predicate Derivation(own: iset<PrivateKey>, heard: iset<Octet>, d: seq<Octet>) {
    forall i :: 0 <= i < |d| ==> Yields(own, Known(heard, d[..i]), d[i])
  }

  ghost predicate Derives(own: iset<PrivateKey>, heard: iset<Octet>, o: Octet) {
    exists d :: Derivation(own, heard, d) && o in d
  }

  // ---------- What is never derived ----------

  /** Octets that give nothing away, when the sealings in `kept` are the only ones made under keys not given away. */
  ghost predicate Public(own: iset<PrivateKey>, kept: iset<Term>, o: Octet)
    decreases o
  {
    o.Part? ==>
      match o.term
      case PublicKey(_) => true
      case SharedSecret(keys) => exists x :: x in keys && x in own
      case ForeignSecret(x, _) => x in own
      case Hash(_) => true
      case Mac(_, _) => true
      case Hkdf(secret, _, _) => AllPublic(own, kept, secret)
      case Sealed(key, _, plaintext, _) =>
        o.term in kept || (AllPublic(own, kept, key) && AllPublic(own, kept, plaintext))
  }

  ghost predicate AllPublic(own: iset<PrivateKey>, kept: iset<Term>, s: Octets)
    decreases s
  {
    forall i :: 0 <= i < |s| ==> Public(own, kept, s[i])
  }

  /** A key that some octet keeps secret, whatever has been sealed. */
  ghost predicate Secret(own: iset<PrivateKey>, key: Octets) {
    forall kept: iset<Term> :: !AllPublic(own, kept, key)
  }

  ghost predicate OnlySecretKeys(own: iset<PrivateKey>, kept: iset<Term>) {
    forall t :: t in kept ==> t.Sealed? && Secret(own, t.key)
  }

  ghost predicate HearsPublic(own: iset<PrivateKey>, kept: iset<Term>, heard: iset<Octet>) {
    forall o :: o in heard ==> Public(own, kept, o)
  }

  lemma HasOnlyPublic(own: iset<PrivateKey>, kept: iset<Term>, know: iset<Octet>, s: Octets)
    requires HearsPublic(own, kept, know) && Has(know, s)
    ensures AllPublic(own, kept, s)
  {
  }

  lemma YieldedIsPublic(own: iset<PrivateKey>, kept: iset<Term>, know: iset<Octet>, o: Octet)
    requires OnlySecretKeys(own, kept) && HearsPublic(own, kept, know)
    requires Yields(own, know, o)
    ensures Public(own, kept, o)
  {
    if o.Lit? || o in know {
    } else if o.Part? && Makes(own, know, o.term) {
      match o.term {
        case Hkdf(secret, _, _) => HasOnlyPublic(own, kept, know, secret);
        case Sealed(key, _, plaintext, _) =>
          HasOnlyPublic(own, kept, know, key);
          HasOnlyPublic(own, kept, know, plaintext);
        case _ =>
      }
    } else {
      var u :| u in know && Opens(know, u, o);
      HasOnlyPublic(own, kept, know, u.term.key);
      assert u.term !in kept;
      assert AllPublic(own, kept, u.term.plaintext);
    }
  }

  /** Secrecy: from public octets only public octets are derived. */
  lemma {:induction false} DerivedIsPublic(own: iset<PrivateKey>, kept: iset<Term>, heard: iset<Octet>, d: seq<Octet>)
    requires OnlySecretKeys(own, kept) && HearsPublic(own, kept, heard)
    requires Derivation(own, heard, d)
    ensures forall o :: o in d ==> Public(own, kept, o)
  {
    if d != [] {
      var n := |d| - 1;
      var front := d[..n];
      forall i | 0 <= i < n
        ensures Yields(own, Known(heard, front[..i]), front[i])
      {
        assert front[..i] == d[..i];
      }
      DerivedIsPublic(own, kept, heard, front);
      YieldedIsPublic(own, kept, Known(heard, front), d[n]);
    }
  }

  /** Unforgeability: a sealing under a secret key is derived only if it was heard. */
  lemma OnlyKeptIsDerived(own: iset<PrivateKey>, kept: iset<Term>, heard: iset<Octet>, o: Octet)
    requires OnlySecretKeys(own, kept) && HearsPublic(own, kept, heard)
    requires Derives(own, heard, o) && o.Part? && o.term.Sealed? && Secret(own, o.term.key)
    ensures o.term in kept
  {
    var d :| Derivation(own, heard, d) && o in d;
    DerivedIsPublic(own, kept, heard, d);
    assert !AllPublic(own, kept, o.term.key);
  }

  lemma MoreKept(own: iset<PrivateKey>, fewer: iset<Term>, more: iset<Term>, o: Octet)
    requires forall t :: t in fewer ==> t in more
    requires Public(own, fewer, o)
    ensures Public(own, more, o)
    decreases o
  {
    if o.Part? {
      match o.term {
        case Hkdf(secret, _, _) => MoreKeptAll(own, fewer, more, secret);
        case Sealed(key, _, plaintext, _) =>
          if o.term !in fewer {
            MoreKeptAll(own, fewer, more, key);
            MoreKeptAll(own, fewer, more, plaintext);
          }
        case _ =>
      }
    }
  }

  lemma MoreKeptAll(own: iset<PrivateKey>, fewer: iset<Term>, more: iset<Term>, s: Octets)
    requires forall t :: t in fewer ==> t in more
    requires AllPublic(own, fewer, s)
    ensures AllPublic(own, more, s)
    decreases s
  {
    forall i | 0 <= i < |s|
      ensures Public(own, more, s[i])
    {
      MoreKept(own, fewer, more, s[i]);
    }
  }

  // ---------- Runs against such a network ----------

  function Wire(m: EncryptedMessage): Octets {
    m.sessionID + m.kind + m.nonce + m.ciphertext + m.tag
  }

  ghost predicate OnWire(e: Endpoint, o: Octet) {
    exists i: nat :: i < |e.sent| && o in Wire(e.sent[i].message)
  }

  /** What is heard by the time the link is in this state: what was heard before, and every message sent since. */
  ghost function Heard(link: Link, before: iset<Octet>): iset<Octet> {
    iset o: Octet | o in before || OnWire(link.a, o) || OnWire(link.b, o)
  }

  ghost function KeptBy(link: Link): iset<Term> {
    iset t: Term | SealedBy(link.a, t) || SealedBy(link.b, t)
  }

  /** The network derives what it delivers, and the ends choose message kinds and nonces that give nothing away; what
      they say in the messages is up to them. */
  ghost predicate Derivable(link: Link, event: Event, own: iset<PrivateKey>, before: iset<Octet>) {
    match event
    case Send(_, payload, nonce, _) =>
      && AllPublic(own, iset{}, payload.kind)
      && (nonce.Some? ==> |nonce.value| == NONCE_SIZE && AllPublic(own, iset{}, nonce.value))
    case Deliver(_, m, _) => forall o :: o in m.ciphertext + m.tag ==> Derives(own, Heard(link, before), o)
    case _ => true
  }

  ghost predicate DerivableRun(link: Link, events: seq<Event>, own: iset<PrivateKey>, before: iset<Octet>) {
    events != [] ==>
      && DerivableRun(link, events[..|events| - 1], own, before)
      && Derivable(RunLink(link, events[..|events| - 1]), events[|events| - 1], own, before)
  }

  ghost predicate SecretKeys(link: Link, own: iset<PrivateKey>) {
    Secret(own, link.a.machine.sendKey) && Secret(own, link.b.machine.sendKey)
  }

  // Everything in the sent messages but the sealing is public.
  ghost predicate PublicEnvelopes(e: Endpoint, own: iset<PrivateKey>) {
    && AllPublic(own, iset{}, e.machine.sessionID)
    && forall i: nat :: i < |e.sent| ==> PublicEnvelope(e.machine.sessionID, e.sent[i].message, own)
  }

  ghost predicate PublicEnvelope(sessionID: Octets, m: EncryptedMessage, own: iset<PrivateKey>) {
    m.sessionID == sessionID && AllPublic(own, iset{}, m.kind) && AllPublic(own, iset{}, m.nonce)
  }

  lemma WireIsPublic(link: Link, e: Endpoint, own: iset<PrivateKey>, o: Octet)
    requires (e == link.a || e == link.b) && HonestSeals(e) && PublicEnvelopes(e, own) && OnWire(e, o)
    ensures Public(own, KeptBy(link), o)
  {
    hide HeaderOctets;
    var kept := KeptBy(link);
    var i: nat :| i < |e.sent| && o in Wire(e.sent[i].message);
    var m := e.sent[i].message;
    assert HonestSeal(e, i) && PublicEnvelope(e.machine.sessionID, m, own);
    if o in m.ciphertext + m.tag {
      assert o.term == SealTerm(e, i);
      assert SealedBy(e, o.term);
    } else {
      assert AllPublic(own, iset{}, m.sessionID) && AllPublic(own, iset{}, m.kind) && AllPublic(own, iset{}, m.nonce);
      assert Public(own, iset{}, o);
      MoreKept(own, iset{}, kept, o);
    }
  }

  /** What the network derives is admissible: it cannot forge. */
  lemma DeliveriesAreUnforged(link: Link, m: EncryptedMessage, own: iset<PrivateKey>, before: iset<Octet>)
    requires SecretKeys(link, own) && HearsPublic(own, iset{}, before)
    requires HonestSeals(link.a) && HonestSeals(link.b)
    requires PublicEnvelopes(link.a, own) && PublicEnvelopes(link.b, own)
    requires forall o :: o in m.ciphertext + m.tag ==> Derives(own, Heard(link, before), o)
    ensures Unforged(link, m)
  {
    hide Public, AllPublic, Derives, HonestSeals, PublicEnvelopes, HeaderOctets;
    var kept := KeptBy(link);
    forall o | o in Heard(link, before)
      ensures Public(own, kept, o)
    {
      if o in before {
        MoreKept(own, iset{}, kept, o);
      } else if OnWire(link.a, o) {
        WireIsPublic(link, link.a, own, o);
      } else {
        WireIsPublic(link, link.b, own, o);
      }
    }
    forall o | o in m.ciphertext + m.tag && o.Part? && o.term.Sealed?
               && (o.term.key == link.a.machine.sendKey || o.term.key == link.b.machine.sendKey)
      ensures SealedBy(link.a, o.term) || SealedBy(link.b, o.term)
    {
      OnlyKeptIsDerived(own, kept, Heard(link, before), o);
    }
  }

  ghost predicate SameEnds(link: Link, now: Link) {
    && now.a.machine.sessionID == link.a.machine.sessionID && now.a.machine.sendKey == link.a.machine.sendKey
    && now.b.machine.sessionID == link.b.machine.sessionID && now.b.machine.sendKey == link.b.machine.sendKey
  }

  lemma StepKeepsEnvelopes(link: Link, event: Event, own: iset<PrivateKey>, before: iset<Octet>)
    requires PublicEnvelopes(link.a, own) && PublicEnvelopes(link.b, own)
    requires Derivable(link, event, own, before)
    ensures PublicEnvelopes(Step(link, event).a, own) && PublicEnvelopes(Step(link, event).b, own)
    ensures SameEnds(link, Step(link, event))
  {
    hide Public, AllPublic, Derives, HeaderOctets, SealOctets, Open;
    var e := link.At(event.side);
    var e' := Step(link, event).At(event.side);
    forall i: nat | i < |e'.sent|
      ensures PublicEnvelope(e.machine.sessionID, e'.sent[i].message, own)
    {
      assert i < |e.sent| ==> PublicEnvelope(e.machine.sessionID, e.sent[i].message, own);
    }
    assert PublicEnvelopes(e', own);
  }

  /** Every run against such a network is one the channel theorem covers. */
  lemma {:induction false} DerivableIsAdmissible(link: Link, events: seq<Event>, own: iset<PrivateKey>,
                                                 before: iset<Octet>)
    requires FreshLink(link) && SecretKeys(link, own) && HearsPublic(own, iset{}, before)
    requires AllPublic(own, iset{}, link.a.machine.sessionID)
    requires DerivableRun(link, events, own, before)
    ensures AdmissibleRun(link, events)
    ensures PublicEnvelopes(RunLink(link, events).a, own) && PublicEnvelopes(RunLink(link, events).b, own)
    ensures SameEnds(link, RunLink(link, events))
  {
    hide Public, AllPublic, Derives, HearsPublic, HonestSeals, Step, Secret, Unforged;
    if events != [] {
      var front, event := events[..|events| - 1], events[|events| - 1];
      var now := RunLink(link, front);
      DerivableIsAdmissible(link, front, own, before);
      RunSealsHonestly(link, front);
      StepKeepsEnvelopes(now, event, own, before);
      hide PublicEnvelopes;
      if event.Deliver? {
        DeliveriesAreUnforged(now, event.message, own, before);
      }
    }
  }

  /** Channel safety against a network that hears everything and computes what it likes: as long as it cannot compute
      the two keys, each end accepts a prefix of what the other encrypted. */
  lemma SafeAgainstNetwork(link: Link, events: seq<Event>, own: iset<PrivateKey>, before: iset<Octet>)
    requires FreshLink(link) && KeysDiffer(link) && SecretKeys(link, own) && HearsPublic(own, iset{}, before)
    requires AllPublic(own, iset{}, link.a.machine.sessionID)
    requires DerivableRun(link, events, own, before) && WithinCounter(RunLink(link, events))
    ensures Safe(RunLink(link, events))
  {
    DerivableIsAdmissible(link, events, own, before);
    ChannelSafety(link, events);
  }

  // ---------- After a pairing ----------

  /** The network holds neither private key of the ephemeral pair, or neither of the identity pair. */
  ghost predicate OnePairIsSecret(own: iset<PrivateKey>, ephemerals: set<PrivateKey>, identities: set<PrivateKey>) {
    (forall x :: x in ephemerals ==> x !in own) || (forall x :: x in identities ==> x !in own)
  }

  lemma PublicFields(own: iset<PrivateKey>, kept: iset<Term>, a: Octets, b: Octets)
    requires AllPublic(own, kept, a + b)
    ensures AllPublic(own, kept, a) && AllPublic(own, kept, b)
  {
    forall i | 0 <= i < |a|
      ensures Public(own, kept, a[i])
    {
      assert (a + b)[i] == a[i];
    }
    forall i | 0 <= i < |b|
      ensures Public(own, kept, b[i])
    {
      assert (a + b)[|a| + i] == b[i];
    }
  }

  lemma SharedIsSecret(own: iset<PrivateKey>, keys: set<PrivateKey>)
    requires forall x :: x in keys ==> x !in own
    ensures Secret(own, Expand(SharedSecret(keys), KEY_SIZE))
  {
    var shared := Expand(SharedSecret(keys), KEY_SIZE);
    forall kept: iset<Term>
      ensures !AllPublic(own, kept, shared)
    {
      assert !Public(own, kept, shared[0]);
    }
  }

  lemma {:induction false} FieldsHide(own: iset<PrivateKey>, kept: iset<Term>, secrets: seq<Octets>, i: nat)
    requires i < |secrets| && !AllPublic(own, kept, secrets[i])
    ensures !AllPublic(own, kept, Fields(secrets))
  {
    hide AllPublic;
    if AllPublic(own, kept, Fields(secrets)) {
      PublicFields(own, kept, Field(secrets[0]), Fields(secrets[1..]));
      PublicFields(own, kept, Lits(BigEndian(|secrets[0]| % TWO_32, 4)), secrets[0]);
      if i > 0 {
        FieldsHide(own, kept, secrets[1..], i - 1);
      }
      assert false;
    }
  }

  /** Session keys are secret as soon as one of the secrets they are derived from is. */
  lemma SessionKeysAreSecret(own: iset<PrivateKey>, secrets: seq<Octets>, i: nat, sessionID: Octets, t: Transcript)
    requires i < |secrets| && Secret(own, secrets[i]) && sessionID != []
    ensures var keys := Handshake.DeriveSessionKeys(secrets, sessionID, t).value;
            Secret(own, keys.clientToServer) && Secret(own, keys.serverToClient)
  {
    var keys := Handshake.DeriveSessionKeys(secrets, sessionID, t).value;
    var material := Handshake.KeyMaterial(secrets, sessionID, t);
    forall kept: iset<Term>
      ensures !AllPublic(own, kept, keys.clientToServer) && !AllPublic(own, kept, keys.serverToClient)
    {
      FieldsHide(own, kept, secrets, i);
      assert keys.clientToServer[0] == Part(material, 0) && keys.serverToClient[0] == Part(material, KEY_SIZE);
      assert !Public(own, kept, keys.clientToServer[0]) && !Public(own, kept, keys.serverToClient[0]);
    }
  }

  lemma SharedKeysAreSecret(own: iset<PrivateKey>, ephemerals: set<PrivateKey>, identities: set<PrivateKey>,
                            sessionID: Octets, t: Transcript)
    requires OnePairIsSecret(own, ephemerals, identities) && sessionID != []
    ensures var secrets := [Expand(SharedSecret(ephemerals), KEY_SIZE), Expand(SharedSecret(identities), KEY_SIZE)];
            var keys := Handshake.DeriveSessionKeys(secrets, sessionID, t).value;
            Secret(own, keys.clientToServer) && Secret(own, keys.serverToClient)
  {
    var secrets := [Expand(SharedSecret(ephemerals), KEY_SIZE), Expand(SharedSecret(identities), KEY_SIZE)];
    var i := if forall x :: x in ephemerals ==> x !in own then 0 else 1;
    SharedIsSecret(own, if i == 0 then ephemerals else identities);
    SessionKeysAreSecret(own, secrets, i, sessionID, t);
  }

  function RequestOctets(r: Handshake.PairingRequest): Octets {
    r.pairingID + r.clientDeviceID + r.clientDeviceName + r.clientIdentityPublicKey + r.clientEphemeralPublicKey
    + r.clientConfirmation
  }

  function AnswerOctets(a: Handshake.Answer): Octets {
    a.pairingID + a.sessionID + a.clientDeviceID + a.clientDeviceName + a.serverDeviceID + a.serverDeviceName
    + a.serverIdentityPublicKey + a.serverEphemeralPublicKey + a.confirmation
  }

  ghost predicate PublicNames(own: iset<PrivateKey>, m: Pairing.ManagerState, start: Handshake.StartResponse,
                              c: Agreement.Client)
  {
    && AllPublic(own, iset{}, start.pairingID)
    && AllPublic(own, iset{}, c.deviceID) && AllPublic(own, iset{}, c.deviceName)
    && AllPublic(own, iset{}, m.config.serverDeviceID) && AllPublic(own, iset{}, m.config.serverDeviceName)
  }

  /** The keys of a pairing are secret from a network that lacks one of the two pairs of private keys, and what the
      pairing itself puts on the wire gives nothing away. */
  lemma PairingKeepsSecrets(m: Pairing.ManagerState, start: Handshake.StartResponse, c: Agreement.Client,
                            at: Pairing.CompleteClock, timeout: int, now: int, own: iset<PrivateKey>)
    requires Agreement.Ready(m, start, at.now) && timeout > 0 && PublicNames(own, m, start, c)
    requires var p := m.pending.value;
             OnePairIsSecret(own, {c.ephemeral, p.serverEphemeral.private}, {c.identity, p.serverIdentity.private})
    ensures Agreement.RequestOf(m, start, c, start.pin).Some?
    ensures var request := Agreement.RequestOf(m, start, c, start.pin).value;
            var r := Pairing.CompleteStep(m, request, at).1;
            && r.Success?
            && var client := Handshake.NewClientSession(start, r.value.answer, c.identity, c.ephemeral, timeout, now);
               && client.Some?
               && Secret(own, client.value.sendKey) && Secret(own, r.value.session.sendKey)
               && AllPublic(own, iset{}, client.value.sessionID)
               && AllPublic(own, iset{}, RequestOctets(request) + AnswerOctets(r.value.answer))
  {
    Agreement.PairingAgreement(m, start, c, start.pin, at, timeout, now);
    var p := m.pending.value;
    var request := Agreement.RequestOf(m, start, c, start.pin).value;
    var r := Pairing.CompleteStep(m, request, at).1;
    Handshake.RolesAgree(c.identity, c.ephemeral, p.serverIdentity.private, p.serverEphemeral.private);
    SharedKeysAreSecret(own, {c.ephemeral, p.serverEphemeral.private}, {c.identity, p.serverIdentity.private},
                        r.value.answer.sessionID, Pairing.ServerTranscript(m.config, p, request));
  }

  /** From pairing to channel with nothing assumed of the network but which private keys it lacks: having heard an
      honest pairing and all that follows, and delivering whatever it can compute, it cannot make either end accept
      anything but a prefix of what the other encrypted. */
  lemma PairedChannelResists(m: Pairing.ManagerState, start: Handshake.StartResponse, c: Agreement.Client,
                             at: Pairing.CompleteClock, timeout: int, now: int,
                             own: iset<PrivateKey>, events: seq<Event>)
    requires Agreement.Ready(m, start, at.now) && timeout > 0 && PublicNames(own, m, start, c)
    requires var p := m.pending.value;
             OnePairIsSecret(own, {c.ephemeral, p.serverEphemeral.private}, {c.identity, p.serverIdentity.private})
    ensures Agreement.RequestOf(m, start, c, start.pin).Some?
    ensures var request := Agreement.RequestOf(m, start, c, start.pin).value;
            var r := Pairing.CompleteStep(m, request, at).1;
            && r.Success?
            && var client := Handshake.NewClientSession(start, r.value.answer, c.identity, c.ephemeral, timeout, now);
               && client.Some?
               && var link := Link(Endpoint(client.value, [], []), Endpoint(r.value.session, [], []));
                  var before := iset o: Octet | o in RequestOctets(request) + AnswerOctets(r.value.answer);
                  DerivableRun(link, events, own, before) && WithinCounter(RunLink(link, events)) ==>
                    Safe(RunLink(link, events))
  {
    Agreement.PairingAgreement(m, start, c, start.pin, at, timeout, now);
    PairingKeepsSecrets(m, start, c, at, timeout, now, own);
    var request := Agreement.RequestOf(m, start, c, start.pin).value;
    var r := Pairing.CompleteStep(m, request, at).1;
    var client := Handshake.NewClientSession(start, r.value.answer, c.identity, c.ephemeral, timeout, now).value;
    hide Pairing.CompleteStep, Handshake.NewClientSession, Handshake.NewPairingRequest;
    hide Public, RequestOctets, AnswerOctets;
    hide Secret, PublicNames, OnePairIsSecret, Safe, RunLink;
    var link := Link(Endpoint(client, [], []), Endpoint(r.value.session, [], []));
    var before := iset o: Octet | o in RequestOctets(request) + AnswerOctets(r.value.answer);
    assert client in [client, r.value.session] && r.value.session in [client, r.value.session];
    assert HearsPublic(own, iset{}, before);
    if DerivableRun(link, events, own, before) && WithinCounter(RunLink(link, events)) {
      SafeAgainstNetwork(link, events, own, before);
    }
  }

  // ---------- After a resume ----------

  function ResumeOctets(r: Handshake.ResumeRequest): Octets {
    r.pairingID + r.clientDeviceID + r.clientDeviceName + r.clientIdentityPublicKey + r.clientEphemeralPublicKey
  }

  ghost predicate ServerIdentityIsSecret(m: Pairing.ManagerState, own: iset<PrivateKey>) {
    var identity := Pairing.LoadOrCreateLocalIdentity(m.store, m.random).2;
    identity.Success? ==> identity.value.private !in own
  }

  /** Someone, not necessarily the owner of the identity, quotes the identity key the device is trusted with and picks
      the rest of the request; the network holds neither that identity's private key nor the server's. */
  ghost predicate QuotesTrusted(m: Pairing.ManagerState, r: Handshake.ResumeRequest, x: PrivateKey,
                                own: iset<PrivateKey>)
  {
    && Pairing.ValidConfig(m.config) && Agreement.GoodStore(m.store)
    && r.clientDeviceID in m.store.trusted && m.store.trusted[r.clientDeviceID].identityPublicKey == PublicOf(x)
    && r.clientIdentityPublicKey == PublicOf(x)
    && x !in own
    && ServerIdentityIsSecret(m, own)
    && AllPublic(own, iset{}, r.pairingID)
    && AllPublic(own, iset{}, r.clientDeviceID) && AllPublic(own, iset{}, r.clientDeviceName)
    && AllPublic(own, iset{}, r.clientEphemeralPublicKey)
    && AllPublic(own, iset{}, m.config.serverDeviceID) && AllPublic(own, iset{}, m.config.serverDeviceName)
  }

  /** Whatever ephemeral key the request brings, the session it is granted has secret keys, and the answer gives nothing
      away. */
  lemma ResumeKeepsSecrets(m: Pairing.ManagerState, request: Handshake.ResumeRequest, at: Pairing.ResumeClock,
                           x: PrivateKey, own: iset<PrivateKey>)
    requires QuotesTrusted(m, request, x, own)
    ensures var r := Pairing.ResumeStep(m, request, at).1;
            r.Success? ==>
              && Secret(own, r.value.session.sendKey) && Secret(own, r.value.session.receiveKey)
              && r.value.session.sendKey != r.value.session.receiveKey
              && AllPublic(own, iset{}, r.value.session.sessionID)
              && AllPublic(own, iset{}, ResumeOctets(request) + AnswerOctets(r.value.answer))
  {
    if Pairing.ResumeStep(m, request, at).1.Success? {
      ResumeKeysAreSecret(m, request, at, x, own);
      ResumeAnswerIsPublic(m, request, at, x, own);
    }
  }

  lemma ResumeKeysAreSecret(m: Pairing.ManagerState, request: Handshake.ResumeRequest, at: Pairing.ResumeClock,
                            x: PrivateKey, own: iset<PrivateKey>)
    requires QuotesTrusted(m, request, x, own) && Pairing.ResumeStep(m, request, at).1.Success?
    ensures var session := Pairing.ResumeStep(m, request, at).1.value.session;
            Secret(own, session.sendKey) && Secret(own, session.receiveKey) && session.sendKey != session.receiveKey
  {
    var (store, random, identity) := Pairing.LoadOrCreateLocalIdentity(m.store, m.random);
    var (y, e) := (identity.value, Pairing.GenerateKeyPair(random).1.value);
    var sessionID := Pairing.ResumeStep(m, request, at).1.value.answer.sessionID;
    Agreement.IdentityIsGood(m.store, m.random);
    AgreementCommutes(y.private, x);
    SharedIsSecret(own, {y.private, x});
    var secrets := Handshake.Secrets(e.private, request.clientEphemeralPublicKey, y.private, PublicOf(x)).value;
    assert secrets[1] == Expand(SharedSecret({y.private, x}), KEY_SIZE);
    var t := Handshake.ResumeTranscript(request.pairingID, request.clientDeviceID, request.clientDeviceName,
                                        m.config.serverDeviceID, m.config.serverDeviceName,
                                        PublicOf(x), request.clientEphemeralPublicKey, y.public, e.public);
    SessionKeysAreSecret(own, secrets, 1, sessionID, t);
    Handshake.KeysDetermine(secrets, sessionID, t, secrets, sessionID, t);
    hide Handshake.KeyMaterial, Handshake.Secrets, Handshake.ConfirmationKey, Handshake.ResumeTranscript;
    hide TranscriptOctets, AllPublic, Secret;
  }

  lemma ResumeAnswerIsPublic(m: Pairing.ManagerState, request: Handshake.ResumeRequest, at: Pairing.ResumeClock,
                             x: PrivateKey, own: iset<PrivateKey>)
    requires QuotesTrusted(m, request, x, own) && Pairing.ResumeStep(m, request, at).1.Success?
    ensures var grant := Pairing.ResumeStep(m, request, at).1.value;
            && AllPublic(own, iset{}, grant.session.sessionID)
            && AllPublic(own, iset{}, ResumeOctets(request) + AnswerOctets(grant.answer))
  {
    Agreement.IdentityIsGood(m.store, m.random);
    hide Handshake.KeyMaterial, Handshake.Secrets, Handshake.ConfirmationKey, Handshake.ResumeTranscript;
    hide TranscriptOctets;
  }

  ghost function ResumeHeard(request: Handshake.ResumeRequest, answer: Handshake.Answer): iset<Octet> {
    iset o: Octet | o in ResumeOctets(request) + AnswerOctets(answer)
  }

  /** Whoever asked for the resume, the session granted and any session linked to it form a channel that the network
      cannot interfere with. */
  lemma ResumedChannelResists(m: Pairing.ManagerState, request: Handshake.ResumeRequest, at: Pairing.ResumeClock,
                              x: PrivateKey, own: iset<PrivateKey>, client: SessionState, events: seq<Event>)
    requires QuotesTrusted(m, request, x, own)
    requires Pairing.ResumeStep(m, request, at).1.Success?
    requires Agreement.LinkedSessions(client, Pairing.ResumeStep(m, request, at).1.value.session)
    ensures var grant := Pairing.ResumeStep(m, request, at).1.value;
            var link := Link(Endpoint(client, [], []), Endpoint(grant.session, [], []));
            DerivableRun(link, events, own, ResumeHeard(request, grant.answer))
            && WithinCounter(RunLink(link, events)) ==>
              Safe(RunLink(link, events))
  {
    ResumeKeepsSecrets(m, request, at, x, own);
    var grant := Pairing.ResumeStep(m, request, at).1.value;
    hide Pairing.ResumeStep, QuotesTrusted, Public, ResumeOctets, AnswerOctets, Secret, Safe, RunLink;
    var link := Link(Endpoint(client, [], []), Endpoint(grant.session, [], []));
    var before := ResumeHeard(request, grant.answer);
    assert client in [client, grant.session] && grant.session in [client, grant.session];
    assert HearsPublic(own, iset{}, before);
    if DerivableRun(link, events, own, before) && WithinCounter(RunLink(link, events)) {
      SafeAgainstNetwork(link, events, own, before);
    }
  }

  // The other end of a session, whether or not anyone holds it.
  function Mirror(s: SessionState): SessionState {
    s.(sendKey := s.receiveKey, receiveKey := s.sendKey)
  }

  lemma {:induction false} SilentSendsNothing(link: Link, events: seq<Event>)
    requires link.a.sent == [] && forall e :: e in events ==> !(e.Send? && e.side.A?)
    ensures RunLink(link, events).a.sent == []
  {
    hide DecryptStep, EncryptStep;
    if events != [] {
      assert events[|events| - 1] in events;
      SilentSendsNothing(link, events[..|events| - 1]);
    }
  }

  lemma GrantIsFresh(m: Pairing.ManagerState, request: Handshake.ResumeRequest, at: Pairing.ResumeClock)
    requires Pairing.ResumeStep(m, request, at).1.Success?
    ensures var s := Pairing.ResumeStep(m, request, at).1.value.session;
            s.status.Active? && s.nextLocalSeq == 1 && s.lastRemoteSeq == 0 && s.seen == {}
  {
    hide Handshake.KeyMaterial, Handshake.Secrets, Handshake.ConfirmationKey, Handshake.ResumeTranscript;
    hide TranscriptOctets;
  }

  /** Quoting a trusted device's identity key is granted a session but is of no use without the private key: unless the
      holder of the identity speaks, the session accepts nothing, whatever the network delivers to it. */
  lemma QuotingIsNotEnough(m: Pairing.ManagerState, request: Handshake.ResumeRequest, at: Pairing.ResumeClock,
                           x: PrivateKey, own: iset<PrivateKey>, events: seq<Event>)
    requires QuotesTrusted(m, request, x, own)
    requires Pairing.ResumeStep(m, request, at).1.Success?
    requires forall e :: e in events ==> !(e.Send? && e.side.A?)
    ensures var grant := Pairing.ResumeStep(m, request, at).1.value;
            var link := Link(Endpoint(Mirror(grant.session), [], []), Endpoint(grant.session, [], []));
            DerivableRun(link, events, own, ResumeHeard(request, grant.answer))
            && WithinCounter(RunLink(link, events)) ==>
              RunLink(link, events).b.received == []
  {
    ResumeKeepsSecrets(m, request, at, x, own);
    GrantIsFresh(m, request, at);
    hide Pairing.ResumeStep, QuotesTrusted, Public, ResumeOctets, AnswerOctets, Secret, RunLink, DerivableRun;
    var grant := Pairing.ResumeStep(m, request, at).1.value;
    ResumedChannelResists(m, request, at, x, own, Mirror(grant.session), events);
    SilentSendsNothing(Link(Endpoint(Mirror(grant.session), [], []), Endpoint(grant.session, [], [])), events);
  }
}
