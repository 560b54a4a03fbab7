/** Two linked endpoints and a network that may drop, duplicate, delay, reorder, reflect or invent messages. */
module Channel {
  import opened Wrappers
  import opened Bytes
  import opened Symbolic
  import opened Encoding
  import opened Session

  datatype Payload = Payload(kind: Octets, plaintext: Octets)

  datatype Sent = Sent(message: EncryptedMessage, payload: Payload)

  /** An endpoint with the list of what it has encrypted and of what it has accepted. */
  datatype Endpoint = Endpoint(machine: SessionState, sent: seq<Sent>, received: seq<Payload>)

  datatype Side = A | B

  datatype Link = Link(a: Endpoint, b: Endpoint) {
    function At(side: Side): Endpoint {
      if side.A? then a else b
    }

    function With(side: Side, e: Endpoint): Link {
      if side.A? then this.(a := e) else this.(b := e)
    }
  }

  function Peer(side: Side): Side {
    if side.A? then B else A
  }

  datatype Event =
    | Send(side: Side, payload: Payload, nonce: Option<Octets>, at: Clock)
    | Deliver(side: Side, message: EncryptedMessage, at: Clock)
    | Observe(side: Side, now: int)
    | Forget(side: Side)

  function SendOn(e: Endpoint, payload: Payload, nonce: Option<Octets>, at: Clock): Endpoint {
    var (s, r) := EncryptStep(e.machine, payload.kind, payload.plaintext, nonce, at);
    match r
    case Success(m) => Endpoint(s, e.sent + [Sent(m, payload)], e.received)
    case Failure(_) => e.(machine := s)
  }

  function DeliverTo(e: Endpoint, m: EncryptedMessage, at: Clock): Endpoint {
    var (s, r) := DecryptStep(e.machine, m, at);
    match r
    case Success(plaintext) => Endpoint(s, e.sent, e.received + [Payload(m.kind, plaintext)])
    case Failure(_) => e.(machine := s)
  }

  function Step(link: Link, event: Event): Link {
    var e := link.At(event.side);
    match event
    case Send(side, payload, nonce, at) => link.With(side, SendOn(e, payload, nonce, at))
    case Deliver(side, m, at) => link.With(side, DeliverTo(e, m, at))
    case Observe(side, now) => link.With(side, e.(machine := ExpireIfIdle(e.machine, now)))
    case Forget(side) => link.With(side, e.(machine := e.machine.(status := Forgotten)))
  }

  function RunLink(link: Link, events: seq<Event>): Link {
    if events == [] then link
    else Step(RunLink(link, events[..|events| - 1]), events[|events| - 1])
  }

  // ---------- What the network can invent ----------

  function SealTerm(e: Endpoint, i: nat): Term
    requires i < |e.sent|
  {
    var m := e.sent[i].message;
    Sealed(e.machine.sendKey, m.nonce, e.sent[i].payload.plaintext, HeaderOctets(m.AsHeader()))
  }

  ghost predicate SealedBy(e: Endpoint, t: Term) {
    exists i: nat :: i < |e.sent| && SealTerm(e, i) == t
  }

  /** The network never holds an endpoint's sending key: an octet sealed under one comes from a message that
      endpoint produced.  Everything else about a delivered message is up to the network. */
  ghost predicate Unforged(link: Link, m: EncryptedMessage) {
    forall o :: o in m.ciphertext + m.tag && o.Part? && o.term.Sealed? ==>
      && (o.term.key == link.a.machine.sendKey || o.term.key == link.b.machine.sendKey ==>
            SealedBy(link.a, o.term) || SealedBy(link.b, o.term))
  }

  ghost predicate Admissible(link: Link, event: Event) {
    && (event.Deliver? ==> Unforged(link, event.message))
    && (event.Send? && event.nonce.Some? ==> |event.nonce.value| == NONCE_SIZE)
  }

  ghost predicate AdmissibleRun(link: Link, events: seq<Event>) {
    events != [] ==>
      && AdmissibleRun(link, events[..|events| - 1])
      && Admissible(RunLink(link, events[..|events| - 1]), events[|events| - 1])
  }

  ghost predicate Linked(sender: Endpoint, receiver: Endpoint) {
    sender.machine.sessionID == receiver.machine.sessionID && sender.machine.sendKey == receiver.machine.receiveKey
  }

  ghost predicate Fresh(e: Endpoint) {
    && e.machine.nextLocalSeq == 1 && e.machine.lastRemoteSeq == 0 && e.machine.seen == {}
    && e.sent == [] && e.received == []
  }

  ghost predicate FreshLink(link: Link) {
    Linked(link.a, link.b) && Linked(link.b, link.a) && Fresh(link.a) && Fresh(link.b)
  }

  predicate KeysDiffer(link: Link) {
    link.a.machine.sendKey != link.b.machine.sendKey
  }

  predicate WithinCounter(link: Link) {
    |link.a.sent| <= TWO_64 && |link.b.sent| <= TWO_64
  }

  function Payloads(sent: seq<Sent>): (r: seq<Payload>)
    ensures |r| == |sent|
  {
    seq(|sent|, i requires 0 <= i < |sent| => sent[i].payload)
  }

  /** What each end has accepted is a prefix of what the other end has encrypted. */
  predicate Safe(link: Link) {
    link.b.received <= Payloads(link.a.sent) && link.a.received <= Payloads(link.b.sent)
  }

  // ---------- The invariant ----------

  ghost predicate Genuine(e: Endpoint, i: nat)
    requires i < |e.sent|
  {
    var m := e.sent[i].message;
    m.sequence == Wrap64(i + 1) && m.sessionID == e.machine.sessionID && m.kind == e.sent[i].payload.kind
  }

  ghost predicate Numbered(e: Endpoint) {
    e.machine.nextLocalSeq == Wrap64(|e.sent| + 1) && forall i: nat :: i < |e.sent| ==> Genuine(e, i)
  }

  ghost predicate Counted(e: Endpoint) {
    Canonical(e.machine) && |e.received| == Accepted(e.machine)
  }

  /** What holds of one direction of the link. */
  ghost predicate OneWay(sender: Endpoint, receiver: Endpoint) {
    && Linked(sender, receiver) && Numbered(sender) && Counted(receiver)
    && (|sender.sent| <= TWO_64 ==> receiver.received <= Payloads(sender.sent))
  }

  ghost predicate Invariant(link: Link) {
    KeysDiffer(link) && OneWay(link.a, link.b) && OneWay(link.b, link.a)
  }

  function TermOf(receiver: Endpoint, m: EncryptedMessage, plaintext: Octets): Term {
    Sealed(receiver.machine.receiveKey, m.nonce, plaintext, HeaderOctets(m.AsHeader()))
  }

  /** What opens under an endpoint's receive key was sealed by its peer, provided the direction keys differ. */
  lemma OpenedWasSealed(link: Link, side: Side, m: EncryptedMessage, at: Clock)
    requires KeysDiffer(link) && Unforged(link, m)
    requires Linked(link.At(Peer(side)), link.At(side))
    ensures match DecryptStep(link.At(side).machine, m, at).1
            case Success(plaintext) => SealedBy(link.At(Peer(side)), TermOf(link.At(side), m, plaintext))
            case Failure(_) => true
  {
    var r := DecryptStep(link.At(side).machine, m, at).1;
    if r.Success? {
      var combined := m.ciphertext + m.tag;
      var term := TermOf(link.At(side), m, r.value);
      assert combined[0] == Part(term, 0) && combined[0] in combined;
    }
  }

  /** An accepted message is exactly the next one the peer encrypted. */
  lemma AcceptedIsNext(sender: Endpoint, receiver: Endpoint, m: EncryptedMessage, at: Clock, plaintext: Octets)
    requires OneWay(sender, receiver) && |sender.sent| <= TWO_64
    requires DecryptStep(receiver.machine, m, at).1 == Success(plaintext)
    requires SealedBy(sender, TermOf(receiver, m, plaintext))
    ensures var n := |receiver.received|;
            n < |sender.sent| && sender.sent[n].payload == Payload(m.kind, plaintext)
  {
    hide HeaderOctets, SealOctets, DecryptStep;
    var i: nat :| i < |sender.sent| && SealTerm(sender, i) == TermOf(receiver, m, plaintext);
    assert Genuine(sender, i);
    AcceptedIff(receiver.machine, m, at, plaintext);
    HeaderInjective(m.AsHeader(), sender.sent[i].message.AsHeader());
    assert Wrap64(i + 1) == Wrap64(|receiver.received| + 1);
  }

  lemma DeliveryKeepsOneWay(sender: Endpoint, receiver: Endpoint, m: EncryptedMessage, at: Clock)
    requires OneWay(sender, receiver)
    requires match DecryptStep(receiver.machine, m, at).1
             case Success(plaintext) => SealedBy(sender, TermOf(receiver, m, plaintext))
             case Failure(_) => true
    ensures OneWay(sender, DeliverTo(receiver, m, at))
  {
    DecryptKeepsCanonical(receiver.machine, m, at);
    var r := DecryptStep(receiver.machine, m, at).1;
    if r.Success? && |sender.sent| <= TWO_64 {
      AcceptedIsNext(sender, receiver, m, at, r.value);
    }
  }

  lemma SendingKeepsOneWay(sender: Endpoint, receiver: Endpoint, payload: Payload, nonce: Option<Octets>, at: Clock)
    requires OneWay(sender, receiver)
    ensures OneWay(SendOn(sender, payload, nonce, at), receiver)
  {
    hide HeaderOctets;
    var sender' := SendOn(sender, payload, nonce, at);
    forall i: nat | i < |sender'.sent|
      ensures Genuine(sender', i)
    {
      if i < |sender.sent| {
        assert Genuine(sender, i);
      }
    }
    if sender'.sent != sender.sent {
      assert Payloads(sender'.sent) == Payloads(sender.sent) + [payload];
    }
  }

  lemma SendingLeavesReceiver(e: Endpoint, peer: Endpoint, payload: Payload, nonce: Option<Octets>, at: Clock)
    requires OneWay(peer, e)
    ensures OneWay(peer, SendOn(e, payload, nonce, at))
  {
  }

  lemma DeliveryLeavesSender(e: Endpoint, peer: Endpoint, m: EncryptedMessage, at: Clock)
    requires OneWay(e, peer)
    ensures OneWay(DeliverTo(e, m, at), peer)
  {
    var e' := DeliverTo(e, m, at);
    forall i: nat | i < |e'.sent|
      ensures Genuine(e', i)
    {
      assert Genuine(e, i);
    }
  }

  lemma StatusUntouched(e: Endpoint, peer: Endpoint, status: Status)
    ensures var e' := e.(machine := e.machine.(status := status));
            && (OneWay(peer, e) ==> OneWay(peer, e'))
            && (OneWay(e, peer) ==> OneWay(e', peer))
  {
    var e' := e.(machine := e.machine.(status := status));
    forall i: nat | i < |e'.sent|
      ensures Genuine(e, i) ==> Genuine(e', i)
    {
    }
  }

  lemma StepKeepsInvariant(link: Link, event: Event)
    requires Invariant(link) && Admissible(link, event)
    ensures Invariant(Step(link, event))
  {
    var e, peer := link.At(event.side), link.At(Peer(event.side));
    match event
    case Send(side, payload, nonce, at) =>
      SendingKeepsOneWay(e, peer, payload, nonce, at);
      SendingLeavesReceiver(e, peer, payload, nonce, at);
    case Deliver(side, m, at) =>
      OpenedWasSealed(link, side, m, at);
      DeliveryKeepsOneWay(peer, e, m, at);
      DeliveryLeavesSender(e, peer, m, at);
    case Observe(_, now) => StatusUntouched(e, peer, ExpireIfIdle(e.machine, now).status);
    case Forget(_) => StatusUntouched(e, peer, Forgotten);
  }

  lemma {:induction false} RunKeepsInvariant(link: Link, events: seq<Event>)
    requires FreshLink(link) && KeysDiffer(link) && AdmissibleRun(link, events)
    ensures Invariant(RunLink(link, events))
  {
    if events != [] {
      RunKeepsInvariant(link, events[..|events| - 1]);
      StepKeepsInvariant(RunLink(link, events[..|events| - 1]), events[|events| - 1]);
    }
  }

  /** Channel safety, in both directions at once, over every run in which neither end encrypts more than 2^64
      messages. */
  lemma ChannelSafety(link: Link, events: seq<Event>)
    requires FreshLink(link) && KeysDiffer(link)
    requires AdmissibleRun(link, events) && WithinCounter(RunLink(link, events))
    ensures Safe(RunLink(link, events))
  {
    RunKeepsInvariant(link, events);
  }

  lemma NextOpens(sender: Endpoint, receiver: Endpoint, at: Clock)
    requires OneWay(sender, receiver) && |receiver.received| < |sender.sent| <= TWO_64
    requires HonestSeal(sender, |receiver.received|) && ActiveAt(receiver.machine, at.check)
    ensures var n := |receiver.received|;
            DeliverTo(receiver, sender.sent[n].message, at).received == Payloads(sender.sent)[..n + 1]
  {
    hide HeaderOctets;
    var n := |receiver.received|;
    var entry := sender.sent[n];
    assert Genuine(sender, n);
    AcceptedIff(receiver.machine, entry.message, at, entry.payload.plaintext);
    assert receiver.received == Payloads(sender.sent)[..n];
    assert Payloads(sender.sent)[..n + 1] == Payloads(sender.sent)[..n] + [entry.payload];
  }

  /** The next message the peer encrypted, delivered in time to a live endpoint, is always accepted. */
  lemma NextIsAccepted(link: Link, events: seq<Event>, side: Side, at: Clock)
    requires FreshLink(link) && KeysDiffer(link)
    requires AdmissibleRun(link, events) && WithinCounter(RunLink(link, events))
    requires var now := RunLink(link, events);
             && |now.At(side).received| < |now.At(Peer(side)).sent|
             && ActiveAt(now.At(side).machine, at.check)
    ensures var now := RunLink(link, events);
            var n := |now.At(side).received|;
            var after := DeliverTo(now.At(side), now.At(Peer(side)).sent[n].message, at);
            after.received == Payloads(now.At(Peer(side)).sent)[..n + 1]
  {
    RunKeepsInvariant(link, events);
    RunSealsHonestly(link, events);
    var now := RunLink(link, events);
    hide HeaderOctets, SealOctets, DecryptStep, RunLink, AdmissibleRun, FreshLink;
    NextOpens(now.At(Peer(side)), now.At(side), at);
  }

  ghost predicate HonestSeal(e: Endpoint, i: nat)
    requires i < |e.sent|
  {
    var m := e.sent[i].message;
    && m.version == VERSION && |m.tag| == TAG_SIZE && |m.nonce| == NONCE_SIZE
    && m.ciphertext + m.tag
       == SealOctets(e.machine.sendKey, m.nonce, e.sent[i].payload.plaintext, HeaderOctets(m.AsHeader()))
  }

  ghost predicate HonestSeals(e: Endpoint) {
    forall i: nat :: i < |e.sent| ==> HonestSeal(e, i)
  }

  lemma StepSealsHonestly(e: Endpoint, payload: Payload, nonce: Option<Octets>, m: EncryptedMessage, at: Clock)
    requires HonestSeals(e) && (nonce.Some? ==> |nonce.value| == NONCE_SIZE)
    ensures HonestSeals(SendOn(e, payload, nonce, at)) && HonestSeals(DeliverTo(e, m, at))
  {
    if nonce.Some? {
      EncryptSeals(e.machine, payload.kind, payload.plaintext, nonce.value, at);
    }
    hide HeaderOctets, SealOctets, Open;
    var e1, e2 := SendOn(e, payload, nonce, at), DeliverTo(e, m, at);
    forall i: nat | i < |e1.sent|
      ensures HonestSeal(e1, i)
    {
      assert i < |e.sent| ==> HonestSeal(e, i);
    }
    forall i: nat | i < |e2.sent|
      ensures HonestSeal(e2, i)
    {
      assert HonestSeal(e, i);
    }
  }

  lemma StatusSealsHonestly(e: Endpoint, status: Status)
    requires HonestSeals(e)
    ensures HonestSeals(e.(machine := e.machine.(status := status)))
  {
    var e' := e.(machine := e.machine.(status := status));
    forall i: nat | i < |e'.sent|
      ensures HonestSeal(e', i)
    {
      assert HonestSeal(e, i);
    }
  }

  lemma {:induction false} RunSealsHonestly(link: Link, events: seq<Event>)
    requires FreshLink(link) && AdmissibleRun(link, events)
    ensures HonestSeals(RunLink(link, events).a) && HonestSeals(RunLink(link, events).b)
  {
    if events != [] {
      var before, event := events[..|events| - 1], events[|events| - 1];
      RunSealsHonestly(link, before);
      var e := RunLink(link, before).At(event.side);
      var blank := EncryptedMessage(0, [], 0, [], [], [], []);
      match event
      case Send(_, payload, nonce, at) => StepSealsHonestly(e, payload, nonce, blank, at);
      case Deliver(_, m, at) => StepSealsHonestly(e, Payload([], []), None, m, at);
      case Observe(_, now) => StatusSealsHonestly(e, ExpireIfIdle(e.machine, now).status);
      case Forget(_) => StatusSealsHonestly(e, Forgotten);
    }
  }

  // ---------- Both side conditions are needed ----------

  /** With one key for both directions, a message reflected to its own sender is accepted there. */
  lemma ReflectionNeedsOneKey(link: Link, payload: Payload, nonce: Octets)
    requires FreshLink(link) && !KeysDiffer(link)
    requires |nonce| == NONCE_SIZE && link.a.machine.status.Active? && link.a.machine.timeout > 0
    ensures exists events ::
              AdmissibleRun(link, events) && WithinCounter(RunLink(link, events)) && !Safe(RunLink(link, events))
  {
    hide HeaderOctets;
    var at := Clock(link.a.machine.lastActivity, link.a.machine.lastActivity);
    var send := Send(A, payload, Some(nonce), at);
    var sent := Step(link, send);
    var m := sent.a.sent[0].message;
    EncryptSeals(link.a.machine, payload.kind, payload.plaintext, nonce, at);
    hide EncryptStep;
    assert SealTerm(sent.a, 0) == Sealed(link.a.machine.sendKey, nonce, payload.plaintext, HeaderOctets(m.AsHeader()));
    assert SealedBy(sent.a, SealTerm(sent.a, 0));
    assert Unforged(sent, m);
    AcceptedIff(sent.a.machine, m, at, payload.plaintext);
    var events := [send, Deliver(A, m, at)];
    assert events[..1] == [send] && events[..1][..0] == [];
    assert RunLink(link, []) == link && RunLink(link, [send]) == sent;
    assert RunLink(link, events) == Step(sent, Deliver(A, m, at));
    assert AdmissibleRun(link, []) && AdmissibleRun(link, [send]);
    assert AdmissibleRun(link, events);
    assert RunLink(link, events).a.received == [payload];
  }

  /** Distinct direction keys are exactly what safety over every bounded run requires of a fresh, live link. */
  lemma SafeIffKeysDiffer(link: Link, nonce: Octets)
    requires FreshLink(link) && |nonce| == NONCE_SIZE
    requires link.a.machine.status.Active? && link.a.machine.timeout > 0
    ensures KeysDiffer(link) <==>
            forall events :: AdmissibleRun(link, events) && WithinCounter(RunLink(link, events)) ==>
              Safe(RunLink(link, events))
  {
    if KeysDiffer(link) {
      forall events | AdmissibleRun(link, events) && WithinCounter(RunLink(link, events))
        ensures Safe(RunLink(link, events))
      {
        ChannelSafety(link, events);
      }
    } else {
      ReflectionNeedsOneKey(link, Payload([], []), nonce);
    }
  }

  /** `n` encryptions of an empty message in a row. */
  function Burst(n: nat, nonce: Octets, at: Clock): (events: seq<Event>)
    ensures |events| == n
  {
    seq(n, _ => Send(A, Payload([], []), Some(nonce), at))
  }

  lemma LiveSend(e: Endpoint, payload: Payload, nonce: Octets, at: Clock)
    requires ActiveAt(e.machine, at.check)
    ensures var e' := SendOn(e, payload, Some(nonce), at);
            && e'.machine == e.machine.(nextLocalSeq := Next(e.machine.nextLocalSeq), lastActivity := at.touch)
            && |e'.sent| == |e.sent| + 1 && e'.sent[..|e.sent|] == e.sent && e'.sent[|e.sent|].payload == payload
            && e'.sent[|e.sent|].message.sequence == e.machine.nextLocalSeq
            && e'.received == e.received
  {
    hide HeaderOctets, SealOctets;
  }

  ghost predicate AfterBurst(link: Link, n: nat, now: Link) {
    && now.b == link.b
    && now.a.machine == link.a.machine.(nextLocalSeq := Wrap64(n + 1))
    && |now.a.sent| == n
    && (n > 0 ==> now.a.sent[0].message.sequence == 1)
    && forall i :: 0 <= i < n ==> now.a.sent[i].payload == Payload([], [])
  }

  lemma BurstStep(link: Link, n: nat, before: Link, nonce: Octets, at: Clock)
    requires link.a.machine.status.Active? && link.a.machine.timeout > 0
    requires at == Clock(link.a.machine.lastActivity, link.a.machine.lastActivity)
    requires AfterBurst(link, n, before)
    ensures AfterBurst(link, n + 1, Step(before, Send(A, Payload([], []), Some(nonce), at)))
  {
    hide SendOn;
    LiveSend(before.a, Payload([], []), nonce, at);
    var sent := SendOn(before.a, Payload([], []), Some(nonce), at).sent;
    assert forall i :: 0 <= i < n ==> sent[i] == sent[..n][i];
  }

  lemma {:induction false} BurstSends(link: Link, n: nat, nonce: Octets, at: Clock)
    requires FreshLink(link) && |nonce| == NONCE_SIZE
    requires link.a.machine.status.Active? && link.a.machine.timeout > 0
    requires at == Clock(link.a.machine.lastActivity, link.a.machine.lastActivity)
    ensures AdmissibleRun(link, Burst(n, nonce, at))
    ensures AfterBurst(link, n, RunLink(link, Burst(n, nonce, at)))
  {
    if n > 0 {
      BurstSends(link, n - 1, nonce, at);
      assert Burst(n, nonce, at)[..n - 1] == Burst(n - 1, nonce, at);
      BurstStep(link, n - 1, RunLink(link, Burst(n - 1, nonce, at)), nonce, at);
      hide AfterBurst, Step;
    }
  }

  /** One end has encrypted 2^64 + 1 messages and the other none, and what the other accepted first is the last of
      them and not the first. */
  predicate WrongFirst(link: Link) {
    && |link.a.sent| == TWO_64 + 1 && link.b.sent == []
    && link.a.sent[TWO_64].message.sequence == link.a.sent[0].message.sequence == 1
    && link.b.received == [link.a.sent[TWO_64].payload]
    && link.b.received[0] != link.a.sent[0].payload
  }

  /** One message more and the counter has wrapped: the message numbered 1 for the second time is accepted in
      place of the first. */
  lemma WrapBreaksSafety(link: Link, nonce: Octets)
    requires FreshLink(link) && KeysDiffer(link) && |nonce| == NONCE_SIZE
    requires link.a.machine.status.Active? && link.a.machine.timeout > 0
    requires link.b.machine.status.Active? && link.b.machine.timeout > 0
    ensures exists events ::
              && AdmissibleRun(link, events)
              && WrongFirst(RunLink(link, events))
  {
    hide HeaderOctets, WrongFirst, AfterBurst, Unforged;
    var at := Clock(link.a.machine.lastActivity, link.a.machine.lastActivity);
    var later := Clock(link.b.machine.lastActivity, link.b.machine.lastActivity);
    var burst := Burst(TWO_64, nonce, at);
    BurstSends(link, TWO_64, nonce, at);
    var full := RunLink(link, burst);
    var m := OneTooMany(link, full, nonce, at, later);
    hide Step;
    var first := burst + [Send(A, DIFFERENT, Some(nonce), at)];
    var events := first + [Deliver(B, m, later)];
    assert first[..|first| - 1] == burst && events[..|events| - 1] == first;
    assert RunLink(link, first) == Step(full, Send(A, DIFFERENT, Some(nonce), at)) && AdmissibleRun(link, first);
    assert RunLink(link, events) == Step(RunLink(link, first), Deliver(B, m, later)) && AdmissibleRun(link, events);
  }

  const DIFFERENT := Payload([], [Lit(1)])

  lemma OneTooMany(link: Link, full: Link, nonce: Octets, at: Clock, later: Clock) returns (m: EncryptedMessage)
    requires FreshLink(link) && KeysDiffer(link) && |nonce| == NONCE_SIZE && AfterBurst(link, TWO_64, full)
    requires ActiveAt(link.a.machine, at.check) && ActiveAt(link.b.machine, later.check)
    ensures var sent := Step(full, Send(A, DIFFERENT, Some(nonce), at));
            Unforged(sent, m) && WrongFirst(Step(sent, Deliver(B, m, later)))
  {
    hide HeaderOctets;
    EncryptSeals(full.a.machine, DIFFERENT.kind, DIFFERENT.plaintext, nonce, at);
    var sent := Step(full, Send(A, DIFFERENT, Some(nonce), at));
    m := sent.a.sent[TWO_64].message;
    assert SealTerm(sent.a, TWO_64)
           == Sealed(link.a.machine.sendKey, nonce, DIFFERENT.plaintext, HeaderOctets(m.AsHeader()));
    assert SealedBy(sent.a, SealTerm(sent.a, TWO_64));
    AcceptedIff(sent.b.machine, m, later, DIFFERENT.plaintext);
  }

  ghost predicate SafeUpTo(link: Link, n: nat) {
    forall events ::
      AdmissibleRun(link, events) && |RunLink(link, events).a.sent| <= n && |RunLink(link, events).b.sent| <= n ==>
        Safe(RunLink(link, events))
  }

  /** Safety over all runs of at most `n` messages in each direction holds exactly up to 2^64. */
  lemma SafeIffWithinCounter(link: Link, nonce: Octets, n: nat)
    requires FreshLink(link) && KeysDiffer(link) && |nonce| == NONCE_SIZE
    requires link.a.machine.status.Active? && link.a.machine.timeout > 0
    requires link.b.machine.status.Active? && link.b.machine.timeout > 0
    ensures n <= TWO_64 <==> SafeUpTo(link, n)
  {
    hide RunLink, AdmissibleRun;
    if n <= TWO_64 {
      forall events | AdmissibleRun(link, events)
                      && |RunLink(link, events).a.sent| <= n && |RunLink(link, events).b.sent| <= n
        ensures Safe(RunLink(link, events))
      {
        ChannelSafety(link, events);
      }
    } else {
      WrapBreaksSafety(link, nonce);
      var events :| AdmissibleRun(link, events) && WrongFirst(RunLink(link, events));
      var end := RunLink(link, events);
      assert Payloads(end.a.sent)[0] == end.a.sent[0].payload;
      assert !Safe(end);
    }
  }
}
