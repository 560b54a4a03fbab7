/** The sequence-numbered AEAD session: one endpoint's state machine. */
module Session {
  import opened Wrappers
  import opened Bytes
  import opened Symbolic
  import opened Encoding

  const VERSION: byte := 1

  datatype Status = Active | Expired | Forgotten

  datatype SessionError =
    | ErrConfig
    | ErrExpired
    | ErrForgotten
    | ErrRandom
    | ErrVersion
    | ErrSessionID
    | ErrNonceSize
    | ErrTagSize
    | ErrReplay
    | ErrOutOfOrder
    | ErrAuthentication

  datatype EncryptedMessage = EncryptedMessage(
    version: byte,
    sessionID: Octets,
    sequence: uint64,
    kind: Octets,
    nonce: Octets,
    ciphertext: Octets,
    tag: Octets)
  {
    function AsHeader(): Header {
      Header(version, sequence, sessionID, kind)
    }
  }

  /** The two clock readings of one call: when idleness is checked, and when activity is recorded. */
  datatype Clock = Clock(check: int, touch: int)

  datatype SessionState = SessionState(
    sessionID: Octets,
    sendKey: Octets,
    receiveKey: Octets,
    timeout: int,
    status: Status,
    lastActivity: int,
    nextLocalSeq: uint64,
    lastRemoteSeq: uint64,
    seen: set<uint64>)

  // The unsigned 64-bit increment wraps around.
  function Next(n: uint64): uint64 {
    Wrap64(n + 1)
  }

  function NewSession(sessionID: Octets, sendKey: Octets, receiveKey: Octets, timeout: int, now: int)
    : (r: Result<SessionState, SessionError>)
  {
    if sessionID == [] || |sendKey| != KEY_SIZE || |receiveKey| != KEY_SIZE || timeout <= 0 then
      Failure(ErrConfig)
    else
      Success(SessionState(sessionID, sendKey, receiveKey, timeout, Active, now, 1, 0, {}))
  }

  function ExpireIfIdle(s: SessionState, now: int): SessionState {
    if s.status.Active? && now - s.lastActivity > s.timeout then s.(status := Expired) else s
  }

  function InactiveError(s: SessionState): SessionError {
    if s.status.Forgotten? then ErrForgotten else ErrExpired
  }

  /** `nonce` is the randomness the call obtains, `None` when the source of randomness fails. */
  function EncryptStep(s: SessionState, kind: Octets, plaintext: Octets, nonce: Option<Octets>, at: Clock)
    : (SessionState, Result<EncryptedMessage, SessionError>)
  {
    var s1 := ExpireIfIdle(s, at.check);
    if !s1.status.Active? then (s1, Failure(InactiveError(s1)))
    else if nonce.None? then (s1, Failure(ErrRandom))
    else
      var header := Header(VERSION, s1.nextLocalSeq, s1.sessionID, kind);
      var sealed := SealOctets(s1.sendKey, nonce.value, plaintext, HeaderOctets(header));
      (s1.(nextLocalSeq := Next(s1.nextLocalSeq), lastActivity := at.touch),
       Success(EncryptedMessage(VERSION, s1.sessionID, s1.nextLocalSeq, kind, nonce.value,
                                sealed[..|plaintext|], sealed[|plaintext|..])))
  }

  function DecryptStep(s: SessionState, m: EncryptedMessage, at: Clock)
    : (SessionState, Result<Octets, SessionError>)
  {
    var s1 := ExpireIfIdle(s, at.check);
    if !s1.status.Active? then (s1, Failure(InactiveError(s1)))
    else if m.version != VERSION then (s1, Failure(ErrVersion))
    else if m.sessionID != s1.sessionID then (s1, Failure(ErrSessionID))
    else if |m.nonce| != NONCE_SIZE then (s1, Failure(ErrNonceSize))
    else if |m.tag| != TAG_SIZE then (s1, Failure(ErrTagSize))
    else if m.sequence in s1.seen then (s1, Failure(ErrReplay))
    else if m.sequence != Next(s1.lastRemoteSeq) then (s1, Failure(ErrOutOfOrder))
    else
      match Open(s1.receiveKey, m.nonce, m.ciphertext + m.tag, HeaderOctets(m.AsHeader()))
      case None => (s1, Failure(ErrAuthentication))
      case Some(plaintext) =>
        (s1.(lastRemoteSeq := m.sequence, seen := s1.seen + {m.sequence}, lastActivity := at.touch),
         Success(plaintext))
  }

  // ---------- The state machine object ----------

  class StateMachine {
    const sessionID: Octets
    const sendKey: Octets
    const receiveKey: Octets
    const inactivityTimeout: int
    var status: Status
    var lastActivity: int
    var nextLocalSeq: uint64
    var lastRemoteSeq: uint64
    var seenRemoteSeq: set<uint64>

    function Contents(): SessionState
      reads this
    {
      SessionState(sessionID, sendKey, receiveKey, inactivityTimeout, status, lastActivity,
                   nextLocalSeq, lastRemoteSeq, seenRemoteSeq)
    }

    constructor (s: SessionState)
      ensures Contents() == s
    {
      sessionID := s.sessionID;
      sendKey := s.sendKey;
      receiveKey := s.receiveKey;
      inactivityTimeout := s.timeout;
      status := s.status;
      lastActivity := s.lastActivity;
      nextLocalSeq := s.nextLocalSeq;
      lastRemoteSeq := s.lastRemoteSeq;
      seenRemoteSeq := s.seen;
    }

    method EnsureActive(now: int) returns (error: Option<SessionError>)
      modifies this`status
      ensures Contents() == ExpireIfIdle(old(Contents()), now)
      ensures status == if old(status).Active? && now - lastActivity > inactivityTimeout then Expired else old(status)
      ensures error == match status
                       case Active => None
                       case Expired => Some(ErrExpired)
                       case Forgotten => Some(ErrForgotten)
    {
      if status.Active? && now - lastActivity > inactivityTimeout {
        status := Expired;
      }
      match status {
        case Active => error := None;
        case Forgotten => error := Some(ErrForgotten);
        case Expired => error := Some(ErrExpired);
      }
    }

    method State(now: int) returns (r: Status)
      modifies this`status
      ensures Contents() == ExpireIfIdle(old(Contents()), now)
      ensures r == status
              == if old(status).Active? && now - lastActivity > inactivityTimeout then Expired else old(status)
    {
      var _ := EnsureActive(now);
      r := status;
    }

    method InvalidateTrust()
      modifies this`status
      ensures Contents() == old(Contents()).(status := Forgotten)
    {
      status := Forgotten;
    }

    method Encrypt(kind: Octets, plaintext: Octets, nonce: Option<Octets>, at: Clock)
      returns (r: Result<EncryptedMessage, SessionError>)
      modifies this
      ensures (Contents(), r) == EncryptStep(old(Contents()), kind, plaintext, nonce, at)
    {
      var error := EnsureActive(at.check);
      if error.Some? {
        return Failure(error.value);
      }
      if nonce.None? {
        return Failure(ErrRandom);
      }
      var header := Header(VERSION, nextLocalSeq, sessionID, kind);
      var additional := AssociatedData(header);
      var sealed := SealOctets(sendKey, nonce.value, plaintext, additional);
      r := Success(EncryptedMessage(VERSION, sessionID, nextLocalSeq, kind, nonce.value,
                                    sealed[..|sealed| - TAG_SIZE], sealed[|sealed| - TAG_SIZE..]));
      nextLocalSeq := Next(nextLocalSeq);
      lastActivity := at.touch;
    }

    method Decrypt(m: EncryptedMessage, at: Clock) returns (r: Result<Octets, SessionError>)
      modifies this
      ensures (Contents(), r) == DecryptStep(old(Contents()), m, at)
    {
      var error := EnsureActive(at.check);
      if error.Some? {
        return Failure(error.value);
      }
      if m.version != VERSION {
        return Failure(ErrVersion);
      }
      if m.sessionID != sessionID {
        return Failure(ErrSessionID);
      }
      if |m.nonce| != NONCE_SIZE {
        return Failure(ErrNonceSize);
      }
      if |m.tag| != TAG_SIZE {
        return Failure(ErrTagSize);
      }
      if m.sequence in seenRemoteSeq {
        return Failure(ErrReplay);
      }
      var expected := Next(lastRemoteSeq);
      if m.sequence != expected {
        return Failure(ErrOutOfOrder);
      }
      var additional := AssociatedData(m.AsHeader());
      var result := Open(receiveKey, m.nonce, m.ciphertext + m.tag, additional);
      if result.None? {
        return Failure(ErrAuthentication);
      }
      lastRemoteSeq := m.sequence;
      seenRemoteSeq := seenRemoteSeq + {m.sequence};
      lastActivity := at.touch;
      r := Success(result.value);
    }
  }

  method NewStateMachine(sessionID: Octets, sendKey: Octets, receiveKey: Octets, timeout: int, now: int)
    returns (machine: StateMachine?)
    ensures machine == null <==> sessionID == [] || |sendKey| != 32 || |receiveKey| != 32 || timeout <= 0
    ensures machine == null <==> NewSession(sessionID, sendKey, receiveKey, timeout, now).Failure?
    ensures machine != null ==>
              && fresh(machine)
              && machine.Contents() == SessionState(sessionID, sendKey, receiveKey, timeout, Active, now, 1, 0, {})
              && NewSession(sessionID, sendKey, receiveKey, timeout, now) == Success(machine.Contents())
  {
    if |sessionID| == 0 {
      return null;
    }
    if |sendKey| != KEY_SIZE {
      return null;
    }
    if |receiveKey| != KEY_SIZE {
      return null;
    }
    if timeout <= 0 {
      return null;
    }
    machine := new StateMachine(SessionState(sessionID, sendKey, receiveKey, timeout, Active, now, 1, 0, {}));
  }

  // ---------- What one call promises ----------

  predicate WellFormed(s: SessionState, m: EncryptedMessage) {
    m.version == VERSION && m.sessionID == s.sessionID && |m.nonce| == NONCE_SIZE && |m.tag| == TAG_SIZE
  }

  predicate ActiveAt(s: SessionState, now: int) {
    s.status.Active? && now - s.lastActivity <= s.timeout
  }

  /** How many messages have been accepted: 0 enters `seen` only when the counter has gone all the way round. */
  function Accepted(s: SessionState): nat {
    if 0 in s.seen then TWO_64 else s.lastRemoteSeq
  }

  /** The sequence state is the one left by accepting 1, 2, 3, ... in order. */
  ghost predicate Canonical(s: SessionState) {
    && s.lastRemoteSeq == Wrap64(Accepted(s))
    && forall q: uint64 :: q in s.seen <==> if q == 0 then Accepted(s) == TWO_64 else q <= Accepted(s)
  }

  /** Accepting a message counts it, and anything else leaves sequence state and last activity alone. */
  lemma DecryptKeepsCanonical(s: SessionState, m: EncryptedMessage, at: Clock)
    requires Canonical(s)
    ensures var (s', r) := DecryptStep(s, m, at);
            && Canonical(s')
            && (r.Success? ==> Accepted(s') == Accepted(s) + 1 && s'.lastActivity == at.touch)
            && (r.Failure? ==> s' == s.(status := s'.status))
  {
    hide Open, HeaderOctets;
    var (s', r) := DecryptStep(s, m, at);
    if r.Success? {
      assert s'.seen == s.seen + {m.sequence};
      if m.sequence == 0 {
        assert s.lastRemoteSeq == TWO_64 - 1;
      } else {
        assert Accepted(s) < TWO_64;
        assert 0 !in s'.seen;
      }
    }
  }

  /** For a well-formed message to an active session: a sequence number already counted is a replay, the next
      one is opened, and any other is out of order.  Once 2^64 messages are in, every number is a replay. */
  lemma SequenceVerdict(s: SessionState, m: EncryptedMessage, at: Clock)
    requires Canonical(s) && ActiveAt(s, at.check) && WellFormed(s, m)
    ensures var r := DecryptStep(s, m, at).1;
            if Accepted(s) < TWO_64 - 1 then
              && (r == Failure(ErrReplay) <==> 1 <= m.sequence <= s.lastRemoteSeq)
              && (r == Failure(ErrOutOfOrder) <==> m.sequence == 0 || m.sequence > s.lastRemoteSeq + 1)
            else if Accepted(s) == TWO_64 - 1 then
              && (r == Failure(ErrReplay) <==> m.sequence != 0)
              && r != Failure(ErrOutOfOrder)
            else r == Failure(ErrReplay)
  {
    hide Open, HeaderOctets;
  }

  /** A message is accepted, with a given plaintext, exactly when the session is still active, the envelope fits
      it, the number is the next one and the body is a sealing of that plaintext under the receive key. */
  lemma AcceptedIff(s: SessionState, m: EncryptedMessage, at: Clock, plaintext: Octets)
    requires Canonical(s)
    ensures DecryptStep(s, m, at).1 == Success(plaintext)
            <==> && ActiveAt(s, at.check)
                 && WellFormed(s, m)
                 && m.sequence == Wrap64(Accepted(s) + 1)
                 && Accepted(s) < TWO_64
                 && m.ciphertext + m.tag == SealOctets(s.receiveKey, m.nonce, plaintext, HeaderOctets(m.AsHeader()))
  {
    OpenIffSealed(s.receiveKey, m.nonce, m.ciphertext + m.tag, HeaderOctets(m.AsHeader()), plaintext);
    hide Open, HeaderOctets, SealOctets;
  }

  predicate IdleTooLong(s: SessionState, now: int) {
    s.status.Active? && now - s.lastActivity > s.timeout
  }

  /** Which error every rejected message gets, and the status the call leaves. */
  lemma DecryptErrors(s: SessionState, m: EncryptedMessage, at: Clock)
    ensures var (s', r) := DecryptStep(s, m, at);
            && (r == Failure(ErrForgotten) <==> s.status.Forgotten?)
            && (r == Failure(ErrExpired) <==> s.status.Expired? || IdleTooLong(s, at.check))
            && (r == Failure(ErrVersion) <==> ActiveAt(s, at.check) && m.version != 1)
            && (r == Failure(ErrSessionID) <==> ActiveAt(s, at.check) && m.version == 1 && m.sessionID != s.sessionID)
            && (r == Failure(ErrNonceSize) <==>
                  ActiveAt(s, at.check) && m.version == 1 && m.sessionID == s.sessionID && |m.nonce| != 12)
            && (r == Failure(ErrTagSize) <==>
                  && ActiveAt(s, at.check) && m.version == 1 && m.sessionID == s.sessionID && |m.nonce| == 12
                  && |m.tag| != 16)
            && r != Failure(ErrRandom) && r != Failure(ErrConfig)
            && s'.status == if s.status.Forgotten? then Forgotten else if ActiveAt(s, at.check) then Active else Expired
  {
    hide Open, HeaderOctets;
  }

  /** With the next number in a fitting envelope, exactly what is no sealing under the receive key is inauthentic. */
  lemma Inauthentic(s: SessionState, m: EncryptedMessage, at: Clock)
    requires Canonical(s) && ActiveAt(s, at.check) && WellFormed(s, m)
    requires Accepted(s) < TWO_64 - 1
    ensures DecryptStep(s, m, at).1 == Failure(ErrAuthentication)
            <==> && m.sequence == s.lastRemoteSeq + 1
                 && forall plaintext ::
                      m.ciphertext + m.tag != SealOctets(s.receiveKey, m.nonce, plaintext, HeaderOctets(m.AsHeader()))
  {
    var inside := Open(s.receiveKey, m.nonce, m.ciphertext + m.tag, HeaderOctets(m.AsHeader()));
    forall plaintext
      ensures inside == Some(plaintext)
              <==> m.ciphertext + m.tag == SealOctets(s.receiveKey, m.nonce, plaintext, HeaderOctets(m.AsHeader()))
    {
      OpenIffSealed(s.receiveKey, m.nonce, m.ciphertext + m.tag, HeaderOctets(m.AsHeader()), plaintext);
    }
    hide Open, HeaderOctets, SealOctets;
  }

  /** Which error every refused encryption gets, and the status the call leaves; a refusal leaves everything else. */
  lemma EncryptErrors(s: SessionState, kind: Octets, plaintext: Octets, nonce: Option<Octets>, at: Clock)
    ensures var (s', r) := EncryptStep(s, kind, plaintext, nonce, at);
            && (r == Failure(ErrForgotten) <==> s.status.Forgotten?)
            && (r == Failure(ErrExpired) <==> s.status.Expired? || IdleTooLong(s, at.check))
            && (r == Failure(ErrRandom) <==> ActiveAt(s, at.check) && nonce.None?)
            && (r.Success? <==> ActiveAt(s, at.check) && nonce.Some?)
            && s'.status
               == (if s.status.Forgotten? then Forgotten else if ActiveAt(s, at.check) then Active else Expired)
            && (r.Failure? ==> s' == s.(status := s'.status))
  {
    hide HeaderOctets, SealOctets;
  }

  /** The ciphertext and tag of an encrypted message are the sealing of its plaintext under its own header. */
  lemma EncryptSeals(s: SessionState, kind: Octets, plaintext: Octets, nonce: Octets, at: Clock)
    ensures match EncryptStep(s, kind, plaintext, Some(nonce), at).1
            case Failure(_) => !ActiveAt(s, at.check)
            case Success(m) =>
              && ActiveAt(s, at.check)
              && m.AsHeader() == Header(VERSION, s.nextLocalSeq, s.sessionID, kind)
              && m.nonce == nonce && |m.tag| == TAG_SIZE
              && m.ciphertext + m.tag == SealOctets(s.sendKey, nonce, plaintext, HeaderOctets(m.AsHeader()))
              && EncryptStep(s, kind, plaintext, Some(nonce), at).0
                 == s.(nextLocalSeq := Next(s.nextLocalSeq), lastActivity := at.touch)
  {
    hide HeaderOctets;
    var header := Header(VERSION, s.nextLocalSeq, s.sessionID, kind);
    var sealed := SealOctets(s.sendKey, nonce, plaintext, HeaderOctets(header));
    assert sealed[..|plaintext|] + sealed[|plaintext|..] == sealed;
  }

  /** What a linked peer that has sent one message more than this session accepted gets through. */
  lemma EncryptThenDecrypt(c: SessionState, s: SessionState, kind: Octets, plaintext: Octets, nonce: Octets,
                           sent: Clock, arrived: Clock)
    requires Canonical(s) && Accepted(s) < TWO_64
    requires c.sessionID == s.sessionID && c.sendKey == s.receiveKey && |nonce| == NONCE_SIZE
    requires ActiveAt(c, sent.check) && ActiveAt(s, arrived.check)
    requires c.nextLocalSeq == Next(s.lastRemoteSeq)
    ensures var (c', m) := EncryptStep(c, kind, plaintext, Some(nonce), sent);
            && m.Success?
            && var (s', r) := DecryptStep(s, m.value, arrived);
               && r == Success(plaintext) && Canonical(s') && Accepted(s') == Accepted(s) + 1
               && c' == c.(nextLocalSeq := Next(c.nextLocalSeq), lastActivity := sent.touch)
               && s' == s.(lastRemoteSeq := c.nextLocalSeq, seen := s'.seen, lastActivity := arrived.touch)
               && c'.nextLocalSeq == Next(s'.lastRemoteSeq)
  {
    EncryptSeals(c, kind, plaintext, nonce, sent);
    hide EncryptStep, Open, HeaderOctets, SealOctets;
    var m := EncryptStep(c, kind, plaintext, Some(nonce), sent).1.value;
    AcceptedIff(s, m, arrived, plaintext);
    DecryptKeepsCanonical(s, m, arrived);
  }

  // ---------- What holds over every run of one endpoint ----------

  datatype Op =
    | Encrypt(kind: Octets, plaintext: Octets, nonce: Option<Octets>, at: Clock)
    | Decrypt(message: EncryptedMessage, at: Clock)
    | QueryState(now: int)
    | InvalidateTrust

  function Apply(s: SessionState, op: Op): SessionState {
    match op
    case Encrypt(kind, plaintext, nonce, at) => EncryptStep(s, kind, plaintext, nonce, at).0
    case Decrypt(message, at) => DecryptStep(s, message, at).0
    case QueryState(now) => ExpireIfIdle(s, now)
    case InvalidateTrust => s.(status := Forgotten)
  }

  predicate Succeeds(s: SessionState, op: Op) {
    match op
    case Encrypt(kind, plaintext, nonce, at) => EncryptStep(s, kind, plaintext, nonce, at).1.Success?
    case Decrypt(message, at) => DecryptStep(s, message, at).1.Success?
    case QueryState(_) => false
    case InvalidateTrust => false
  }

  function Run(s: SessionState, ops: seq<Op>): SessionState {
    if ops == [] then s else Apply(Run(s, ops[..|ops| - 1]), ops[|ops| - 1])
  }

  /** When the last call that succeeded recorded its activity; the creation time if none has. */
  function LastSuccess(s: SessionState, ops: seq<Op>): int {
    if ops == [] then s.lastActivity
    else
      var before, op := ops[..|ops| - 1], ops[|ops| - 1];
      if Succeeds(Run(s, before), op) then op.at.touch else LastSuccess(s, before)
  }

  /** Every reachable state is canonical and its last activity is the time of the last success. */
  lemma {:induction false} RunsAreCanonical(s: SessionState, ops: seq<Op>)
    requires Canonical(s)
    ensures Canonical(Run(s, ops))
    ensures Run(s, ops).lastActivity == LastSuccess(s, ops)
    ensures Run(s, ops).timeout == s.timeout
  {
    if ops != [] {
      var before, op := ops[..|ops| - 1], ops[|ops| - 1];
      RunsAreCanonical(s, before);
      if op.Decrypt? {
        DecryptKeepsCanonical(Run(s, before), op.message, op.at);
      }
    }
  }

  /** A call succeeds only within the timeout of the success before it. */
  lemma SuccessesAreClose(s: SessionState, ops: seq<Op>, op: Op)
    requires Canonical(s)
    requires Succeeds(Run(s, ops), op)
    ensures op.at.check - LastSuccess(s, ops) <= s.timeout
  {
    RunsAreCanonical(s, ops);
  }

  /** An endpoint that has expired or been forgotten never works again: no later call succeeds. */
  lemma {:induction false} DeadStaysDead(s: SessionState, ops: seq<Op>)
    requires !s.status.Active?
    ensures !Run(s, ops).status.Active?
    ensures s.status.Forgotten? ==> Run(s, ops).status.Forgotten?
    ensures Run(s, ops) == s.(status := Run(s, ops).status)
    ensures forall op :: !Succeeds(Run(s, ops), op)
  {
    if ops != [] {
      DeadStaysDead(s, ops[..|ops| - 1]);
    }
  }

  /** Over every run, calls fail as forgotten exactly once trust has been invalidated. */
  lemma {:induction false} ForgottenIffInvalidated(s: SessionState, ops: seq<Op>, m: EncryptedMessage, kind: Octets,
                                                   plaintext: Octets, nonce: Option<Octets>, at: Clock)
    requires !s.status.Forgotten?
    ensures Run(s, ops).status.Forgotten? <==> InvalidateTrust in ops
    ensures DecryptStep(Run(s, ops), m, at).1 == Failure(ErrForgotten) <==> InvalidateTrust in ops
    ensures EncryptStep(Run(s, ops), kind, plaintext, nonce, at).1 == Failure(ErrForgotten) <==> InvalidateTrust in ops
  {
    if ops != [] {
      var before, op := ops[..|ops| - 1], ops[|ops| - 1];
      ForgottenIffInvalidated(s, before, m, kind, plaintext, nonce, at);
      assert ops == before + [op];
      match op {
        case Encrypt(k, p, n, t) => EncryptErrors(Run(s, before), k, p, n, t);
        case Decrypt(message, t) => DecryptErrors(Run(s, before), message, t);
        case QueryState(_) =>
        case InvalidateTrust =>
      }
    }
    hide Open, HeaderOctets, SealOctets;
    DecryptErrors(Run(s, ops), m, at);
    EncryptErrors(Run(s, ops), kind, plaintext, nonce, at);
  }
}
