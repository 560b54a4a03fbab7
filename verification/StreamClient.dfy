/** The phone's audio stream client: one sequence counter for recordings and key presses, over changing sessions. */
module StreamClient {
  import opened Wrappers
  import opened Bytes
  import opened Symbolic
  import opened Encoding
  import opened Session
  import Channel

  // What the phone keeps of a session it has paired or resumed.
  datatype Keys = Keys(sessionID: Octets, clientToServer: Octets)

  datatype ClientState = ClientState(
    stored: Option<Keys>,
    nextSequence: uint64,
    webSocket: bool,
    current: Option<Keys>,
    encryptedID: Option<Octets>)

  datatype ClientError = NotEstablished | SendFailed | NoReply | InvalidReply | Refused

  /** One send: what it carries, the nonce drawn for it, and whether the socket takes it. */
  datatype Attempt = Attempt(payload: Channel.Payload, nonce: Octets, delivered: bool)

  datatype Reply = Lost | Undecodable | Accepted | Rejected(code: RejectionCode)

  datatype RejectionCode = ReplayedSequence | OutOfOrderSequence | OtherCode

  type Outcome = Result<EncryptedMessage, ClientError>

  function SealedMessage(payload: Channel.Payload, keys: Keys, sequence: uint64, nonce: Octets): EncryptedMessage {
    var additional := HeaderOctets(Header(VERSION, sequence, keys.sessionID, payload.kind));
    var sealed := SealOctets(keys.clientToServer, nonce, payload.plaintext, additional);
    EncryptedMessage(VERSION, keys.sessionID, sequence, payload.kind, nonce,
                     sealed[..|payload.plaintext|], sealed[|payload.plaintext|..])
  }

  function Prepared(c: ClientState, keys: Keys): ClientState {
    if c.encryptedID == Some(keys.sessionID) then c
    else c.(encryptedID := Some(keys.sessionID), nextSequence := 1)
  }

  function Closed(c: ClientState): ClientState {
    c.(webSocket := false, current := None)
  }

  function Cleared(c: ClientState): ClientState {
    c.(stored := None, encryptedID := None, nextSequence := 1)
  }

  function SendStep(c: ClientState, keys: Keys, a: Attempt): (ClientState, Outcome) {
    if a.delivered then
      (c.(nextSequence := Next(c.nextSequence)), Success(SealedMessage(a.payload, keys, c.nextSequence, a.nonce)))
    else (c, Failure(SendFailed))
  }

  function StartStep(c: ClientState, a: Attempt): (ClientState, Outcome) {
    match c.stored
    case None => (c, Failure(NotEstablished))
    case Some(keys) => SendStep(Prepared(c, keys).(webSocket := true, current := Some(keys)), keys, a)
  }

  function FrameStep(c: ClientState, a: Attempt): (ClientState, Outcome) {
    match c.current
    case None => (c, Failure(NotEstablished))
    case Some(keys) => SendStep(c, keys, a)
  }

  // Up to the point where the reply is awaited.
  function StopStep(c: ClientState, a: Attempt): (ClientState, Outcome) {
    if c.current.None? || !c.webSocket then (c, Failure(NotEstablished))
    else
      var (c1, outcome) := SendStep(c, c.current.value, a);
      (if outcome.Failure? then Closed(c1) else c1, outcome)
  }

  function ReplyError(reply: Reply): Option<ClientError> {
    match reply
    case Lost => Some(NoReply)
    case Undecodable => Some(InvalidReply)
    case Accepted => None
    case Rejected(_) => Some(Refused)
  }

  predicate OutOfStep(reply: Reply) {
    reply.Rejected? && !reply.code.OtherCode?
  }

  function StopReplyStep(c: ClientState, reply: Reply): ClientState {
    Closed(if OutOfStep(reply) then Cleared(c) else c)
  }

  // Up to the point where the reply is awaited; a key press does not make its session the current one.
  function KeyPressStep(c: ClientState, a: Attempt): (ClientState, Outcome) {
    match c.stored
    case None => (c, Failure(NotEstablished))
    case Some(keys) =>
      var (c1, outcome) := SendStep(Prepared(c, keys).(webSocket := true), keys, a);
      (if outcome.Failure? then Closed(c1) else c1, outcome)
  }

  // ---------- The client object ----------

  class SecureAudioStreamClient {
    var sessionStore: Option<Keys>
    var nextSequence: uint64
    var webSocket: bool
    var currentStreamSession: Option<Keys>
    var encryptedSessionID: Option<Octets>

    function Contents(): ClientState
      reads this
    {
      ClientState(sessionStore, nextSequence, webSocket, currentStreamSession, encryptedSessionID)
    }

    constructor (stored: Option<Keys>)
      ensures Contents() == ClientState(stored, 1, false, None, None)
    {
      sessionStore := stored;
      nextSequence := 1;
      webSocket := false;
      currentStreamSession := None;
      encryptedSessionID := None;
    }

    method PrepareStreamSession() returns (session: Option<Keys>)
      modifies this
      ensures session == old(sessionStore)
      ensures Contents() == if session.Some? then Prepared(old(Contents()), session.value) else old(Contents())
    {
      session := sessionStore;
      if session.None? {
        return;
      }
      if encryptedSessionID != Some(session.value.sessionID) {
        encryptedSessionID := Some(session.value.sessionID);
        nextSequence := 1;
      }
    }

    // The counter overflows, and the program stops, at the largest number.
    method Send(session: Keys, a: Attempt) returns (outcome: Outcome)
      requires nextSequence + 1 < TWO_64
      modifies this
      ensures (Contents(), outcome) == SendStep(old(Contents()), session, a)
    {
      var sequence := nextSequence;
      var encrypted := SealedMessage(a.payload, session, sequence, a.nonce);
      if !a.delivered {
        return Failure(SendFailed);
      }
      nextSequence := sequence + 1;
      outcome := Success(encrypted);
    }

    method SendAudioStart(a: Attempt) returns (outcome: Outcome)
      requires nextSequence + 1 < TWO_64
      modifies this
      ensures (Contents(), outcome) == StartStep(old(Contents()), a)
    {
      var session := PrepareStreamSession();
      if session.None? {
        return Failure(NotEstablished);
      }
      webSocket := true;
      currentStreamSession := session;
      outcome := Send(session.value, a);
    }

    method SendAudioFrame(a: Attempt) returns (outcome: Outcome)
      requires nextSequence + 1 < TWO_64
      modifies this
      ensures (Contents(), outcome) == FrameStep(old(Contents()), a)
    {
      if currentStreamSession.None? {
        return Failure(NotEstablished);
      }
      outcome := Send(currentStreamSession.value, a);
    }

    method SendAudioStop(a: Attempt) returns (outcome: Outcome)
      requires nextSequence + 1 < TWO_64
      modifies this
      ensures (Contents(), outcome) == StopStep(old(Contents()), a)
    {
      if currentStreamSession.None? {
        return Failure(NotEstablished);
      }
      if !webSocket {
        return Failure(NotEstablished);
      }
      outcome := Send(currentStreamSession.value, a);
      if outcome.Failure? {
        CloseCurrentStream();
      }
    }

    method ReceiveStopReply(reply: Reply) returns (error: Option<ClientError>)
      modifies this
      ensures Contents() == StopReplyStep(old(Contents()), reply) && error == ReplyError(reply)
      ensures error == match reply
                       case Lost => Some(NoReply)
                       case Undecodable => Some(InvalidReply)
                       case Accepted => None
                       case Rejected(_) => Some(Refused)
      ensures !webSocket && currentStreamSession == None
      ensures if reply == Rejected(ReplayedSequence) || reply == Rejected(OutOfOrderSequence) then
                sessionStore == None && encryptedSessionID == None && nextSequence == 1
              else
                && sessionStore == old(sessionStore) && encryptedSessionID == old(encryptedSessionID)
                && nextSequence == old(nextSequence)
    {
      match reply {
        case Lost => error := Some(NoReply);
        case Undecodable => error := Some(InvalidReply);
        case Accepted => error := None;
        case Rejected(code) =>
          if code == ReplayedSequence || code == OutOfOrderSequence {
            ClearSecureSession();
          }
          error := Some(Refused);
      }
      CloseCurrentStream();
    }

    method SendAudioCancel()
      modifies this
      ensures Contents() == Closed(old(Contents()))
      ensures Contents() == old(Contents()).(webSocket := false, current := None)
    {
      webSocket := false;
      currentStreamSession := None;
    }

    method SendKeyPress(a: Attempt) returns (outcome: Outcome)
      requires nextSequence + 1 < TWO_64
      modifies this
      ensures (Contents(), outcome) == KeyPressStep(old(Contents()), a)
    {
      var session := PrepareStreamSession();
      if session.None? {
        return Failure(NotEstablished);
      }
      webSocket := true;
      outcome := Send(session.value, a);
      if outcome.Failure? {
        CloseCurrentStream();
      }
    }

    method ReceiveKeyPressReply(reply: Reply) returns (error: Option<ClientError>)
      modifies this
      ensures Contents() == Closed(old(Contents())) == old(Contents()).(webSocket := false, current := None)
      ensures error == ReplyError(reply) && (error.None? <==> reply == Accepted)
    {
      error := ReplyError(reply);
      CloseCurrentStream();
    }

    method CloseCurrentStream()
      modifies this
      ensures Contents() == Closed(old(Contents()))
    {
      webSocket := false;
      currentStreamSession := None;
    }

    method ClearSecureSession()
      modifies this
      ensures Contents() == Cleared(old(Contents()))
    {
      sessionStore := None;
      encryptedSessionID := None;
      nextSequence := 1;
    }
  }

  // ---------- Runs with the service ----------

  /** A successful send: the session it was made in and what it carried. */
  datatype Sending = Sending(keys: Keys, payload: Channel.Payload, message: EncryptedMessage)

  /** The phone, the ids of the sessions it was ever given, its successful sends, and the service's end of one session
      with what it has accepted. */
  datatype System = System(
    client: ClientState,
    known: set<Octets>,
    log: seq<Sending>,
    server: SessionState,
    received: seq<Octets>)

  /** A pairing or a reconnection stores a session, and a disconnection clears the store behind the client's back; a
      send and the reply it waits for are separate steps, so anything may come between them. */
  datatype Event =
    | Store(keys: Keys)
    | Disconnect
    | Start(a: Attempt)
    | Frame(a: Attempt)
    | Stop(a: Attempt)
    | StopReply(reply: Reply)
    | Cancel
    | KeyPress(a: Attempt)
    | KeyPressReply(reply: Reply)
    | Deliver(message: EncryptedMessage, at: Clock)

  // The session a send of this kind would be made in.
  function SessionFor(c: ClientState, e: Event): Option<Keys> {
    match e
    case Start(_) => c.stored
    case KeyPress(_) => c.stored
    case Frame(_) => c.current
    case Stop(_) => c.current
    case _ => None
  }

  function ClientStep(c: ClientState, e: Event): (ClientState, Outcome) {
    match e
    case Store(keys) => (c.(stored := Some(keys)), Failure(SendFailed))
    case Disconnect => (c.(stored := None), Failure(SendFailed))
    case Start(a) => StartStep(c, a)
    case Frame(a) => FrameStep(c, a)
    case Stop(a) => StopStep(c, a)
    case StopReply(reply) => (StopReplyStep(c, reply), Failure(SendFailed))
    case Cancel => (Closed(c), Failure(SendFailed))
    case KeyPress(a) => KeyPressStep(c, a)
    case KeyPressReply(_) => (Closed(c), Failure(SendFailed))
    case Deliver(_, _) => (c, Failure(SendFailed))
  }

  function DeliverStep(s: System, m: EncryptedMessage, at: Clock): System {
    var (server, r) := DecryptStep(s.server, m, at);
    match r
    case Success(plaintext) => s.(server := server, received := s.received + [plaintext])
    case Failure(_) => s.(server := server)
  }

  function Step(s: System, e: Event): System {
    if e.Deliver? then DeliverStep(s, e.message, e.at)
    else
      var (c, outcome) := ClientStep(s.client, e);
      var keys := SessionFor(s.client, e);
      s.(client := c,
         known := if e.Store? then s.known + {e.keys.sessionID} else s.known,
         log := if outcome.Success? && keys.Some? then s.log + [Sending(keys.value, e.a.payload, outcome.value)]
                else s.log)
  }

  function Run(s: System, events: seq<Event>): System {
    if events == [] then s else Step(Run(s, events[..|events| - 1]), events[|events| - 1])
  }

  /** A key press that is sent in another session than that of the recording that is open. */
  predicate Straddles(c: ClientState, e: Event) {
    && e.KeyPress? && e.a.delivered
    && c.current.Some? && c.stored.Some? && c.current.value.sessionID != c.stored.value.sessionID
  }

  /** What the surroundings of the client do: session ids are fresh, nonces have their size, the key of the observed
      session is the service's, and the network delivers what was sent or what does not open. */
  predicate Fair(s: System, e: Event) {
    match e
    case Store(keys) =>
      && keys.sessionID !in s.known
      && (keys.sessionID == s.server.sessionID ==> keys.clientToServer == s.server.receiveKey)
    case Deliver(m, _) =>
      (exists i :: 0 <= i < |s.log| && s.log[i].message == m)
      || Open(s.server.receiveKey, m.nonce, m.ciphertext + m.tag, HeaderOctets(m.AsHeader())).None?
    case Start(a) => |a.nonce| == NONCE_SIZE
    case Frame(a) => |a.nonce| == NONCE_SIZE
    case Stop(a) => |a.nonce| == NONCE_SIZE
    case KeyPress(a) => |a.nonce| == NONCE_SIZE
    case _ => true
  }

  predicate FairRun(s: System, events: seq<Event>) {
    events != [] ==>
      FairRun(s, events[..|events| - 1]) && Fair(Run(s, events[..|events| - 1]), events[|events| - 1])
  }

  predicate NeverStraddles(s: System, events: seq<Event>) {
    events != [] ==>
      && NeverStraddles(s, events[..|events| - 1])
      && !Straddles(Run(s, events[..|events| - 1]).client, events[|events| - 1])
  }

  // A newly started phone without a session, and the service's end of a session nothing was received in.
  predicate Initial(s: System) {
    && s.client == ClientState(None, 1, false, None, None)
    && s.known == {} && s.log == [] && s.received == []
    && s.server.lastRemoteSeq == 0 && s.server.seen == {}
  }

  // ---------- The numbers within a session ----------

  function InSession(log: seq<Sending>, id: Octets): seq<Sending> {
    if log == [] then []
    else
      var front := InSession(log[..|log| - 1], id);
      if log[|log| - 1].message.sessionID == id then front + [log[|log| - 1]] else front
  }

  predicate Consecutive(sendings: seq<Sending>) {
    forall k :: 0 <= k < |sendings| ==> sendings[k].message.sequence == k + 1
  }

  /** The successful sends of every session are numbered 1, 2, 3, and so on. */
  ghost predicate Numbered(log: seq<Sending>) {
    forall id :: Consecutive(InSession(log, id))
  }

  function Plaintexts(sendings: seq<Sending>): (r: seq<Octets>)
    ensures |r| == |sendings|
  {
    seq(|sendings|, k requires 0 <= k < |sendings| => sendings[k].payload.plaintext)
  }

  lemma InSessionAppend(log: seq<Sending>, x: Sending, id: Octets)
    ensures InSession(log + [x], id) == InSession(log, id) + if x.message.sessionID == id then [x] else []
  {
    assert (log + [x])[..|log|] == log;
  }

  lemma {:induction false} InSessionFinds(log: seq<Sending>, id: Octets, i: nat)
    requires i < |log| && log[i].message.sessionID == id
    ensures exists k :: 0 <= k < |InSession(log, id)| && InSession(log, id)[k] == log[i]
  {
    if i < |log| - 1 {
      InSessionFinds(log[..|log| - 1], id, i);
      var front := InSession(log[..|log| - 1], id);
      var k :| 0 <= k < |front| && front[k] == log[i];
      assert InSession(log, id)[k] == log[i];
    } else {
      assert InSession(log, id)[|InSession(log, id)| - 1] == log[i];
    }
  }

  lemma {:induction false} InSessionBound(log: seq<Sending>, id: Octets)
    ensures |InSession(log, id)| <= |log|
    ensures forall k :: 0 <= k < |InSession(log, id)| ==>
              InSession(log, id)[k] in log && InSession(log, id)[k].message.sessionID == id
  {
    if log != [] {
      InSessionBound(log[..|log| - 1], id);
    }
  }

  // ---------- The invariant ----------

  predicate KeysKnown(s: System, keys: Option<Keys>) {
    keys.Some? ==>
      && keys.value.sessionID in s.known
      && (keys.value.sessionID == s.server.sessionID ==> keys.value.clientToServer == s.server.receiveKey)
  }

  ghost predicate Genuine(x: Sending) {
    && |x.message.nonce| == NONCE_SIZE
    && x.message == SealedMessage(x.payload, x.keys, x.message.sequence, x.message.nonce)
  }

  ghost predicate ClientInvariant(s: System) {
    var c := s.client;
    && KeysKnown(s, c.stored) && KeysKnown(s, c.current)
    && (c.encryptedID.Some? ==>
          c.encryptedID.value in s.known && c.nextSequence == |InSession(s.log, c.encryptedID.value)| + 1)
    && (c.stored.Some? && c.encryptedID != Some(c.stored.value.sessionID) ==>
          InSession(s.log, c.stored.value.sessionID) == [])
    && (c.current.Some? ==> c.encryptedID == Some(c.current.value.sessionID))
  }

  ghost predicate LogInvariant(s: System) {
    && Numbered(s.log)
    && (forall i :: 0 <= i < |s.log| ==> Genuine(s.log[i]) && s.log[i].keys.sessionID in s.known)
    && forall i :: 0 <= i < |s.log| && s.log[i].keys.sessionID == s.server.sessionID ==>
         s.log[i].keys.clientToServer == s.server.receiveKey
  }

  /** What the service has accepted is what was sent first in the session, in order. */
  ghost predicate ServerInvariant(s: System) {
    var sent := InSession(s.log, s.server.sessionID);
    && s.server.lastRemoteSeq <= |sent|
    && s.received == Plaintexts(sent)[..s.server.lastRemoteSeq]
    && Canonical(s.server) && 0 !in s.server.seen
  }

  ghost predicate Invariant(s: System) {
    ClientInvariant(s) && LogInvariant(s) && ServerInvariant(s)
  }

  lemma ClosedKeeps(s: System)
    requires ClientInvariant(s)
    ensures ClientInvariant(s.(client := Closed(s.client)))
  {
  }

  /** Preparing to send in the stored session, when no recording in another session stays open. */
  lemma PreparedKeeps(s: System, keys: Keys)
    requires ClientInvariant(s) && s.client.stored == Some(keys)
    requires s.client.current.Some? ==> s.client.current.value.sessionID == keys.sessionID
    ensures ClientInvariant(s.(client := Prepared(s.client, keys)))
    ensures Prepared(s.client, keys).encryptedID == Some(keys.sessionID)
  {
  }

  function Logged(s: System, keys: Keys, a: Attempt): System {
    s.(client := s.client.(nextSequence := Next(s.client.nextSequence)),
       log := s.log + [Sending(keys, a.payload, SealedMessage(a.payload, keys, s.client.nextSequence, a.nonce))])
  }

  predicate MaySend(s: System, keys: Keys, a: Attempt) {
    && s.client.encryptedID == Some(keys.sessionID) && KeysKnown(s, Some(keys))
    && |a.nonce| == NONCE_SIZE && |s.log| + 2 < TWO_64
  }

  lemma LoggedNumbers(s: System, keys: Keys, a: Attempt)
    requires ClientInvariant(s) && LogInvariant(s) && MaySend(s, keys, a)
    ensures ClientInvariant(Logged(s, keys, a)) && LogInvariant(Logged(s, keys, a))
  {
    hide SealOctets, HeaderOctets;
    var s' := Logged(s, keys, a);
    var x := s'.log[|s.log|];
    InSessionBound(s.log, keys.sessionID);
    forall id: Octets
      ensures InSession(s'.log, id) == InSession(s.log, id) + if id == keys.sessionID then [x] else []
    {
      InSessionAppend(s.log, x, id);
    }
    forall id: Octets
      ensures Consecutive(InSession(s'.log, id))
    {
      assert Consecutive(InSession(s.log, id));
    }
  }

  lemma LoggedServes(s: System, keys: Keys, a: Attempt)
    requires ServerInvariant(s)
    ensures ServerInvariant(Logged(s, keys, a))
  {
    hide SealOctets, HeaderOctets;
    var s' := Logged(s, keys, a);
    InSessionAppend(s.log, s'.log[|s.log|], s.server.sessionID);
    var sent := InSession(s.log, s.server.sessionID);
    var sent' := InSession(s'.log, s.server.sessionID);
    assert Plaintexts(sent')[..s.server.lastRemoteSeq] == Plaintexts(sent)[..s.server.lastRemoteSeq];
  }

  lemma SessionsAreKnown(s: System, id: Octets)
    requires LogInvariant(s) && InSession(s.log, id) != []
    ensures id in s.known
  {
    hide HeaderOctets, SealOctets;
    InSessionBound(s.log, id);
    var x := InSession(s.log, id)[0];
    var i :| 0 <= i < |s.log| && s.log[i] == x;
    assert Genuine(s.log[i]);
  }

  lemma StoreKeeps(s: System, keys: Keys)
    requires Invariant(s) && Fair(s, Store(keys))
    ensures Invariant(Step(s, Store(keys)))
  {
    hide InSession, Numbered;
    if InSession(s.log, keys.sessionID) != [] {
      SessionsAreKnown(s, keys.sessionID);
      assert false;
    }
  }

  lemma SendingKeeps(s: System, e: Event)
    requires Invariant(s) && Fair(s, e) && |s.log| + 2 < TWO_64
    requires e.Start? || e.Frame? || e.Stop? || e.KeyPress?
    requires !Straddles(s.client, e)
    ensures Invariant(Step(s, e))
  {
    hide SealedMessage, InSession, Numbered, LogInvariant, ServerInvariant;
    var keys := SessionFor(s.client, e);
    if keys.Some? {
      var c := s.client;
      var ready := s.(client :=
        match e
        case Start(_) => Prepared(Closed(c), keys.value).(webSocket := true, current := keys)
        case KeyPress(a) => Prepared(if a.delivered then c else Closed(c), keys.value).(webSocket := true)
        case _ => c);
      if e.Start? {
        ClosedKeeps(s);
        PreparedKeeps(s.(client := Closed(c)), keys.value);
      } else if e.KeyPress? {
        ClosedKeeps(s);
        PreparedKeeps(if e.a.delivered then s else s.(client := Closed(c)), keys.value);
      }
      assert ClientInvariant(ready);
      UnlessClientChanges(s, ready);
      if e.a.delivered {
        LoggedNumbers(ready, keys.value, e.a);
        LoggedServes(ready, keys.value, e.a);
      }
      ClosedKeeps(ready);
      UnlessClientChanges(s, ready.(client := Closed(ready.client)));
    }
  }

  // Only the client's own invariant depends on the client.
  lemma UnlessClientChanges(s: System, s': System)
    requires Invariant(s) && ClientInvariant(s') && s' == s.(client := s'.client)
    ensures Invariant(s')
  {
    assert s'.log == s.log && s'.known == s.known && s'.server == s.server && s'.received == s.received;
  }

  /** Whatever the network delivers, the service accepts only the next of what was sent in its session. */
  lemma DeliverKeeps(s: System, m: EncryptedMessage, at: Clock)
    requires Invariant(s) && Fair(s, Deliver(m, at)) && |s.log| + 2 < TWO_64
    ensures Invariant(DeliverStep(s, m, at))
  {
    hide ClientInvariant, SealOctets, HeaderOctets, Open, Canonical, InSession;
    var (server, r) := DecryptStep(s.server, m, at);
    DecryptKeepsCanonical(s.server, m, at);
    InSessionBound(s.log, s.server.sessionID);
    if r.Success? {
      AcceptedIff(s.server, m, at, r.value);
      assert m.sequence == s.server.lastRemoteSeq + 1;
      hide DecryptStep;
      AcceptedWasSent(s, m, r.value);
      var sent := InSession(s.log, s.server.sessionID);
      assert Plaintexts(sent)[..m.sequence] == Plaintexts(sent)[..m.sequence - 1] + [r.value];
    }
    ServerOnly(s, DeliverStep(s, m, at));
  }

  lemma ServerOnly(s: System, s': System)
    requires Invariant(s) && ServerInvariant(s')
    requires s'.client == s.client && s'.log == s.log && s'.known == s.known
    requires s'.server.sessionID == s.server.sessionID && s'.server.receiveKey == s.server.receiveKey
    ensures Invariant(s')
  {
    hide InSession;
  }

  lemma AcceptedWasSent(s: System, m: EncryptedMessage, plaintext: Octets)
    requires LogInvariant(s) && m.sessionID == s.server.sessionID && m.sequence > 0
    requires exists i :: 0 <= i < |s.log| && s.log[i].message == m
    requires m.ciphertext + m.tag == SealOctets(s.server.receiveKey, m.nonce, plaintext, HeaderOctets(m.AsHeader()))
    ensures var sent := InSession(s.log, s.server.sessionID);
            && m.sequence <= |sent|
            && sent[m.sequence - 1].message == m && sent[m.sequence - 1].payload.plaintext == plaintext
  {
    hide HeaderOctets;
    var i :| 0 <= i < |s.log| && s.log[i].message == m;
    InSessionFinds(s.log, m.sessionID, i);
    var sent := InSession(s.log, m.sessionID);
    assert Consecutive(sent);
    var k :| 0 <= k < |sent| && sent[k] == s.log[i];
    SealedOpens(s.log[i], plaintext);
  }

  lemma SealedOpens(x: Sending, plaintext: Octets)
    requires Genuine(x)
    ensures x.message.ciphertext + x.message.tag
            == SealOctets(x.keys.clientToServer, x.message.nonce, x.payload.plaintext,
                          HeaderOctets(x.message.AsHeader()))
    ensures x.message.ciphertext + x.message.tag
            == SealOctets(x.keys.clientToServer, x.message.nonce, plaintext, HeaderOctets(x.message.AsHeader()))
            ==> plaintext == x.payload.plaintext
  {
    var additional := HeaderOctets(x.message.AsHeader());
    OpenIffSealed(x.keys.clientToServer, x.message.nonce, x.message.ciphertext + x.message.tag, additional, plaintext);
    OpenIffSealed(x.keys.clientToServer, x.message.nonce, x.message.ciphertext + x.message.tag, additional,
                  x.payload.plaintext);
    hide Open, HeaderOctets;
  }

  lemma CloseKeeps(s: System)
    requires Invariant(s)
    ensures Invariant(s.(client := Closed(s.client)))
  {
    hide LogInvariant, ServerInvariant, InSession;
    UnlessClientChanges(s, s.(client := Closed(s.client)));
  }

  lemma DisconnectKeeps(s: System)
    requires Invariant(s)
    ensures Invariant(s.(client := s.client.(stored := None)))
  {
    hide LogInvariant, ServerInvariant, InSession;
    UnlessClientChanges(s, s.(client := s.client.(stored := None)));
  }

  lemma ReplyKeeps(s: System, reply: Reply)
    requires Invariant(s)
    ensures Invariant(s.(client := StopReplyStep(s.client, reply)))
  {
    hide LogInvariant, ServerInvariant, InSession;
    UnlessClientChanges(s, s.(client := StopReplyStep(s.client, reply)));
  }

  lemma StepKeepsInvariant(s: System, e: Event)
    requires Invariant(s) && Fair(s, e) && !Straddles(s.client, e) && |s.log| + 2 < TWO_64
    ensures Invariant(Step(s, e)) && |Step(s, e).log| <= |s.log| + 1
  {
    hide Invariant, StopReplyStep, StartStep, FrameStep, StopStep, KeyPressStep;
    match e {
      case Store(keys) => StoreKeeps(s, keys);
      case Disconnect => DisconnectKeeps(s);
      case Deliver(m, at) => DeliverKeeps(s, m, at);
      case StopReply(reply) => ReplyKeeps(s, reply);
      case Cancel => CloseKeeps(s);
      case KeyPressReply(_) => CloseKeeps(s);
      case _ => SendingKeeps(s, e);
    }
  }

  lemma {:induction false} RunKeepsInvariant(s: System, events: seq<Event>)
    requires Initial(s) && FairRun(s, events) && NeverStraddles(s, events)
    requires |events| + 2 < TWO_64
    ensures Invariant(Run(s, events)) && |Run(s, events).log| <= |events|
  {
    hide Invariant, Step, Fair, Straddles;
    if events == [] {
      InitialInvariant(s);
    } else {
      var front := events[..|events| - 1];
      RunKeepsInvariant(s, front);
      StepKeepsInvariant(Run(s, front), events[|events| - 1]);
    }
  }

  lemma InitialInvariant(s: System)
    requires Initial(s)
    ensures Invariant(s)
  {
    assert Plaintexts(InSession(s.log, s.server.sessionID))[..0] == [];
  }

  // ---------- Staying in step ----------

  /** As long as no key press in a new session comes between the sends of a recording, the successful sends of every
      session are numbered 1, 2, 3, ..., over recordings and key presses, and the service has accepted, in order, the
      first so many of those of its session. */
  lemma StaysInStep(s: System, events: seq<Event>)
    requires Initial(s) && FairRun(s, events) && NeverStraddles(s, events)
    requires |events| + 2 < TWO_64
    ensures var after := Run(s, events);
            && Numbered(after.log)
            && var sent := InSession(after.log, s.server.sessionID);
               && after.server.lastRemoteSeq <= |sent|
               && after.received == Plaintexts(sent)[..after.server.lastRemoteSeq]
  {
    RunKeepsInvariant(s, events);
    ServerStays(s, events);
  }

  lemma {:induction false} ServerStays(s: System, events: seq<Event>)
    ensures Run(s, events).server.sessionID == s.server.sessionID
    ensures Run(s, events).server.receiveKey == s.server.receiveKey
  {
    hide ClientStep, SessionFor, Open, HeaderOctets;
    if events != [] {
      ServerStays(s, events[..|events| - 1]);
    }
  }

  /** In every such run, if something sent in the service's session is still to be accepted, then delivering the next of
      it while the session is active is accepted with the plaintext that was sent. */
  lemma NextIsAccepted(s: System, events: seq<Event>, at: Clock)
    requires Initial(s) && FairRun(s, events) && NeverStraddles(s, events)
    requires |events| + 2 < TWO_64
    ensures var after := Run(s, events);
            var sent := InSession(after.log, after.server.sessionID);
            ActiveAt(after.server, at.check) && after.server.lastRemoteSeq < |sent| ==>
              var next := sent[after.server.lastRemoteSeq];
              DecryptStep(after.server, next.message, at).1 == Success(next.payload.plaintext)
  {
    RunKeepsInvariant(s, events);
    var after := Run(s, events);
    hide Run, FairRun, NeverStraddles, DecryptStep, Invariant, InSession, ActiveAt;
    if ActiveAt(after.server, at.check) && after.server.lastRemoteSeq < |InSession(after.log, after.server.sessionID)| {
      NextOpens(after, at);
    }
  }

  lemma NextOpens(s: System, at: Clock)
    requires Invariant(s) && |s.log| + 2 < TWO_64
    requires ActiveAt(s.server, at.check) && s.server.lastRemoteSeq < |InSession(s.log, s.server.sessionID)|
    ensures var next := InSession(s.log, s.server.sessionID)[s.server.lastRemoteSeq];
            DecryptStep(s.server, next.message, at).1 == Success(next.payload.plaintext)
  {
    hide ClientInvariant, SealOctets, HeaderOctets, InSession, Canonical, DecryptStep, Plaintexts;
    InSessionBound(s.log, s.server.sessionID);
    var sent := InSession(s.log, s.server.sessionID);
    var next := sent[s.server.lastRemoteSeq];
    assert Consecutive(sent);
    var i :| 0 <= i < |s.log| && s.log[i] == next;
    SealedOpens(next, next.payload.plaintext);
    AcceptedIff(s.server, next.message, at, next.payload.plaintext);
  }

  // ---------- Exactly when a key press breaks the step ----------

  /** What can follow `before` and the key press: a fair continuation, short enough for the counter, with no key press
      in another session than that of an open recording. */
  predicate MayFollow(s: System, before: seq<Event>, more: seq<Event>) {
    |before| + |more| + 2 < TWO_64 && FairRun(s, before + more) && NeverStraddles(Run(s, before), more)
  }

  /** After any run without straddling, a key press that is sent can be followed by misnumbering that is not the fault
      of a later key press if and only if it is itself made in another session than that of the open recording. */
  lemma StraddlingIsTheFault(s: System, events: seq<Event>, press: Attempt)
    requires Initial(s) && FairRun(s, events) && NeverStraddles(s, events)
    requires |events| + 6 < TWO_64 && press.delivered && |press.nonce| == NONCE_SIZE
    ensures Straddles(Run(s, events).client, KeyPress(press))
            <==> exists more ::
                   && MayFollow(s, events + [KeyPress(press)], more)
                   && !Numbered(Run(s, events + [KeyPress(press)] + more).log)
  {
    var before := events + [KeyPress(press)];
    if Straddles(Run(s, events).client, KeyPress(press)) {
      StraddlingBreaksStep(s, events, press);
    } else {
      forall more | MayFollow(s, before, more)
        ensures Numbered(Run(s, before + more).log)
      {
        OneMore(s, events, KeyPress(press));
        NeverStraddlesConcat(s, before, more);
        StaysInStep(s, before + more);
      }
    }
  }

  // A send of nothing that gets through.
  const EMPTY_SEND := Attempt(Channel.Payload([], []), Lits(Zeros(NONCE_SIZE)), true)

  const ONE_OF_EACH := [Frame(EMPTY_SEND), Cancel, KeyPress(EMPTY_SEND)]

  /** A frame of the recording, its cancellation and one more key press are enough. */
  lemma StraddlingBreaksStep(s: System, events: seq<Event>, press: Attempt)
    requires Initial(s) && FairRun(s, events) && NeverStraddles(s, events)
    requires |events| + 6 < TWO_64 && |press.nonce| == NONCE_SIZE
    requires Straddles(Run(s, events).client, KeyPress(press))
    ensures MayFollow(s, events + [KeyPress(press)], ONE_OF_EACH)
    ensures !Numbered(Run(s, events + [KeyPress(press)] + ONE_OF_EACH).log)
  {
    RunKeepsInvariant(s, events);
    var before := events + [KeyPress(press)];
    OneMore(s, events, KeyPress(press));
    ThreeMore(s, before, Frame(EMPTY_SEND), Cancel, KeyPress(EMPTY_SEND));
    ThreeMore(Run(s, before), [], Frame(EMPTY_SEND), Cancel, KeyPress(EMPTY_SEND));
    assert [] + ONE_OF_EACH == ONE_OF_EACH;
    StraddlingMisnumbers(Run(s, events), press);
  }

  lemma OneMore(s: System, events: seq<Event>, e: Event)
    ensures Run(s, events + [e]) == Step(Run(s, events), e)
    ensures FairRun(s, events + [e]) <==> FairRun(s, events) && Fair(Run(s, events), e)
    ensures NeverStraddles(s, events + [e]) <==> NeverStraddles(s, events) && !Straddles(Run(s, events).client, e)
  {
    hide Step, Fair, Straddles;
    assert (events + [e])[..|events|] == events;
  }

  lemma ThreeMore(s: System, events: seq<Event>, x: Event, y: Event, z: Event)
    ensures var s0 := Run(s, events);
            var s1 := Step(s0, x);
            var s2 := Step(s1, y);
            && Run(s, events + [x, y, z]) == Step(s2, z)
            && (FairRun(s, events + [x, y, z]) <==> FairRun(s, events) && Fair(s0, x) && Fair(s1, y) && Fair(s2, z))
            && (NeverStraddles(s, events + [x, y, z]) <==>
                  NeverStraddles(s, events) && !Straddles(s0.client, x) && !Straddles(s1.client, y)
                  && !Straddles(s2.client, z))
  {
    hide Step, Run, Fair, Straddles, FairRun, NeverStraddles;
    OneMore(s, events, x);
    OneMore(s, events + [x], y);
    OneMore(s, events + [x] + [y], z);
    assert events + [x, y, z] == events + [x] + [y] + [z];
  }

  lemma {:induction false} NeverStraddlesConcat(s: System, before: seq<Event>, more: seq<Event>)
    ensures Run(s, before + more) == Run(Run(s, before), more)
    ensures NeverStraddles(s, before + more) <==> NeverStraddles(s, before) && NeverStraddles(Run(s, before), more)
  {
    hide Step, Straddles;
    if more == [] {
      assert before + more == before;
    } else {
      var front := more[..|more| - 1];
      NeverStraddlesConcat(s, before, front);
      assert (before + more)[..|before + more| - 1] == before + front;
    }
  }

  lemma StraddlingMisnumbers(s: System, press: Attempt)
    requires ClientInvariant(s) && Straddles(s.client, KeyPress(press))
    ensures var s1 := Step(s, KeyPress(press));
            var s2 := Step(s1, Frame(EMPTY_SEND));
            var s3 := Step(s2, Cancel);
            && !Straddles(s1.client, Frame(EMPTY_SEND)) && !Straddles(s2.client, Cancel)
            && !Straddles(s3.client, KeyPress(EMPTY_SEND))
            && !Numbered(Step(s3, KeyPress(EMPTY_SEND)).log)
  {
    hide ClientInvariant, InSession, Numbered, SealOctets, HeaderOctets;
    var id := s.client.stored.value.sessionID;
    var s1 := Step(s, KeyPress(press));
    var s2 := Step(s1, Frame(EMPTY_SEND));
    assert s1.client.nextSequence == 2 && InSession(s.log, id) == [] by {
      StraddlingRestarts(s);
    }
    var s3 := Step(s2, Cancel);
    var s4 := Step(s3, KeyPress(EMPTY_SEND));
    hide Step;
    assert s4.log[|s3.log|].message.sequence == 3;
    LogMisnumbers(s.log, s1.log[|s.log|], s2.log[|s1.log|], s4.log[|s3.log|], id);
  }

  lemma StraddlingRestarts(s: System)
    requires ClientInvariant(s) && s.client.stored.Some? && s.client.current.Some?
    requires s.client.current.value.sessionID != s.client.stored.value.sessionID
    ensures s.client.encryptedID != Some(s.client.stored.value.sessionID)
    ensures InSession(s.log, s.client.stored.value.sessionID) == []
  {
    hide InSession;
  }

  lemma LogMisnumbers(log: seq<Sending>, x: Sending, y: Sending, z: Sending, id: Octets)
    requires InSession(log, id) == []
    requires x.message.sessionID == z.message.sessionID == id != y.message.sessionID && z.message.sequence == 3
    ensures !Numbered(log + [x] + [y] + [z])
  {
    InSessionAppend(log, x, id);
    InSessionAppend(log + [x], y, id);
    InSessionAppend(log + [x] + [y], z, id);
    hide InSession;
    var sent := InSession(log + [x] + [y] + [z], id);
    assert sent == [x, z];
    assert sent[1].message.sequence != 2;
  }

  /** The situation arises: a session is stored, a recording begun in it, and another session stored. */
  lemma StraddlingIsReachable(s: System, first: Keys, second: Keys, press: Attempt)
    requires Initial(s) && first.sessionID != second.sessionID && press.delivered
    requires forall k :: k in [first, second] && k.sessionID == s.server.sessionID ==>
               k.clientToServer == s.server.receiveKey
    ensures var events := [Store(first), Start(EMPTY_SEND), Store(second)];
            && FairRun(s, events) && NeverStraddles(s, events)
            && Straddles(Run(s, events).client, KeyPress(press))
  {
    hide SealOctets, HeaderOctets;
    assert first in [first, second] && second in [first, second];
    ThreeMore(s, [], Store(first), Start(EMPTY_SEND), Store(second));
    assert [] + [Store(first), Start(EMPTY_SEND), Store(second)] == [Store(first), Start(EMPTY_SEND), Store(second)];
    assert Step(s, Store(first)).known == {first.sessionID};
  }

  // ---------- Recovering, and closing ----------

  /** After the service has refused a sequence number nothing is sent until a new session is stored. */
  lemma {:induction false} RefusedUntilStored(s: System, reply: Reply, events: seq<Event>)
    requires OutOfStep(reply) && forall e :: e in events ==> !e.Store?
    ensures var after := Run(Step(s, StopReply(reply)), events);
            after.log == s.log && after.client.stored.None? && after.client.current.None?
  {
    hide DecryptStep, SealedMessage;
    if events != [] {
      assert events[|events| - 1] in events;
      RefusedUntilStored(s, reply, events[..|events| - 1]);
    }
  }

  /** After a recording is cancelled, or its stop answered, no frame and no stop is sent until another is started. */
  lemma {:induction false} ClosedUntilStarted(s: System, closing: Event, events: seq<Event>)
    requires closing.Cancel? || closing.StopReply?
    requires forall e :: e in events ==> !e.Start?
    ensures var after := Run(Step(s, closing), events);
            && after.client.current.None?
            && forall a :: Step(after, Frame(a)).log == after.log && Step(after, Stop(a)).log == after.log
  {
    hide DecryptStep, SealedMessage;
    if events != [] {
      assert events[|events| - 1] in events;
      ClosedUntilStarted(s, closing, events[..|events| - 1]);
    }
  }

  // ---------- What is sent, and why not ----------

  predicate FirstInSession(c: ClientState, keys: Keys) {
    c.encryptedID != Some(keys.sessionID)
  }

  /** Each kind of send: without its session it fails as not established and changes nothing; in it, what the socket
      takes is the sealing of its payload with the next number, or with 1 if the session is new. */
  lemma Outcomes(c: ClientState, a: Attempt)
    ensures c.stored.None? ==> StartStep(c, a) == KeyPressStep(c, a) == (c, Failure(NotEstablished))
    ensures c.current.None? ==> FrameStep(c, a) == StopStep(c, a) == (c, Failure(NotEstablished))
    ensures c.stored.Some? ==>
              var keys := c.stored.value;
              var outcome := if a.delivered then
                               Success(SealedMessage(a.payload, keys,
                                                     if FirstInSession(c, keys) then 1 else c.nextSequence, a.nonce))
                             else Failure(SendFailed);
              StartStep(c, a).1 == KeyPressStep(c, a).1 == outcome
    ensures c.current.Some? ==>
              var outcome := if a.delivered then
                               Success(SealedMessage(a.payload, c.current.value, c.nextSequence, a.nonce))
                             else Failure(SendFailed);
              FrameStep(c, a).1 == outcome && (c.webSocket ==> StopStep(c, a).1 == outcome)
    ensures c.stored.Some? ==>
              var next := if FirstInSession(c, c.stored.value) then 1 else c.nextSequence;
              var ready := c.(encryptedID := Some(c.stored.value.sessionID), webSocket := true,
                              nextSequence := if a.delivered then Wrap64(next + 1) else next);
              && StartStep(c, a).0 == ready.(current := c.stored)
              && KeyPressStep(c, a).0 == if a.delivered then ready else ready.(webSocket := false, current := None)
    ensures c.current.Some? ==>
              var sent := c.(nextSequence := if a.delivered then Wrap64(c.nextSequence + 1) else c.nextSequence);
              && FrameStep(c, a).0 == sent
              && (c.webSocket ==> StopStep(c, a).0 == if a.delivered then sent else Closed(c))
  {
    hide SealedMessage;
  }

  function FrameEvents(frames: seq<Attempt>): (r: seq<Event>)
    ensures |r| == |frames|
  {
    seq(|frames|, i requires 0 <= i < |frames| => Frame(frames[i]))
  }

  /** The sendings of these attempts in a row, numbered on from `first`. */
  function InARow(keys: Keys, attempts: seq<Attempt>, first: nat): (r: seq<Sending>)
    requires first + |attempts| < TWO_64
    ensures |r| == |attempts|
  {
    seq(|attempts|, i requires 0 <= i < |attempts| =>
      Sending(keys, attempts[i].payload, SealedMessage(attempts[i].payload, keys, first + i, attempts[i].nonce)))
  }

  lemma FrameIsSent(s: System, keys: Keys, a: Attempt)
    requires s.client.current == Some(keys) && s.client.nextSequence + 1 < TWO_64 && a.delivered
    ensures Step(s, Frame(a))
            == s.(client := s.client.(nextSequence := s.client.nextSequence + 1),
                  log := s.log + InARow(keys, [a], s.client.nextSequence))
  {
    hide SealedMessage;
  }

  lemma InARowSnoc(keys: Keys, attempts: seq<Attempt>, a: Attempt, first: nat)
    requires first + |attempts| + 1 < TWO_64
    ensures InARow(keys, attempts + [a], first) == InARow(keys, attempts, first) + InARow(keys, [a], first + |attempts|)
  {
    hide SealedMessage;
  }

  lemma InARowCons(keys: Keys, a: Attempt, attempts: seq<Attempt>, first: nat)
    requires first + |attempts| + 1 < TWO_64
    ensures InARow(keys, [a] + attempts, first) == InARow(keys, [a], first) + InARow(keys, attempts, first + 1)
  {
    hide SealedMessage;
  }

  lemma {:induction false} FramesAreSent(s: System, keys: Keys, frames: seq<Attempt>)
    requires s.client.current == Some(keys) && s.client.nextSequence + |frames| < TWO_64
    requires forall a :: a in frames ==> a.delivered
    ensures Run(s, FrameEvents(frames))
            == s.(client := s.client.(nextSequence := s.client.nextSequence + |frames|),
                  log := s.log + InARow(keys, frames, s.client.nextSequence))
  {
    hide SealedMessage, Step, InARow;
    var first := s.client.nextSequence;
    if frames == [] {
      assert InARow(keys, [], first) == [] && s.log + [] == s.log;
    } else {
      var n := |frames| - 1;
      var front, a := frames[..n], frames[n];
      FramesAreSent(s, keys, front);
      assert FrameEvents(frames)[..n] == FrameEvents(front);
      FrameIsSent(Run(s, FrameEvents(front)), keys, a);
      assert front + [a] == frames;
      InARowSnoc(keys, front, a, first);
      Reassociate(s.log, InARow(keys, front, first), InARow(keys, [a], first + n));
    }
  }

  lemma StartIsSent(s: System, keys: Keys, a: Attempt)
    requires s.client.stored == Some(keys) && a.delivered && s.client.nextSequence + 1 < TWO_64
    ensures var first := if FirstInSession(s.client, keys) then 1 else s.client.nextSequence;
            var after := Step(s, Start(a));
            && after.log == s.log + InARow(keys, [a], first)
            && after.client.current == Some(keys) && after.client.webSocket
            && after.client.nextSequence == first + 1
  {
    hide SealedMessage;
  }

  lemma StopIsSent(s: System, keys: Keys, a: Attempt)
    requires s.client.current == Some(keys) && s.client.webSocket && a.delivered && s.client.nextSequence + 1 < TWO_64
    ensures Step(s, Stop(a)).log == s.log + InARow(keys, [a], s.client.nextSequence)
  {
    hide SealedMessage;
  }

  /** A recording whose sends all go through is sent whole: start, frames and stop, in the stored session, with numbers
      that go on from those sent in it before. */
  lemma RecordingIsSent(s: System, keys: Keys, start: Attempt, frames: seq<Attempt>, stop: Attempt)
    requires s.client.stored == Some(keys) && start.delivered && stop.delivered
    requires forall a :: a in frames ==> a.delivered
    requires s.client.nextSequence + |frames| + 3 < TWO_64
    ensures var after := Run(s, [Start(start)] + FrameEvents(frames) + [Stop(stop)]);
            var first := if FirstInSession(s.client, keys) then 1 else s.client.nextSequence;
            after.log == s.log + InARow(keys, [start] + frames + [stop], first)
  {
    hide SealedMessage, Step, InARow, Run, FrameEvents;
    var first: nat := if FirstInSession(s.client, keys) then 1 else s.client.nextSequence;
    var started := Step(s, Start(start));
    StartIsSent(s, keys, start);
    FramesAreSent(started, keys, frames);
    StopIsSent(Run(started, FrameEvents(frames)), keys, stop);
    Between(s, Start(start), FrameEvents(frames), Stop(stop));
    WholeRow(s.log, keys, start, frames, stop, first);
  }

  lemma Between(s: System, x: Event, middle: seq<Event>, y: Event)
    ensures Run(s, [x] + middle + [y]) == Step(Run(Step(s, x), middle), y)
  {
    hide Step;
    OneMore(s, [], x);
    assert [] + [x] == [x];
    NeverStraddlesConcat(s, [x], middle);
    OneMore(s, [x] + middle, y);
  }

  lemma WholeRow(log: seq<Sending>, keys: Keys, start: Attempt, frames: seq<Attempt>, stop: Attempt, first: nat)
    requires first + |frames| + 2 < TWO_64
    ensures log + InARow(keys, [start], first) + InARow(keys, frames, first + 1)
            + InARow(keys, [stop], first + |frames| + 1)
            == log + InARow(keys, [start] + frames + [stop], first)
  {
    InARowCons(keys, start, frames, first);
    InARowSnoc(keys, [start] + frames, stop, first);
    hide InARow;
    Reassociate(log, InARow(keys, [start], first), InARow(keys, frames, first + 1));
    Reassociate(log, InARow(keys, [start] + frames, first), InARow(keys, [stop], first + |frames| + 1));
  }
}
