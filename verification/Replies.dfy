/** What the phone is told of an audio stream: every reply of the streaming handler, by the first message at which the
    batch assembler and the recogniser would have stopped. */
module Replies {
  import opened Wrappers
  import opened Bytes
  import opened Session
  import opened Protocol
  import opened Assembly
  import opened AudioStreams

  /** The batch assembler has accepted everything, no stop has come, and the recogniser has taken every frame. */
  predicate Standing<S, R>(asr: Recogniser<S, R>, assembled: Result<Assembler, StreamError>) {
    && assembled.Success? && !assembled.value.stopped
    && (assembled.value.started ==> Transcribable(asr, assembled.value).Some?)
  }

  /** The stream still stands after its first `k` messages. */
  predicate Stands<S, R>(c: Codec, asr: Recogniser<S, R>, s: SessionState, arrivals: seq<Arrival>, k: nat) {
    k <= |arrivals| && Standing(asr, Batch(c, s, EMPTY, arrivals[..k]).1)
  }

  /** What message number `k` turns out to be, after the ones before it. */
  function At(c: Codec, s: SessionState, arrivals: seq<Arrival>, k: nat): Result<Message, StreamError>
    requires k < |arrivals|
  {
    Receive(c, Batch(c, s, EMPTY, arrivals[..k]).0, arrivals[k]).1
  }

  /** The stream stands up to message `k`, which is refused with this error. */
  predicate FailsAt<S, R>(c: Codec, asr: Recogniser<S, R>, s: SessionState, arrivals: seq<Arrival>, k: nat,
                          e: StreamError)
  {
    k < |arrivals| && Stands(c, asr, s, arrivals, k) && At(c, s, arrivals, k) == Failure(e)
  }

  /** The stream stands up to message `k`, which is a press of this key. */
  predicate PressesAt<S, R>(c: Codec, asr: Recogniser<S, R>, s: SessionState, arrivals: seq<Arrival>, k: nat,
                            key: string, modifiers: seq<string>)
  {
    && k < |arrivals| && Stands(c, asr, s, arrivals, k)
    && match At(c, s, arrivals, k)
       case Success(KeyPress(_, itsKey, itsModifiers)) => itsKey == key && itsModifiers == modifiers
       case _ => false
  }

  // ---------- How far the loop gets ----------

  /** How many messages the loop gets through, and the session and assembler then. */
  function GetsThrough<S, R>(c: Codec, asr: Recogniser<S, R>, s: SessionState, a: Assembler, arrivals: seq<Arrival>)
    : (nat, SessionState, Assembler)
    decreases |arrivals|
  {
    if arrivals == [] then (0, s, a)
    else
      match Receive(c, s, arrivals[0])
      case (_, Failure(_)) => (0, s, a)
      case (s', Success(m)) =>
        if !Standing(asr, Assemble(c, a, m)) then (0, s, a)
        else
          var (k, end, b) := GetsThrough(c, asr, s', Assemble(c, a, m).value, arrivals[1..]);
          (k + 1, end, b)
  }

  /** How the loop ends at the message it does not get through, or for lack of one. */
  function EndAt<S, R>(c: Codec, asr: Recogniser<S, R>, s: SessionState, a: Assembler, rest: seq<Arrival>): Ending<R> {
    if rest == [] then Starved
    else
      match Receive(c, s, rest[0]).1
      case Failure(e) => Failed(e)
      case Success(m) =>
        if m.KeyPress? then KeyPressed(m.key, m.modifiers)
        else
          match Assemble(c, a, m)
          case Failure(e) => Failed(e)
          case Success(b) =>
            if !b.stopped then Failed(ErrRecogniser)
            else
              match Transcription(asr, b.metadata, b.frames)
              case None => Failed(ErrRecogniser)
              case Some(r) => Finished(r)
  }

  function StreamingOf<S, R>(asr: Recogniser<S, R>, a: Assembler): Streaming<S>
    requires Standing(asr, Success(a))
  {
    if a.started then Open(a.streamID, |a.frames|, Transcribable(asr, a).value) else Idle
  }

  /** The loop ends where the batch assembler and the recogniser stop getting through, and as they say. */
  lemma {:induction false} LoopEnds<S, R>(c: Codec, asr: Recogniser<S, R>, s: SessionState, a: Assembler,
                                         arrivals: seq<Arrival>)
    requires Standing(asr, Success(a)) && (!a.started ==> a.frames == [])
    ensures var (k, end, b) := GetsThrough(c, asr, s, a, arrivals);
            && k <= |arrivals|
            && StreamFrom(c, asr, s, StreamingOf(asr, a), arrivals).1 == EndAt(c, asr, end, b, arrivals[k..])
    decreases |arrivals|
  {
    if arrivals != [] {
      hide Receive;
      match Receive(c, s, arrivals[0])
      case (_, Failure(_)) =>
      case (s', Success(m)) =>
        match Assemble(c, a, m)
        case Failure(_) =>
        case Success(b) =>
          if m.AudioFrame? {
            FrameAccepted(asr, a, StreamingOf(asr, a), c.decode64(m.payload64).value);
          }
          hide AcceptAll;
          if Standing(asr, Success(b)) {
            LoopEnds(c, asr, s', b, arrivals[1..]);
          }
    }
  }

  /** What stands no longer never stands again. */
  lemma {:induction false} LostForGood<S, R>(c: Codec, asr: Recogniser<S, R>, s: SessionState, a: Assembler,
                                            arrivals: seq<Arrival>)
    requires !Standing(asr, Success(a))
    ensures !Standing(asr, Batch(c, s, a, arrivals).1)
    decreases |arrivals|
  {
    if arrivals != [] {
      hide Receive;
      match Receive(c, s, arrivals[0])
      case (_, Failure(_)) =>
      case (s', Success(m)) =>
        match Assemble(c, a, m)
        case Failure(_) =>
        case Success(b) =>
          if m.AudioFrame? && asr.newStream(a.metadata).Some? {
            AcceptAllAppend(asr, asr.newStream(a.metadata).value, a.frames, [c.decode64(m.payload64).value]);
          }
          hide AcceptAll;
          LostForGood(c, asr, s', b, arrivals[1..]);
    }
  }

  /** How far the loop gets is how far the stream stands. */
  lemma {:induction false} StandsSoFar<S, R>(c: Codec, asr: Recogniser<S, R>, s: SessionState, a: Assembler,
                                            arrivals: seq<Arrival>, j: nat)
    requires Standing(asr, Success(a)) && j <= |arrivals|
    ensures var (k, end, b) := GetsThrough(c, asr, s, a, arrivals);
            && k <= |arrivals| && Batch(c, s, a, arrivals[..k]) == (end, Success(b))
            && (Standing(asr, Batch(c, s, a, arrivals[..j]).1) <==> j <= k)
    decreases |arrivals|
  {
    assert arrivals[..0] == [];
    if arrivals != [] {
      hide Receive, Assemble, Standing;
      var rest := arrivals[1..];
      forall i: nat | 0 < i <= |arrivals|
        ensures arrivals[..i][0] == arrivals[0] && arrivals[..i][1..] == rest[..i - 1]
      {
      }
      match Receive(c, s, arrivals[0])
      case (_, Failure(e)) =>
        assert j > 0 ==> Batch(c, s, a, arrivals[..j]).1 == Failure(e);
        assert !Standing(asr, Failure(e)) by {
          NoFailureStands(asr, e);
        }
      case (s', Success(m)) =>
        match Assemble(c, a, m)
        case Failure(e) =>
          assert j > 0 ==> Batch(c, s, a, arrivals[..j]).1 == Failure(e);
          NoFailureStands(asr, e);
        case Success(b) =>
          if Standing(asr, Success(b)) {
            StandsSoFar(c, asr, s', b, rest, if j == 0 then 0 else j - 1);
          } else if j > 0 {
            LostForGood(c, asr, s', b, rest[..j - 1]);
          }
    }
  }

  lemma NoFailureStands<S, R>(asr: Recogniser<S, R>, e: StreamError)
    ensures !Standing(asr, Failure(e))
  {
  }

  lemma {:induction false} BatchFront(c: Codec, s: SessionState, a: Assembler, arrivals: seq<Arrival>, k: nat)
    requires k < |arrivals| && Batch(c, s, a, arrivals[..k + 1]).1.Success?
    ensures var (end, r) := Batch(c, s, a, arrivals[..k]);
            && r.Success? && Receive(c, end, arrivals[k]).1.Success?
            && Assemble(c, r.value, Receive(c, end, arrivals[k]).1.value).Success?
    decreases k
  {
    hide Receive, Assemble;
    assert arrivals[..k + 1][0] == arrivals[0] && arrivals[..k + 1][1..] == arrivals[1..][..k];
    var (s', received) := Receive(c, s, arrivals[0]);
    assert arrivals[..0] == [] && arrivals[1..][..0] == [];
    if k > 0 {
      assert arrivals[..k][0] == arrivals[0] && arrivals[..k][1..] == arrivals[1..][..k - 1];
      BatchFront(c, s', Assemble(c, a, received.value).value, arrivals[1..], k - 1);
    }
  }

  /** The one message the loop ends at, if it does not run out of messages: up to it the stream stands, and beyond it
      not. */
  lemma EndOfLoop<S, R>(c: Codec, asr: Recogniser<S, R>, s: SessionState, arrivals: seq<Arrival>) returns (k: nat)
    ensures Stands(c, asr, s, arrivals, k)
    ensures forall j: nat :: Stands(c, asr, s, arrivals, j) <==> j <= k
    ensures var ending := StreamFrom(c, asr, s, Idle, arrivals).1;
            if k == |arrivals| then ending == Starved
            else
              match At(c, s, arrivals, k)
              case Failure(e) => ending == Failed(e)
              case Success(m) =>
                if m.KeyPress? then ending == KeyPressed(m.key, m.modifiers)
                else ending.Finished? || (ending.Failed? && !ending.error.ErrDecrypt?)
  {
    var (n, end, b) := GetsThrough(c, asr, s, EMPTY, arrivals);
    k := n;
    LoopEnds(c, asr, s, EMPTY, arrivals);
    forall j: nat
      ensures Stands(c, asr, s, arrivals, j) <==> j <= n
    {
      if j <= |arrivals| {
        StandsSoFar(c, asr, s, EMPTY, arrivals, j);
      } else {
        StandsSoFar(c, asr, s, EMPTY, arrivals, 0);
      }
    }
    StandsSoFar(c, asr, s, EMPTY, arrivals, n);
    hide StreamFrom, Batch, GetsThrough, Receive, Transcription;
    assert n < |arrivals| ==> arrivals[n..][0] == arrivals[n];
  }

  /** A message that is refused, or is a key press, is not got through. */
  lemma NotGotThrough<S, R>(c: Codec, asr: Recogniser<S, R>, s: SessionState, arrivals: seq<Arrival>, k: nat)
    requires k < |arrivals| && Stands(c, asr, s, arrivals, k)
    requires At(c, s, arrivals, k).Failure? || At(c, s, arrivals, k).value.KeyPress?
    ensures !Stands(c, asr, s, arrivals, k + 1)
  {
    if Stands(c, asr, s, arrivals, k + 1) {
      BatchFront(c, s, EMPTY, arrivals, k);
      assert false;
    }
  }

  // ---------- The replies ----------

  function Told<S, R>(c: Codec, asr: Recogniser<S, R>, s: SessionState, arrivals: seq<Arrival>, silence: Silence,
                      pressed: (string, seq<string>) -> bool): Option<Reply<R>>
  {
    ReplyTo(StreamFrom(c, asr, s, Idle, arrivals).1, silence, pressed)
  }

  predicate CodeFor(code: ReplyCode, e: SessionError) {
    match code
    case ReplayedSequence => e == ErrReplay
    case OutOfOrderSequence => e == ErrOutOfOrder
    case SessionExpired => e == ErrExpired
    case SessionForbidden => e == ErrForgotten
    case _ => false
  }

  /** The codes with which the phone acts on its session: each is told exactly when the first message that the stream
      does not survive fails to decrypt for that reason. */
  lemma RefusedForTheSession<S, R>(c: Codec, asr: Recogniser<S, R>, s: SessionState, arrivals: seq<Arrival>,
                                   silence: Silence, pressed: (string, seq<string>) -> bool)
    ensures var reply := Told(c, asr, s, arrivals, silence, pressed);
            && (reply == Some(Refused(ReplayedSequence)) <==>
                  exists k: nat :: FailsAt(c, asr, s, arrivals, k, ErrDecrypt(ErrReplay)))
            && (reply == Some(Refused(OutOfOrderSequence)) <==>
                  exists k: nat :: FailsAt(c, asr, s, arrivals, k, ErrDecrypt(ErrOutOfOrder)))
            && (reply == Some(Refused(SessionExpired)) <==>
                  exists k: nat :: FailsAt(c, asr, s, arrivals, k, ErrDecrypt(ErrExpired)))
            && (reply == Some(Refused(SessionForbidden)) <==>
                  exists k: nat :: FailsAt(c, asr, s, arrivals, k, ErrDecrypt(ErrForgotten)))
  {
    RefusedWith(c, asr, s, arrivals, silence, pressed, ReplayedSequence, ErrReplay);
    RefusedWith(c, asr, s, arrivals, silence, pressed, OutOfOrderSequence, ErrOutOfOrder);
    RefusedWith(c, asr, s, arrivals, silence, pressed, SessionExpired, ErrExpired);
    RefusedWith(c, asr, s, arrivals, silence, pressed, SessionForbidden, ErrForgotten);
    hide Told, FailsAt;
  }

  lemma RefusedWith<S, R>(c: Codec, asr: Recogniser<S, R>, s: SessionState, arrivals: seq<Arrival>, silence: Silence,
                          pressed: (string, seq<string>) -> bool, code: ReplyCode, e: SessionError)
    requires CodeFor(code, e)
    ensures Told(c, asr, s, arrivals, silence, pressed) == Some(Refused(code))
            <==> exists k: nat :: FailsAt(c, asr, s, arrivals, k, ErrDecrypt(e))
  {
    var n := EndOfLoop(c, asr, s, arrivals);
    forall k: nat | FailsAt(c, asr, s, arrivals, k, ErrDecrypt(e))
      ensures k == n
    {
      NotGotThrough(c, asr, s, arrivals, k);
    }
    hide StreamFrom, Stands, At;
    if n < |arrivals| && At(c, s, arrivals, n) == Failure(ErrDecrypt(e)) {
      assert FailsAt(c, asr, s, arrivals, n, ErrDecrypt(e));
    }
  }

  /** A key press is acknowledged exactly when it is the first thing the stream does not survive and its own key and
      modifiers are injected. */
  lemma AcknowledgedIffPressed<S, R>(c: Codec, asr: Recogniser<S, R>, s: SessionState, arrivals: seq<Arrival>,
                                     silence: Silence, pressed: (string, seq<string>) -> bool)
    ensures Told(c, asr, s, arrivals, silence, pressed) == Some(Acknowledged)
            <==> exists k: nat, key, modifiers ::
                   PressesAt(c, asr, s, arrivals, k, key, modifiers) && pressed(key, modifiers)
  {
    var n := EndOfLoop(c, asr, s, arrivals);
    forall k: nat, key, modifiers | PressesAt(c, asr, s, arrivals, k, key, modifiers)
      ensures k == n
    {
      NotGotThrough(c, asr, s, arrivals, k);
    }
    hide StreamFrom, Stands, At;
    if n < |arrivals| && At(c, s, arrivals, n).Success? && At(c, s, arrivals, n).value.KeyPress? {
      var m := At(c, s, arrivals, n).value;
      assert PressesAt(c, asr, s, arrivals, n, m.key, m.modifiers);
    }
  }

  /** The phone is left without a reply exactly when it closes the connection while the stream stands; failing to read,
      or to make out, a further message is told exactly while the stream stands. */
  lemma SilenceIffClosed<S, R>(c: Codec, asr: Recogniser<S, R>, s: SessionState, arrivals: seq<Arrival>,
                               silence: Silence, pressed: (string, seq<string>) -> bool)
    ensures var reply := Told(c, asr, s, arrivals, silence, pressed);
            && (reply == None <==> silence.PeerClosed? && Stands(c, asr, s, arrivals, |arrivals|))
            && (reply == Some(Refused(ReadFailed)) <==> silence.ReadFails? && Stands(c, asr, s, arrivals, |arrivals|))
            && (reply == Some(Refused(InvalidMessage)) <==>
                  silence.Malformed? && Stands(c, asr, s, arrivals, |arrivals|))
  {
    var n := EndOfLoop(c, asr, s, arrivals);
    assert Stands(c, asr, s, arrivals, n + 1) <==> n + 1 <= n;
    hide StreamFrom, At;
    assert n <= |arrivals|;
    hide Stands;
  }

  /** The phone is told a text exactly when some prefix is the first to satisfy the batch assembler and its batch
      transcription, put through the clean-up stage, is that text. */
  lemma AnsweredAsBatch<S, R, T>(c: Codec, asr: Recogniser<S, R>, prepare: R -> Option<T>, s: SessionState,
                                 arrivals: seq<Arrival>, silence: Silence, pressed: (string, seq<string>) -> bool, t: T)
    ensures Told(c, Prepared(asr, prepare), s, arrivals, silence, pressed) == Some(Answered(t))
            <==> exists k: nat ::
                   FirstSatisfied(c, s, arrivals, k) && BatchText(c, asr, prepare, s, arrivals[..k]) == Some(t)
  {
    StreamingRefinesBatch(c, Prepared(asr, prepare), s, arrivals, t);
    forall k: nat | k <= |arrivals|
      ensures BatchResult(c, Prepared(asr, prepare), s, arrivals[..k]) == BatchText(c, asr, prepare, s, arrivals[..k])
    {
      PreparedBatch(c, asr, prepare, s, arrivals[..k]);
    }
    hide StreamFrom, BatchResult, BatchText, FirstSatisfied;
    if Told(c, Prepared(asr, prepare), s, arrivals, silence, pressed) == Some(Answered(t)) {
      var k: nat :| FirstSatisfied(c, s, arrivals, k)
                    && BatchResult(c, Prepared(asr, prepare), s, arrivals[..k]) == Some(t);
      assert FirstSatisfied(c, s, arrivals, k) && BatchText(c, asr, prepare, s, arrivals[..k]) == Some(t);
    }
  }

  /** What the batch path answers: assembling, transcribing and cleaning up. */
  function BatchText<S, R, T>(c: Codec, asr: Recogniser<S, R>, prepare: R -> Option<T>, s: SessionState,
                              arrivals: seq<Arrival>): Option<T>
  {
    match BatchResult(c, asr, s, arrivals)
    case None => None
    case Some(r) => prepare(r)
  }

  lemma PreparedBatch<S, R, T>(c: Codec, asr: Recogniser<S, R>, prepare: R -> Option<T>, s: SessionState,
                               arrivals: seq<Arrival>)
    ensures BatchResult(c, Prepared(asr, prepare), s, arrivals) == BatchText(c, asr, prepare, s, arrivals)
  {
    var assembled := Assembled(c, s, arrivals).1;
    if assembled.Success? && asr.newStream(assembled.value.0).Some? {
      SameFeeding(asr, prepare, asr.newStream(assembled.value.0).value, assembled.value.1);
    }
    hide AcceptAll, Assembled;
  }

  /** On a message list whose only stop is the last, that is the whole list. */
  lemma AnsweredOnlyStopLast<S, R, T>(c: Codec, asr: Recogniser<S, R>, prepare: R -> Option<T>, s: SessionState,
                                      arrivals: seq<Arrival>, silence: Silence,
                                      pressed: (string, seq<string>) -> bool, t: T)
    requires StopsOnlyLast(c, s, arrivals)
    ensures Told(c, Prepared(asr, prepare), s, arrivals, silence, pressed) == Some(Answered(t))
            <==> BatchText(c, asr, prepare, s, arrivals) == Some(t)
  {
    AnsweredAsBatch(c, asr, prepare, s, arrivals, silence, pressed, t);
    OnlyTheWhole(c, s, arrivals);
    assert arrivals[..|arrivals|] == arrivals;
    hide Told, FirstSatisfied, StopsOnlyLast, Transcription, Batch;
    if BatchText(c, asr, prepare, s, arrivals) == Some(t) {
      assert FirstSatisfied(c, s, arrivals, |arrivals|);
    }
  }
}
