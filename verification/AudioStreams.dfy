/** The three ways of assembling an audio stream accept the same streams and yield the same audio. */
module AudioStreams {
  import opened Wrappers
  import opened Bytes
  import opened Session
  import opened Protocol
  import opened Assembly

  // ---------- The language of the batch assembler ----------

  /** Every message decrypted and decoded, up to the first error. */
  function ReceiveAll(c: Codec, s: SessionState, arrivals: seq<Arrival>)
    : (SessionState, Result<seq<Message>, StreamError>)
    decreases |arrivals|
  {
    if arrivals == [] then (s, Success([]))
    else
      match Receive(c, s, arrivals[0])
      case (s', Failure(e)) => (s', Failure(e))
      case (s', Success(m)) =>
        match ReceiveAll(c, s', arrivals[1..])
        case (end, Failure(e)) => (end, Failure(e))
        case (end, Success(ms)) => (end, Success([m] + ms))
  }

  function AssembleAll(c: Codec, a: Assembler, ms: seq<Message>): Result<Assembler, StreamError>
    decreases |ms|
  {
    if ms == [] then Success(a)
    else
      match Assemble(c, a, ms[0])
      case Failure(e) => Failure(e)
      case Success(a') => AssembleAll(c, a', ms[1..])
  }

  function FramesIn(ms: seq<Message>): (r: seq<Message>)
    ensures forall m :: m in r ==> m.AudioFrame?
  {
    if ms == [] then []
    else (if ms[0].AudioFrame? then [ms[0]] else []) + FramesIn(ms[1..])
  }

  predicate HasStop(ms: seq<Message>) {
    exists i :: 0 <= i < |ms| && ms[i].AudioStop?
  }

  /** Frames numbered on from `first` and carrying these payloads. */
  predicate NumberedFrom(c: Codec, fs: seq<Message>, first: nat, frames: seq<seq<byte>>)
    requires forall m :: m in fs ==> m.AudioFrame?
  {
    && |fs| == |frames|
    && forall k :: 0 <= k < |fs| ==> fs[k].sequence == first + k + 1 && c.decode64(fs[k].payload64) == Some(frames[k])
  }

  predicate OfStream(ms: seq<Message>, streamID: string) {
    forall m :: m in ms ==> (m.AudioFrame? || m.AudioStop?) && m.streamID == streamID
  }

  /** Frames and stops of one stream, the frames numbered on from `first` and carrying these payloads. */
  predicate Continues(c: Codec, ms: seq<Message>, streamID: string, first: nat, frames: seq<seq<byte>>) {
    OfStream(ms, streamID) && NumberedFrom(c, FramesIn(ms), first, frames)
  }

  /** One valid start, then frames numbered 1, 2, 3, ... of its stream and at least one stop. */
  predicate InLanguage(c: Codec, ms: seq<Message>, metadata: AudioMetadata, frames: seq<seq<byte>>) {
    && ms != [] && ms[0].AudioStart? && ms[0].metadata == metadata && ValidMetadata(metadata)
    && Continues(c, ms[1..], ms[0].streamID, 0, frames)
    && HasStop(ms[1..])
  }

  lemma HasStopFront(ms: seq<Message>)
    requires ms != []
    ensures HasStop(ms) <==> ms[0].AudioStop? || HasStop(ms[1..])
  {
    if HasStop(ms[1..]) {
      var i :| 0 <= i < |ms[1..]| && ms[1..][i].AudioStop?;
      assert ms[i + 1].AudioStop?;
    }
    if HasStop(ms) && !ms[0].AudioStop? {
      var i :| 0 <= i < |ms| && ms[i].AudioStop?;
      assert ms[1..][i - 1].AudioStop?;
    }
  }

  lemma NumberedFront(c: Codec, m: Message, fs: seq<Message>, first: nat, frames: seq<seq<byte>>)
    requires m.AudioFrame? && forall x :: x in fs ==> x.AudioFrame?
    ensures NumberedFrom(c, [m] + fs, first, frames)
            <==> && frames != [] && m.sequence == first + 1 && c.decode64(m.payload64) == Some(frames[0])
                 && NumberedFrom(c, fs, first + 1, frames[1..])
  {
    var all := [m] + fs;
    assert all[0] == m && forall k :: 0 <= k < |fs| ==> fs[k] == all[k + 1];
    if frames != [] {
      assert forall k :: 0 <= k < |frames| - 1 ==> frames[1..][k] == frames[k + 1];
    }
    if NumberedFrom(c, all, first, frames) {
      assert all[0].sequence == first + 1;
    }
    if frames != [] && m.sequence == first + 1 && c.decode64(m.payload64) == Some(frames[0])
       && NumberedFrom(c, fs, first + 1, frames[1..]) {
      forall k | 0 <= k < |all|
        ensures all[k].sequence == first + k + 1 && c.decode64(all[k].payload64) == Some(frames[k])
      {
        assert k > 0 ==> all[k] == fs[k - 1];
      }
    }
  }

  lemma OfStreamFront(ms: seq<Message>, streamID: string)
    requires ms != []
    ensures OfStream(ms, streamID)
            <==> (ms[0].AudioFrame? || ms[0].AudioStop?) && ms[0].streamID == streamID && OfStream(ms[1..], streamID)
  {
    assert forall x :: x in ms <==> x == ms[0] || x in ms[1..];
  }

  lemma ContinuesFront(c: Codec, ms: seq<Message>, streamID: string, first: nat, frames: seq<seq<byte>>)
    requires ms != []
    ensures Continues(c, ms, streamID, first, frames)
            <==> match ms[0]
                 case AudioFrame(_, id, sequence, payload64) =>
                   && id == streamID && sequence == first + 1 && frames != []
                   && c.decode64(payload64) == Some(frames[0])
                   && Continues(c, ms[1..], streamID, first + 1, frames[1..])
                 case AudioStop(_, id, _) => id == streamID && Continues(c, ms[1..], streamID, first, frames)
                 case _ => false
  {
    OfStreamFront(ms, streamID);
    if ms[0].AudioFrame? {
      assert FramesIn(ms) == [ms[0]] + FramesIn(ms[1..]);
      NumberedFront(c, ms[0], FramesIn(ms[1..]), first, frames);
    } else {
      assert FramesIn(ms) == FramesIn(ms[1..]);
    }
    hide OfStream, NumberedFrom, FramesIn;
  }

  /** From a started assembler, what is accepted and what it adds. */
  lemma {:induction false} StartedAccepts(c: Codec, a: Assembler, ms: seq<Message>, end: Assembler)
    requires a.started
    ensures AssembleAll(c, a, ms) == Success(end)
            <==> && |end.frames| >= |a.frames|
                 && Continues(c, ms, a.streamID, |a.frames|, end.frames[|a.frames|..])
                 && end == a.(frames := a.frames + end.frames[|a.frames|..], stopped := a.stopped || HasStop(ms))
    decreases |ms|
  {
    if ms == [] {
      assert a.frames + [] == a.frames;
      if |end.frames| >= |a.frames| && Continues(c, ms, a.streamID, |a.frames|, end.frames[|a.frames|..]) {
        assert end.frames[|a.frames|..] == [];
      }
    } else {
      HasStopFront(ms);
      if |end.frames| >= |a.frames| {
        ContinuesFront(c, ms, a.streamID, |a.frames|, end.frames[|a.frames|..]);
      }
      hide Continues, HasStop;
      match Assemble(c, a, ms[0])
      case Failure(_) =>
      case Success(a') =>
        StartedAccepts(c, a', ms[1..], end);
        if ms[0].AudioFrame? {
          var n := |a.frames|;
          if |end.frames| > n {
            var added := end.frames[n..];
            assert added == [added[0]] + added[1..] && added[1..] == end.frames[n + 1..];
            Reassociate(a.frames, [added[0]], added[1..]);
          }
        }
    }
  }

  /** The exact language of the batch assembler. */
  lemma AssemblesExactly(c: Codec, ms: seq<Message>, metadata: AudioMetadata, frames: seq<seq<byte>>)
    ensures (match AssembleAll(c, EMPTY, ms)
             case Failure(_) => false
             case Success(a) => a.stopped && a.metadata == metadata && a.frames == frames)
            <==> InLanguage(c, ms, metadata, frames)
  {
    if ms != [] && ms[0].AudioStart? && ValidMetadata(ms[0].metadata) {
      var a := EMPTY.(metadata := ms[0].metadata, streamID := ms[0].streamID, started := true);
      assert Assemble(c, EMPTY, ms[0]) == Success(a);
      var end := a.(frames := frames, stopped := true);
      assert frames[0..] == frames && [] + frames == frames;
      StartedAccepts(c, a, ms[1..], end);
      match AssembleAll(c, a, ms[1..])
      case Failure(_) =>
      case Success(b) => StartedAccepts(c, a, ms[1..], b);
    }
  }

  lemma AssembleCons(c: Codec, a: Assembler, m: Message, ms: seq<Message>)
    ensures AssembleAll(c, a, [m] + ms)
            == if Assemble(c, a, m).Failure? then Assemble(c, a, m) else AssembleAll(c, Assemble(c, a, m).value, ms)
  {
    assert ([m] + ms)[1..] == ms;
  }

  lemma {:induction false} BatchIsReceiveThenAssemble(c: Codec, s: SessionState, a: Assembler, arrivals: seq<Arrival>)
    ensures match (Batch(c, s, a, arrivals), ReceiveAll(c, s, arrivals))
            case ((s1, Success(end)), (s2, Success(ms))) => s1 == s2 && AssembleAll(c, a, ms) == Success(end)
            case ((_, Failure(_)), (_, Success(ms))) => AssembleAll(c, a, ms).Failure?
            case ((_, r), (_, Failure(_))) => r.Failure?
    decreases |arrivals|
  {
    if arrivals != [] {
      hide Receive, Assemble;
      match Receive(c, s, arrivals[0]) {
        case (_, Failure(_)) =>
        case (s', Success(m)) =>
          match ReceiveAll(c, s', arrivals[1..]).1 {
            case Failure(_) =>
            case Success(ms) => AssembleCons(c, a, m, ms);
          }
          match Assemble(c, a, m) {
            case Failure(_) =>
            case Success(a') => BatchIsReceiveThenAssemble(c, s', a', arrivals[1..]);
          }
      }
    }
  }

  /** The batch assembler succeeds exactly when every message decrypts and decodes and the decoded list is in the
      language; it then returns the start's metadata and the frame payloads in order. */
  lemma BatchLanguage(c: Codec, s: SessionState, arrivals: seq<Arrival>, metadata: AudioMetadata,
                      frames: seq<seq<byte>>)
    ensures Assembled(c, s, arrivals).1 == Success((metadata, frames))
            <==> match ReceiveAll(c, s, arrivals).1
                 case Failure(_) => false
                 case Success(ms) => InLanguage(c, ms, metadata, frames)
    ensures Assembled(c, s, arrivals).1.Success? ==> Assembled(c, s, arrivals).0 == ReceiveAll(c, s, arrivals).0
  {
    BatchIsReceiveThenAssemble(c, s, EMPTY, arrivals);
    if ReceiveAll(c, s, arrivals).1.Success? {
      AssemblesExactly(c, ReceiveAll(c, s, arrivals).1.value, metadata, frames);
    }
    hide InLanguage, Batch, ReceiveAll, AssembleAll;
  }

  // ---------- Streaming refines batch ----------

  /** The shortest prefix after which the assembler has seen a stop, with the states reached there. */
  function FirstStop(c: Codec, s: SessionState, a: Assembler, arrivals: seq<Arrival>)
    : Option<(nat, SessionState, Assembler)>
    decreases |arrivals|
  {
    if a.stopped then Some((0, s, a))
    else if arrivals == [] then None
    else
      match Receive(c, s, arrivals[0])
      case (_, Failure(_)) => None
      case (s', Success(m)) =>
        match Assemble(c, a, m)
        case Failure(_) => None
        case Success(a') =>
          match FirstStop(c, s', a', arrivals[1..])
          case None => None
          case Some((k, end, b)) => Some((k + 1, end, b))
  }

  lemma {:induction false} FirstStopIsShortest(c: Codec, s: SessionState, a: Assembler, arrivals: seq<Arrival>)
    ensures match FirstStop(c, s, a, arrivals)
            case Some((k, end, b)) =>
              && k <= |arrivals| && b.stopped && Batch(c, s, a, arrivals[..k]) == (end, Success(b))
              && forall j: nat :: j < k ==>
                   Batch(c, s, a, arrivals[..j]).1.Success? && !Batch(c, s, a, arrivals[..j]).1.value.stopped
            case None =>
              forall j: nat :: j <= |arrivals| ==>
                match Batch(c, s, a, arrivals[..j]).1 case Failure(_) => true case Success(b) => !b.stopped
    decreases |arrivals|
  {
    hide Receive, Assemble;
    if a.stopped {
      assert arrivals[..0] == [];
    } else if arrivals != [] {
      var rest := arrivals[1..];
      forall j: nat | 0 < j <= |arrivals|
        ensures arrivals[..j][0] == arrivals[0] && arrivals[..j][1..] == rest[..j - 1]
      {
      }
      assert arrivals[..0] == [];
      match Receive(c, s, arrivals[0])
      case (_, Failure(_)) =>
      case (s', Success(m)) =>
        match Assemble(c, a, m)
        case Failure(_) =>
        case Success(a') =>
          FirstStopIsShortest(c, s', a', rest);
          hide FirstStop;
          forall j: nat | 0 < j <= |arrivals|
            ensures Batch(c, s, a, arrivals[..j]) == Batch(c, s', a', rest[..j - 1])
          {
          }
    }
  }

  lemma {:induction false} AcceptAllAppend<S, R>(asr: Recogniser<S, R>, stream: S, frames: seq<seq<byte>>,
                                                more: seq<seq<byte>>)
    ensures AcceptAll(asr, stream, frames + more)
            == match AcceptAll(asr, stream, frames)
               case None => None
               case Some(next) => AcceptAll(asr, next, more)
    decreases |frames|
  {
    var all := frames + more;
    if frames == [] {
      assert all == more;
    } else {
      assert all[0] == frames[0] && all[1..] == frames[1..] + more;
      match asr.acceptFrame(stream, frames[0])
      case None =>
      case Some(next) => AcceptAllAppend(asr, next, frames[1..], more);
    }
  }

  /** The streaming state that corresponds to a batch assembler which has not seen a stop. */
  ghost predicate Matches<S, R>(asr: Recogniser<S, R>, a: Assembler, st: Streaming<S>) {
    && !a.stopped
    && match st
       case Idle => !a.started && a.frames == []
       case Open(streamID, frames, stream) =>
         && a.started && a.streamID == streamID && |a.frames| == frames
         && asr.newStream(a.metadata).Some?
         && AcceptAll(asr, asr.newStream(a.metadata).value, a.frames) == Some(stream)
  }

  lemma FrameAccepted<S, R>(asr: Recogniser<S, R>, a: Assembler, st: Streaming<S>, frame: seq<byte>)
    requires Matches(asr, a, st) && st.Open?
    ensures var a' := a.(frames := a.frames + [frame]);
            match asr.acceptFrame(st.stream, frame)
            case Some(next) => Matches(asr, a', Open(st.streamID, st.frames + 1, next))
            case None => AcceptAll(asr, asr.newStream(a.metadata).value, a'.frames) == None
  {
    AcceptAllAppend(asr, asr.newStream(a.metadata).value, a.frames, [frame]);
    assert [frame][1..] == [];
  }

  /** Once the recogniser has refused what is assembled, nothing assembled later is transcribed. */
  lemma {:induction false} RefusalIsFinal<S, R>(c: Codec, asr: Recogniser<S, R>, s: SessionState, a: Assembler,
                                               arrivals: seq<Arrival>)
    requires a.started && Transcribable(asr, a) == None
    ensures match FirstStop(c, s, a, arrivals)
            case None => true
            case Some((_, _, b)) => Transcribable(asr, b) == None
    decreases |arrivals|
  {
    if !a.stopped && arrivals != [] {
      hide Receive;
      match Receive(c, s, arrivals[0])
      case (_, Failure(_)) =>
      case (s', Success(m)) =>
        match Assemble(c, a, m)
        case Failure(_) =>
        case Success(a') =>
          if m.AudioFrame? && asr.newStream(a.metadata).Some? {
            AcceptAllAppend(asr, asr.newStream(a.metadata).value, a.frames, [c.decode64(m.payload64).value]);
          }
          hide AcceptAll;
          RefusalIsFinal(c, asr, s', a', arrivals[1..]);
    }
  }

  /** The recogniser's state after all frames assembled so far. */
  function Transcribable<S, R>(asr: Recogniser<S, R>, a: Assembler): Option<S> {
    match asr.newStream(a.metadata)
    case None => None
    case Some(stream) => AcceptAll(asr, stream, a.frames)
  }

  lemma {:induction false} StreamFollowsBatch<S, R>(c: Codec, asr: Recogniser<S, R>, s: SessionState, a: Assembler,
                                                   st: Streaming<S>, arrivals: seq<Arrival>, r: R)
    requires Matches(asr, a, st)
    ensures StreamFrom(c, asr, s, st, arrivals).1 == Finished(r)
            <==> match FirstStop(c, s, a, arrivals)
                 case None => false
                 case Some((_, _, b)) => Transcription(asr, b.metadata, b.frames) == Some(r)
    ensures StreamFrom(c, asr, s, st, arrivals).1.Finished? ==>
              && FirstStop(c, s, a, arrivals).Some?
              && StreamFrom(c, asr, s, st, arrivals).0 == FirstStop(c, s, a, arrivals).value.1
    decreases |arrivals|
  {
    if arrivals != [] {
      hide Receive;
      match Receive(c, s, arrivals[0])
      case (_, Failure(_)) =>
      case (s', Success(m)) =>
        match Assemble(c, a, m)
        case Failure(_) =>
        case Success(a') =>
          if m.AudioStop? {
            hide AcceptAll;
            assert FirstStop(c, s', a', arrivals[1..]) == Some((0, s', a'));
          } else if m.AudioStart? {
            if asr.newStream(m.metadata).Some? {
              StreamFollowsBatch(c, asr, s', a', Open(m.streamID, 0, asr.newStream(m.metadata).value),
                                 arrivals[1..], r);
            } else {
              RefusalIsFinal(c, asr, s', a', arrivals[1..]);
            }
          } else {
            var frame := c.decode64(m.payload64).value;
            FrameAccepted(asr, a, st, frame);
            hide AcceptAll;
            match asr.acceptFrame(st.stream, frame)
            case Some(next) =>
              StreamFollowsBatch(c, asr, s', a', Open(st.streamID, st.frames + 1, next), arrivals[1..], r);
            case None => RefusalIsFinal(c, asr, s', a', arrivals[1..]);
          }
    }
  }

  /** The first `k` messages satisfy the batch assembler, and no fewer do. */
  ghost predicate FirstSatisfied(c: Codec, s: SessionState, arrivals: seq<Arrival>, k: nat) {
    && k <= |arrivals| && Assembled(c, s, arrivals[..k]).1.Success?
    && forall j: nat :: j < k ==> Assembled(c, s, arrivals[..j]).1.Failure?
  }

  lemma FirstSatisfiedIsFirstStop(c: Codec, s: SessionState, arrivals: seq<Arrival>, k: nat)
    ensures FirstSatisfied(c, s, arrivals, k)
            <==> FirstStop(c, s, EMPTY, arrivals).Some? && FirstStop(c, s, EMPTY, arrivals).value.0 == k
    ensures FirstSatisfied(c, s, arrivals, k) ==>
              var (_, end, b) := FirstStop(c, s, EMPTY, arrivals).value;
              Assembled(c, s, arrivals[..k]) == (end, Success((b.metadata, b.frames)))
  {
    FirstStopIsShortest(c, s, EMPTY, arrivals);
    hide Batch, FirstStop;
    if FirstStop(c, s, EMPTY, arrivals).Some? {
      var (n, end, b) := FirstStop(c, s, EMPTY, arrivals).value;
      assert Assembled(c, s, arrivals[..n]) == (end, Success((b.metadata, b.frames)));
    }
  }

  /** What decrypting everything first and transcribing afterwards gives. */
  function BatchResult<S, R>(c: Codec, asr: Recogniser<S, R>, s: SessionState, arrivals: seq<Arrival>): Option<R> {
    match Assembled(c, s, arrivals).1
    case Failure(_) => None
    case Success((metadata, frames)) => Transcription(asr, metadata, frames)
  }

  lemma StreamingAtFirstStop<S, R>(c: Codec, asr: Recogniser<S, R>, s: SessionState, arrivals: seq<Arrival>,
                                   k: nat, r: R)
    requires FirstSatisfied(c, s, arrivals, k)
    ensures StreamFrom(c, asr, s, Idle, arrivals).1 == Finished(r)
            <==> BatchResult(c, asr, s, arrivals[..k]) == Some(r)
    ensures StreamFrom(c, asr, s, Idle, arrivals).1.Finished? ==>
              StreamFrom(c, asr, s, Idle, arrivals).0 == Assembled(c, s, arrivals[..k]).0
  {
    FirstSatisfiedIsFirstStop(c, s, arrivals, k);
    StreamFollowsBatch(c, asr, s, EMPTY, Idle, arrivals, r);
    hide StreamFrom, FirstStop, Transcription, FirstSatisfied, Assembled, Matches;
  }

  lemma StreamingNeedsStop<S, R>(c: Codec, asr: Recogniser<S, R>, s: SessionState, arrivals: seq<Arrival>, r: R)
    requires forall k: nat :: !FirstSatisfied(c, s, arrivals, k)
    ensures StreamFrom(c, asr, s, Idle, arrivals).1 != Finished(r)
  {
    StreamFollowsBatch(c, asr, s, EMPTY, Idle, arrivals, r);
    hide StreamFrom, FirstStop, Transcription, FirstSatisfied, Assembled, Matches;
    if FirstStop(c, s, EMPTY, arrivals).Some? {
      FirstSatisfiedIsFirstStop(c, s, arrivals, FirstStop(c, s, EMPTY, arrivals).value.0);
    }
  }

  /** The streaming loop finishes with `r` exactly when some prefix of the messages is the first to satisfy the batch
      assembler and the batch transcription of that prefix is `r`; both then leave the same session. */
  lemma StreamingRefinesBatch<S, R>(c: Codec, asr: Recogniser<S, R>, s: SessionState, arrivals: seq<Arrival>, r: R)
    ensures StreamFrom(c, asr, s, Idle, arrivals).1 == Finished(r)
            <==> exists k: nat :: FirstSatisfied(c, s, arrivals, k) && BatchResult(c, asr, s, arrivals[..k]) == Some(r)
    ensures forall k: nat :: FirstSatisfied(c, s, arrivals, k) && StreamFrom(c, asr, s, Idle, arrivals).1.Finished? ==>
              Assembled(c, s, arrivals[..k]).0 == StreamFrom(c, asr, s, Idle, arrivals).0
  {
    forall k: nat | FirstSatisfied(c, s, arrivals, k)
      ensures StreamFrom(c, asr, s, Idle, arrivals).1 == Finished(r)
              <==> BatchResult(c, asr, s, arrivals[..k]) == Some(r)
      ensures StreamFrom(c, asr, s, Idle, arrivals).1.Finished? ==>
                StreamFrom(c, asr, s, Idle, arrivals).0 == Assembled(c, s, arrivals[..k]).0
    {
      StreamingAtFirstStop(c, asr, s, arrivals, k, r);
    }
    if forall k: nat :: !FirstSatisfied(c, s, arrivals, k) {
      StreamingNeedsStop(c, asr, s, arrivals, r);
    }
    hide StreamFrom, Assembled, BatchResult;
  }

  /** No message before the last is a stop. */
  predicate StopsOnlyLast(c: Codec, s: SessionState, arrivals: seq<Arrival>) {
    forall j: nat :: j < |arrivals| ==>
      match ReceiveAll(c, s, arrivals[..j]).1
      case Failure(_) => true
      case Success(ms) => !HasStop(ms)
  }

  /** On a message list whose only stop is the last, streaming and batch give the same result and leave the same
      session. */
  lemma StreamingEqualsBatch<S, R(!new)>(c: Codec, asr: Recogniser<S, R>, s: SessionState, arrivals: seq<Arrival>, r: R)
    requires StopsOnlyLast(c, s, arrivals)
    ensures StreamFrom(c, asr, s, Idle, arrivals).1 == Finished(r) <==> BatchResult(c, asr, s, arrivals) == Some(r)
    ensures StreamFrom(c, asr, s, Idle, arrivals).1.Finished? ==>
              StreamFrom(c, asr, s, Idle, arrivals).0 == Assembled(c, s, arrivals).0
  {
    OnlyTheWhole(c, s, arrivals);
    var n := |arrivals|;
    assert arrivals[..n] == arrivals;
    hide StreamFrom, ReceiveAll, Transcription, StopsOnlyLast;
    if Assembled(c, s, arrivals).1.Success? {
      StreamingAtFirstStop(c, asr, s, arrivals, n, r);
    } else {
      forall r': R
        ensures StreamFrom(c, asr, s, Idle, arrivals).1 != Finished(r')
      {
        StreamingNeedsStop(c, asr, s, arrivals, r');
      }
    }
  }

  lemma {:induction false} SameFeeding<S, R, T>(asr: Recogniser<S, R>, prepare: R -> Option<T>, stream: S,
                                                frames: seq<seq<byte>>)
    ensures AcceptAll(Prepared(asr, prepare), stream, frames) == AcceptAll(asr, stream, frames)
    decreases |frames|
  {
    if frames != [] && asr.acceptFrame(stream, frames[0]).Some? {
      SameFeeding(asr, prepare, asr.acceptFrame(stream, frames[0]).value, frames[1..]);
    }
  }

  /** With the stage that follows recognition: the streaming handler answers with a text exactly when the batch path's
      transcription prepares to that text, on a message list whose only stop is the last. */
  lemma StreamingAnswersAsBatch<S, R, T(!new)>(c: Codec, asr: Recogniser<S, R>, prepare: R -> Option<T>,
                                               s: SessionState, arrivals: seq<Arrival>, t: T)
    requires StopsOnlyLast(c, s, arrivals)
    ensures StreamFrom(c, Prepared(asr, prepare), s, Idle, arrivals).1 == Finished(t)
            <==> match BatchResult(c, asr, s, arrivals)
                 case None => false
                 case Some(r) => prepare(r) == Some(t)
  {
    StreamingEqualsBatch(c, Prepared(asr, prepare), s, arrivals, t);
    var assembled := Assembled(c, s, arrivals).1;
    if assembled.Success? && asr.newStream(assembled.value.0).Some? {
      SameFeeding(asr, prepare, asr.newStream(assembled.value.0).value, assembled.value.1);
    }
    hide StreamFrom, Batch, StopsOnlyLast, AcceptAll;
  }

  lemma OnlyTheWhole(c: Codec, s: SessionState, arrivals: seq<Arrival>)
    requires StopsOnlyLast(c, s, arrivals)
    ensures forall k: nat ::
              FirstSatisfied(c, s, arrivals, k) <==> k == |arrivals| && Assembled(c, s, arrivals).1.Success?
  {
    forall j: nat | j < |arrivals|
      ensures Assembled(c, s, arrivals[..j]).1.Failure?
    {
      NeedsStop(c, s, arrivals[..j]);
    }
    assert arrivals[..|arrivals|] == arrivals;
    hide Assembled, StopsOnlyLast;
  }

  lemma NeedsStop(c: Codec, s: SessionState, arrivals: seq<Arrival>)
    ensures Assembled(c, s, arrivals).1.Success? ==>
              ReceiveAll(c, s, arrivals).1.Success? && HasStop(ReceiveAll(c, s, arrivals).1.value)
  {
    if Assembled(c, s, arrivals).1.Success? {
      var (metadata, frames) := Assembled(c, s, arrivals).1.value;
      BatchLanguage(c, s, arrivals, metadata, frames);
      HasStopFront(ReceiveAll(c, s, arrivals).1.value);
    }
  }

  // ---------- A recogniser that keeps what it hears ----------

  /** It starts with the metadata and no frames, appends every frame, and returns all it has. */
  function Collector(): Recogniser<(AudioMetadata, seq<seq<byte>>), (AudioMetadata, seq<seq<byte>>)> {
    Recogniser(
      metadata => Some((metadata, [])),
      (heard: (AudioMetadata, seq<seq<byte>>), frame) => Some((heard.0, heard.1 + [frame])),
      heard => Some(heard))
  }

  lemma {:induction false} CollectorCollects(metadata: AudioMetadata, before: seq<seq<byte>>, frames: seq<seq<byte>>)
    ensures AcceptAll(Collector(), (metadata, before), frames) == Some((metadata, before + frames))
    decreases |frames|
  {
    if frames == [] {
      assert before + [] == before;
    } else {
      CollectorCollects(metadata, before + [frames[0]], frames[1..]);
      assert before + [frames[0]] + frames[1..] == before + frames;
    }
  }

  /** Transcribing hands the recogniser exactly the metadata and the frames, each once and in order. */
  lemma RecogniserHearsAll(metadata: AudioMetadata, frames: seq<seq<byte>>)
    ensures Transcription(Collector(), metadata, frames) == Some((metadata, frames))
  {
    CollectorCollects(metadata, [], frames);
    assert [] + frames == frames;
    hide AcceptAll;
  }

  // ---------- Which error ----------

  /** What a message is received as: what its plaintext decodes to, or why there is none. */
  lemma ReceiveErrors(c: Codec, s: SessionState, a: Arrival)
    ensures var (decrypted, plaintext) := DecryptStep(s, a.message, a.at);
            var (session, received) := Receive(c, s, a);
            && session == decrypted
            && (received.Failure? && received.error.ErrDecrypt? <==> plaintext.Failure?)
            && (plaintext.Failure? ==> received == Failure(ErrDecrypt(plaintext.error)))
            && (received == Failure(ErrDecode) <==> plaintext.Success? && c.decode(plaintext.value).None?)
            && (received.Success? ==> plaintext.Success? && c.decode(plaintext.value) == Some(received.value))
  {
  }

  predicate InStream(m: Message) {
    m.AudioFrame? || m.AudioStop?
  }

  /** Which error a message gets from the batch assembler, and when none. */
  lemma MessageErrors(c: Codec, a: Assembler, m: Message)
    ensures var r := Assemble(c, a, m);
            && (r == Failure(ErrUnexpectedType) <==> !m.AudioStart? && !InStream(m))
            && (r == Failure(ErrDuplicateStart) <==> m.AudioStart? && a.started)
            && (r == Failure(ErrMetadata(UnsupportedEncoding)) <==>
                  m.AudioStart? && !a.started && m.metadata.encoding != "pcm_s16le")
            && (r == Failure(ErrMetadata(InvalidAudioMetadata)) <==>
                  m.AudioStart? && !a.started && m.metadata.encoding == "pcm_s16le" && !ValidMetadata(m.metadata))
            && (r == Failure(ErrStartRequired) <==> InStream(m) && !a.started)
            && (r == Failure(ErrStreamID) <==> InStream(m) && a.started && m.streamID != a.streamID)
            && (r == Failure(ErrSequence) <==>
                  m.AudioFrame? && a.started && m.streamID == a.streamID && m.sequence != |a.frames| + 1)
            && (r == Failure(ErrPayload) <==>
                  && m.AudioFrame? && a.started && m.streamID == a.streamID && m.sequence == |a.frames| + 1
                  && c.decode64(m.payload64).None?)
            && (r.Success? <==>
                  || (m.AudioStart? && !a.started && ValidMetadata(m.metadata))
                  || (m.AudioStop? && a.started && m.streamID == a.streamID)
                  || (&& m.AudioFrame? && a.started && m.streamID == a.streamID && m.sequence == |a.frames| + 1
                      && c.decode64(m.payload64).Some?))
  {
  }

  /** The batch assembler stops at message `k` with this error. */
  predicate BatchFailsAt(c: Codec, s: SessionState, a: Assembler, arrivals: seq<Arrival>, k: nat, e: StreamError) {
    && k < |arrivals|
    && var (end, r) := Batch(c, s, a, arrivals[..k]);
       && r.Success?
       && match Receive(c, end, arrivals[k]).1
          case Failure(cause) => e == cause
          case Success(m) => Assemble(c, r.value, m) == Failure(e)
  }

  lemma {:induction false} FirstFailure(c: Codec, s: SessionState, a: Assembler, arrivals: seq<Arrival>, k: nat,
                                       e: StreamError)
    requires BatchFailsAt(c, s, a, arrivals, k, e)
    ensures Batch(c, s, a, arrivals).1 == Failure(e)
    decreases k
  {
    hide Receive, Assemble;
    if k > 0 {
      assert arrivals[..k][0] == arrivals[0] && arrivals[..k][1..] == arrivals[1..][..k - 1];
      var (s', received) := Receive(c, s, arrivals[0]);
      FirstFailure(c, s', Assemble(c, a, received.value).value, arrivals[1..], k - 1, e);
    } else {
      assert arrivals[..0] == [];
    }
  }

  lemma {:induction false} SomeFailure(c: Codec, s: SessionState, a: Assembler, arrivals: seq<Arrival>) returns (k: nat)
    requires Batch(c, s, a, arrivals).1.Failure?
    ensures BatchFailsAt(c, s, a, arrivals, k, Batch(c, s, a, arrivals).1.error)
    decreases |arrivals|
  {
    hide Receive, Assemble;
    assert arrivals[..0] == [];
    var (s', received) := Receive(c, s, arrivals[0]);
    if received.Success? && Assemble(c, a, received.value).Success? {
      k := SomeFailure(c, s', Assemble(c, a, received.value).value, arrivals[1..]);
      assert arrivals[..k + 1][0] == arrivals[0] && arrivals[..k + 1][1..] == arrivals[1..][..k];
      k := k + 1;
    } else {
      k := 0;
    }
  }

  /** The error of the batch assembler is that of the first message that cannot be received or assembled; without one,
      what is missing is a stop. */
  lemma BatchErrors(c: Codec, s: SessionState, arrivals: seq<Arrival>, e: StreamError)
    requires e != ErrStopRequired
    ensures Assembled(c, s, arrivals).1 == Failure(e) <==> exists k: nat :: BatchFailsAt(c, s, EMPTY, arrivals, k, e)
    ensures Assembled(c, s, arrivals).1 == Failure(ErrStopRequired) <==>
              match Batch(c, s, EMPTY, arrivals).1 case Failure(_) => false case Success(a) => !a.stopped
  {
    forall k: nat | BatchFailsAt(c, s, EMPTY, arrivals, k, e)
      ensures Batch(c, s, EMPTY, arrivals).1 == Failure(e)
    {
      FirstFailure(c, s, EMPTY, arrivals, k, e);
    }
    if Batch(c, s, EMPTY, arrivals).1.Failure? {
      var k := SomeFailure(c, s, EMPTY, arrivals);
      hide Batch;
      MessageNeverLacksStop(c, s, arrivals, k);
    }
    hide Batch, BatchFailsAt;
  }

  lemma MessageNeverLacksStop(c: Codec, s: SessionState, arrivals: seq<Arrival>, k: nat)
    ensures !BatchFailsAt(c, s, EMPTY, arrivals, k, ErrStopRequired)
  {
    hide Batch;
  }
}
