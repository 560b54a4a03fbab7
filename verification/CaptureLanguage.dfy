/** Exactly which streams the diagnostic capture accepts, good or bad, and what it returns for them. */
module CaptureLanguage {
  import opened Wrappers
  import opened Bytes
  import opened Session
  import opened Protocol
  import opened Wav
  import opened Assembly
  import opened AudioStreams
  import opened Capture

  /** Where the last start is. */
  function LastStart(ms: seq<Message>): (r: Option<nat>)
    ensures r.Some? ==> r.value < |ms| && ms[r.value].AudioStart?
  {
    if ms == [] then None
    else if ms[|ms| - 1].AudioStart? then Some(|ms| - 1)
    else LastStart(ms[..|ms| - 1])
  }

  /** The frames since the last start. */
  function FramesSince(ms: seq<Message>): (r: seq<Message>)
    ensures forall m :: m in r ==> m.AudioFrame?
  {
    match LastStart(ms)
    case None => []
    case Some(i) => FramesIn(ms[i + 1..])
  }

  /** The capture accepts `m` after `before`: a start with valid metadata; a frame or stop of the stream of the last
      start, a frame with the next number and a payload that decodes, a stop that claims the frames since; and anything
      else. */
  predicate Acceptable(c: Codec, before: seq<Message>, m: Message) {
    match m
    case AudioStart(_, _, metadata) => ValidMetadata(metadata)
    case AudioFrame(_, streamID, sequence, payload64) =>
      && LastStart(before).Some? && streamID == before[LastStart(before).value].streamID
      && sequence == |FramesSince(before)| + 1 && c.decode64(payload64).Some?
    case AudioStop(_, streamID, lastSequence) =>
      && LastStart(before).Some? && streamID == before[LastStart(before).value].streamID
      && lastSequence == |FramesSince(before)|
    case _ => true
  }

  predicate AllAcceptable(c: Codec, before: seq<Message>, ms: seq<Message>) {
    forall j :: 0 <= j < |ms| ==> Acceptable(c, before + ms[..j], ms[j])
  }

  /** The payloads of the frames, one after the other. */
  function Audio(c: Codec, frames: seq<Message>): seq<byte>
    requires forall m :: m in frames ==> m.AudioFrame?
  {
    if frames == [] then []
    else
      var last := frames[|frames| - 1];
      Audio(c, frames[..|frames| - 1]) + match c.decode64(last.payload64) case None => [] case Some(bytes) => bytes
  }

  /** What a capture that accepted `before` holds. */
  function Held(c: Codec, enabled: bool, before: seq<Message>): CaptureState {
    match LastStart(before)
    case None => NOTHING_CAPTURED
    case Some(i) =>
      var frames := FramesSince(before);
      CaptureState(before[i].metadata, before[i].streamID, true, |frames|, |frames|,
                   if enabled then Audio(c, frames) else [])
  }

  /** What it answers to the last of the messages: at a stop, the capture of the stream. */
  function Returned(c: Codec, enabled: bool, before: seq<Message>, m: Message): Option<CaptureResult> {
    if !m.AudioStop? || LastStart(before).None? then None
    else
      var start := before[LastStart(before).value];
      var frames := FramesSince(before);
      Some(CaptureResult(start.metadata, start.streamID, |frames|,
                         if enabled then EncodeWav(Audio(c, frames), start.metadata) else []))
  }

  lemma {:induction false} FramesInSnoc(ms: seq<Message>, m: Message)
    ensures FramesIn(ms + [m]) == FramesIn(ms) + if m.AudioFrame? then [m] else []
  {
    if ms == [] {
      assert ms + [m] == [m] && [m][1..] == [];
    } else {
      FramesInSnoc(ms[1..], m);
      assert (ms + [m])[0] == ms[0] && (ms + [m])[1..] == ms[1..] + [m];
      Reassociate(if ms[0].AudioFrame? then [ms[0]] else [], FramesIn(ms[1..]), if m.AudioFrame? then [m] else []);
    }
  }

  lemma LastStartSnoc(ms: seq<Message>, m: Message)
    ensures LastStart(ms + [m]) == if m.AudioStart? then Some(|ms|) else LastStart(ms)
  {
    assert (ms + [m])[..|ms|] == ms;
  }

  lemma SinceIs(ms: seq<Message>)
    ensures FramesSince(ms)
            == match LastStart(ms) case None => [] case Some(i) => FramesIn(ms[i + 1..])
  {
  }

  lemma SinceSnoc(ms: seq<Message>, m: Message)
    ensures m.AudioStart? || LastStart(ms).None? ==> FramesSince(ms + [m]) == []
    ensures !m.AudioStart? && LastStart(ms).Some? ==>
              FramesSince(ms + [m]) == FramesSince(ms) + if m.AudioFrame? then [m] else []
  {
    hide LastStart, FramesSince, FramesIn;
    var all := ms + [m];
    LastStartSnoc(ms, m);
    SinceIs(ms);
    SinceIs(all);
    if m.AudioStart? {
      assert all[|ms| + 1..] == [];
      NoFramesInNothing();
    } else if LastStart(ms).Some? {
      var i := LastStart(ms).value;
      TailOfSnoc(ms, m, i + 1);
      FramesInSnoc(ms[i + 1..], m);
    }
  }

  lemma NoFramesInNothing()
    ensures FramesIn([]) == []
  {
  }

  lemma TailOfSnoc(ms: seq<Message>, m: Message, i: nat)
    requires i <= |ms|
    ensures (ms + [m])[i..] == ms[i..] + [m]
  {
  }

  /** One message. */
  lemma CaptureOne(c: Codec, enabled: bool, before: seq<Message>, m: Message)
    ensures var (s', r) := CaptureStep(c, enabled, Held(c, enabled, before), m);
            if Acceptable(c, before, m) then
              s' == Held(c, enabled, before + [m]) && r == Success(Returned(c, enabled, before, m))
            else s' == Held(c, enabled, before) && r.Failure?
  {
    LastStartSnoc(before, m);
    SinceSnoc(before, m);
    hide LastStart, FramesSince, EncodeWav;
    var frames := FramesSince(before);
    if LastStart(before).Some? {
      assert (before + [m])[LastStart(before).value] == before[LastStart(before).value];
    }
    assert (before + [m])[|before|] == m;
    assert frames + [] == frames && Audio(c, []) == [];
    if m.AudioFrame? {
      AudioSnoc(c, frames, m);
      var none: seq<byte> := [];
      assert none + [] == none;
    }
    hide Audio;
  }

  lemma AudioSnoc(c: Codec, frames: seq<Message>, m: Message)
    requires m.AudioFrame? && forall f :: f in frames ==> f.AudioFrame?
    ensures Audio(c, frames + [m])
            == Audio(c, frames) + match c.decode64(m.payload64) case None => [] case Some(bytes) => bytes
  {
    assert (frames + [m])[..|frames|] == frames;
  }

  /** From any point on. */
  lemma {:induction false} CaptureFrom(c: Codec, enabled: bool, session: SessionState, before: seq<Message>,
                                      arrivals: seq<Arrival>)
    ensures var (session', s', r) := CaptureAll(c, enabled, session, Held(c, enabled, before), arrivals);
            var (received, all) := ReceiveAll(c, session, arrivals);
            && (r.Success? <==> all.Success? && AllAcceptable(c, before, all.value))
            && (r.Success? ==>
                  && session' == received && s' == Held(c, enabled, before + all.value)
                  && |all.value| == |arrivals|
                  && (arrivals != [] ==>
                        var ms := all.value;
                        r.value == Returned(c, enabled, before + ms[..|ms| - 1], ms[|ms| - 1])))
    decreases |arrivals|
  {
    hide Receive, CaptureStep, Held, Acceptable, Returned;
    ReceivedCount(c, session, arrivals);
    if arrivals == [] {
      assert before + [] == before;
    } else {
      var (session', received) := Receive(c, session, arrivals[0]);
      if received.Success? {
        var m := received.value;
        var rest := arrivals[1..];
        CaptureOne(c, enabled, before, m);
        CaptureFrom(c, enabled, session', before + [m], rest);
        var all := ReceiveAll(c, session', rest).1;
        if all.Success? {
          Shift(c, before, m, all.value);
          var ms := [m] + all.value;
          assert before + ms == before + [m] + all.value;
          if rest != [] {
            assert before + ms[..|ms| - 1] == before + [m] + all.value[..|all.value| - 1];
          } else {
            assert ms == [m] && before + ms[..0] == before;
          }
        }
      }
    }
  }

  lemma Shift(c: Codec, before: seq<Message>, m: Message, rest: seq<Message>)
    ensures AllAcceptable(c, before, [m] + rest) <==> Acceptable(c, before, m) && AllAcceptable(c, before + [m], rest)
  {
    hide Acceptable;
    var ms := [m] + rest;
    assert before + ms[..0] == before;
    forall j | 0 <= j < |rest|
      ensures before + ms[..j + 1] == before + [m] + rest[..j] && ms[j + 1] == rest[j]
    {
    }
    if AllAcceptable(c, before, ms) {
      assert Acceptable(c, before + ms[..0], ms[0]);
      forall j | 0 <= j < |rest|
        ensures Acceptable(c, before + [m] + rest[..j], rest[j])
      {
        assert Acceptable(c, before + ms[..j + 1], ms[j + 1]);
      }
    }
    if Acceptable(c, before, m) && AllAcceptable(c, before + [m], rest) {
      forall j | 0 <= j < |ms|
        ensures Acceptable(c, before + ms[..j], ms[j])
      {
        if j > 0 {
          assert Acceptable(c, before + [m] + rest[..j - 1], rest[j - 1]);
        }
      }
    }
  }

  /** A new capture accepts a stream exactly when every message is received and acceptable after the ones before it, and
      then ends with the session that received them; what it returns for the last message is the capture of the stream
      since the last start if that message is a stop, and nothing otherwise. */
  lemma CapturesExactly(c: Codec, enabled: bool, session: SessionState, arrivals: seq<Arrival>)
    requires arrivals != []
    ensures var (session', _, r) := CaptureAll(c, enabled, session, NOTHING_CAPTURED, arrivals);
            var (received, all) := ReceiveAll(c, session, arrivals);
            && (r.Success? <==> all.Success? && AllAcceptable(c, [], all.value))
            && (r.Success? ==>
                  var ms := all.value;
                  && session' == received && ms != []
                  && r.value == Returned(c, enabled, ms[..|ms| - 1], ms[|ms| - 1]))
  {
    CaptureFrom(c, enabled, session, [], arrivals);
    var all := ReceiveAll(c, session, arrivals).1;
    if all.Success? && all.value != [] {
      assert [] + all.value[..|all.value| - 1] == all.value[..|all.value| - 1];
    }
    hide CaptureAll, ReceiveAll, AllAcceptable, Returned;
  }

  /** Which error a message gets from the capture. */
  lemma CaptureErrors(c: Codec, enabled: bool, s: CaptureState, m: Message)
    ensures var (s', r) := CaptureStep(c, enabled, s, m);
            && (r == Failure(ErrMetadata(UnsupportedEncoding)) <==>
                  m.AudioStart? && m.metadata.encoding != "pcm_s16le")
            && (r == Failure(ErrMetadata(InvalidAudioMetadata)) <==>
                  m.AudioStart? && m.metadata.encoding == "pcm_s16le" && !ValidMetadata(m.metadata))
            && (r == Failure(ErrStartRequired) <==> InStream(m) && !s.started)
            && (r == Failure(ErrStreamID) <==> InStream(m) && s.started && m.streamID != s.streamID)
            && (r == Failure(ErrSequence) <==>
                  m.AudioFrame? && s.started && m.streamID == s.streamID && m.sequence != s.lastSeq + 1)
            && (r == Failure(ErrPayload) <==>
                  && m.AudioFrame? && s.started && m.streamID == s.streamID && m.sequence == s.lastSeq + 1
                  && c.decode64(m.payload64).None?)
            && (r == Failure(ErrLastSequence) <==>
                  m.AudioStop? && s.started && m.streamID == s.streamID && m.lastSequence != s.lastSeq)
            && (r.Failure? ==> s' == s)
  {
    hide EncodeWav;
  }
}
