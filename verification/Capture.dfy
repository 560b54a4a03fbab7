/** The diagnostic capture agrees with the batch assembler. */
module Capture {
  import opened Wrappers
  import opened Bytes
  import opened Session
  import opened Protocol
  import opened Wav
  import opened Assembly
  import opened AudioStreams

  /** One capture fed a list of messages up to the first error: the outcome of the last call made. */
  function CaptureAll(c: Codec, enabled: bool, session: SessionState, s: CaptureState, arrivals: seq<Arrival>)
    : (SessionState, CaptureState, Result<Option<CaptureResult>, StreamError>)
    decreases |arrivals|
  {
    if arrivals == [] then (session, s, Success(None))
    else
      var (session', s', r) := CaptureReceived(c, enabled, session, s, arrivals[0]);
      if r.Failure? || |arrivals| == 1 then (session', s', r)
      else CaptureAll(c, enabled, session', s', arrivals[1..])
  }

  method CaptureStream(c: Codec, machine: StateMachine, arrivals: seq<Arrival>)
    returns (r: Result<Option<CaptureResult>, StreamError>)
    modifies machine
    ensures var (session, _, outcome) := CaptureAll(c, true, old(machine.Contents()), NOTHING_CAPTURED, arrivals);
            machine.Contents() == session && r == outcome
  {
    var capture := new DiagnosticAudioCapture(true);
    r := Success(None);
    for i := 0 to |arrivals|
      invariant fresh(capture) && capture.enabled && r.Success?
      invariant i < |arrivals| ==>
                  CaptureAll(c, true, old(machine.Contents()), NOTHING_CAPTURED, arrivals)
                  == CaptureAll(c, true, machine.Contents(), capture.Contents(), arrivals[i..])
      invariant i == |arrivals| ==>
                  CaptureAll(c, true, old(machine.Contents()), NOTHING_CAPTURED, arrivals)
                  == (machine.Contents(), capture.Contents(), r)
    {
      hide CaptureReceived;
      assert arrivals[i..][0] == arrivals[i] && arrivals[i..][1..] == arrivals[i + 1..];
      r := capture.CaptureEncryptedMessage(c, machine, arrivals[i]);
      if r.Failure? {
        return r;
      }
    }
  }

  /** The capture holds the same stream as a started batch assembler. */
  predicate Mirrors(enabled: bool, a: Assembler, s: CaptureState) {
    && a.started && s.started && a.metadata == s.metadata && a.streamID == s.streamID
    && s.lastSeq == s.frameCount == |a.frames|
    && s.pcm == if enabled then Flatten(a.frames) else []
  }

  lemma MirrorsFrame(c: Codec, enabled: bool, a: Assembler, s: CaptureState, m: Message)
    requires Mirrors(enabled, a, s) && m.AudioFrame? && Assemble(c, a, m).Success?
    ensures var (s', r) := CaptureStep(c, enabled, s, m);
            r == Success(None) && Mirrors(enabled, Assemble(c, a, m).value, s')
  {
    var payload := c.decode64(m.payload64).value;
    FlattenAppend(a.frames, [payload]);
    assert payload + [] == payload;
    assert Flatten([payload]) == payload + Flatten([payload][1..]);
    assert s.pcm + [] == s.pcm;
  }

  /** What a capture answers to the stop of a stream it mirrors. */
  function Verdict(enabled: bool, a: Assembler, claimed: int): Result<Option<CaptureResult>, StreamError> {
    if claimed != |a.frames| then Failure(ErrLastSequence)
    else
      Success(Some(CaptureResult(a.metadata, a.streamID, |a.frames|,
                                 if enabled then EncodeWav(Flatten(a.frames), a.metadata) else [])))
  }

  /** The frame count claimed by the last message, when it is a stop. */
  function Claimed(ms: seq<Message>): int {
    if ms != [] && ms[|ms| - 1].AudioStop? then ms[|ms| - 1].lastSequence else 0
  }

  lemma {:induction false} CaptureFollows(c: Codec, enabled: bool, session: SessionState, a: Assembler, s: CaptureState,
                                          arrivals: seq<Arrival>)
    requires Mirrors(enabled, a, s) && !a.stopped && arrivals != []
    requires FirstStop(c, session, a, arrivals).Some? && FirstStop(c, session, a, arrivals).value.0 == |arrivals|
    ensures ReceiveAll(c, session, arrivals).1.Success?
    ensures var (_, end, b) := FirstStop(c, session, a, arrivals).value;
            var (session', _, r) := CaptureAll(c, enabled, session, s, arrivals);
            session' == end && r == Verdict(enabled, b, Claimed(ReceiveAll(c, session, arrivals).1.value))
    decreases |arrivals|
  {
    hide Receive, EncodeWav;
    var (session', received) := Receive(c, session, arrivals[0]);
    var m := received.value;
    var a' := Assemble(c, a, m).value;
    var rest := arrivals[1..];
    assert FirstStop(c, session', a', rest).value.0 == |rest|;
    if m.AudioStop? {
      assert rest == [];
      assert [m] + [] == [m];
    } else {
      MirrorsFrame(c, enabled, a, s, m);
      hide Mirrors;
      assert rest != [];
      CaptureFollows(c, enabled, session', a', CaptureStep(c, enabled, s, m).0, rest);
      var ms := ReceiveAll(c, session', rest).1.value;
      ReceivedCount(c, session', rest);
      assert ([m] + ms)[|ms|] == ms[|ms| - 1];
    }
  }

  lemma {:induction false} ReceivedCount(c: Codec, s: SessionState, arrivals: seq<Arrival>)
    ensures ReceiveAll(c, s, arrivals).1.Success? ==> |ReceiveAll(c, s, arrivals).1.value| == |arrivals|
    decreases |arrivals|
  {
    hide Receive;
    if arrivals != [] && Receive(c, s, arrivals[0]).1.Success? {
      ReceivedCount(c, Receive(c, s, arrivals[0]).0, arrivals[1..]);
    }
  }

  /** On a stream the batch assembler accepts and whose only stop is the last message, a capture in any earlier state
      ends with the same session and the same audio, provided the stop claims the right number of frames; if it does
      not, the capture reports that and nothing else. */
  lemma CaptureAgrees(c: Codec, enabled: bool, session: SessionState, s: CaptureState, arrivals: seq<Arrival>,
                      metadata: AudioMetadata, frames: seq<seq<byte>>)
    requires StopsOnlyLast(c, session, arrivals)
    requires Assembled(c, session, arrivals).1 == Success((metadata, frames))
    ensures ReceiveAll(c, session, arrivals).1.Success?
    ensures var ms := ReceiveAll(c, session, arrivals).1.value;
            var (session', _, r) := CaptureAll(c, enabled, session, s, arrivals);
            && session' == Assembled(c, session, arrivals).0
            && if Claimed(ms) != |frames| then r == Failure(ErrLastSequence)
               else && r.Success? && r.value.Some?
                    && r.value.value.metadata == metadata && r.value.value.frameCount == |frames|
                    && r.value.value.wav == if enabled then EncodeWav(Flatten(frames), metadata) else []
  {
    StopIsAtTheEnd(c, session, arrivals);
    hide Receive, EncodeWav, Assembled, StopsOnlyLast;
    AfterStart(c, enabled, session, s, arrivals);
    hide CaptureAll, FirstStop, ReceiveAll;
  }

  lemma AfterStart(c: Codec, enabled: bool, session: SessionState, s: CaptureState, arrivals: seq<Arrival>)
    requires |arrivals| >= 2 && Receive(c, session, arrivals[0]).1.Success?
    requires var m := Receive(c, session, arrivals[0]).1.value;
             m.AudioStart? && Assemble(c, EMPTY, m).Success?
    requires FirstStop(c, session, EMPTY, arrivals).Some?
    requires FirstStop(c, session, EMPTY, arrivals).value.0 == |arrivals|
    ensures ReceiveAll(c, session, arrivals).1.Success?
    ensures var (_, end, b) := FirstStop(c, session, EMPTY, arrivals).value;
            var (session', _, r) := CaptureAll(c, enabled, session, s, arrivals);
            session' == end && r == Verdict(enabled, b, Claimed(ReceiveAll(c, session, arrivals).1.value))
  {
    hide Receive, EncodeWav;
    var (session', received) := Receive(c, session, arrivals[0]);
    var m := received.value;
    var a := Assemble(c, EMPTY, m).value;
    var rest := arrivals[1..];
    var s' := CaptureStep(c, enabled, s, m).0;
    assert Mirrors(enabled, a, s');
    CaptureFollows(c, enabled, session', a, s', rest);
    var ms := ReceiveAll(c, session', rest).1.value;
    ReceivedCount(c, session', rest);
    assert ([m] + ms)[|ms|] == ms[|ms| - 1];
  }

  lemma StopIsAtTheEnd(c: Codec, session: SessionState, arrivals: seq<Arrival>)
    requires StopsOnlyLast(c, session, arrivals) && Assembled(c, session, arrivals).1.Success?
    ensures |arrivals| >= 2
    ensures match FirstStop(c, session, EMPTY, arrivals)
            case None => false
            case Some((k, end, b)) =>
              k == |arrivals| && Assembled(c, session, arrivals) == (end, Success((b.metadata, b.frames)))
    ensures Receive(c, session, arrivals[0]).1.Success?
    ensures Receive(c, session, arrivals[0]).1.value.AudioStart?
    ensures Assemble(c, EMPTY, Receive(c, session, arrivals[0]).1.value).Success?
  {
    OnlyTheWhole(c, session, arrivals);
    assert arrivals[..|arrivals|] == arrivals;
    assert FirstSatisfied(c, session, arrivals, |arrivals|);
    FirstSatisfiedIsFirstStop(c, session, arrivals, |arrivals|);
    hide Receive, ReceiveAll;
  }
}
