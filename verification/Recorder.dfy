/** The latency recorder: a bounded list of traces, newest first, with an index of positions. */
module Recorder {
  import opened Wrappers

  datatype LatencyTrace = LatencyTrace(
    traceID: string,
    deviceID: string,
    acceptedAt: int,
    audioStopReceivedAt: int,
    completedAt: int,
    insertCompletedAt: int,
    bufferedMessages: int,
    frames: int,
    audioMSEstimate: int,
    decryptDecodeMS: int,
    asrMS: int,
    llmMS: int,
    responseWriteMS: int,
    insertMS: int,
    totalAfterStopMS: int,
    rawTranscriptChars: int,
    finalTextChars: int,
    errorStage: string,
    error: string)

  // What a caller does to the trace it is given a reference to.
  type Change = LatencyTrace -> LatencyTrace

  const DEFAULT_LATENCY_TRACE_LIMIT: nat := 20

  function NewTrace(traceID: string, deviceID: string, acceptedAt: int): LatencyTrace {
    LatencyTrace(traceID, deviceID, acceptedAt, 0, 0, 0, 0, 0, 0, 0, 0, 0, 0, 0, 0, 0, 0, "", "")
  }

  function Take<T>(s: seq<T>, n: nat): seq<T> {
    if |s| <= n then s else s[..n]
  }

  function Position(traces: seq<LatencyTrace>, traceID: string): (position: Option<nat>)
    ensures position.None? <==> forall k :: 0 <= k < |traces| ==> traces[k].traceID != traceID
    ensures position.Some? ==> position.value < |traces| && traces[position.value].traceID == traceID
  {
    if traces == [] then None
    else if traces[0].traceID == traceID then Some(0)
    else match Position(traces[1..], traceID)
      case None => None
      case Some(k) => Some(k + 1)
  }

  function Restarted(trace: LatencyTrace, deviceID: string, acceptedAt: int): LatencyTrace {
    trace.(deviceID := deviceID, acceptedAt := acceptedAt)
  }

  function StartStep(traces: seq<LatencyTrace>, limit: nat, traceID: string, deviceID: string, acceptedAt: int)
    : seq<LatencyTrace>
  {
    if traceID == "" then traces
    else match Position(traces, traceID)
      case Some(k) => traces[k := Restarted(traces[k], deviceID, acceptedAt)]
      case None => Take([NewTrace(traceID, deviceID, acceptedAt)] + traces, limit)
  }

  function UpdateStep(traces: seq<LatencyTrace>, traceID: string, change: Option<Change>): seq<LatencyTrace> {
    if traceID == "" || change.None? then traces
    else match Position(traces, traceID)
      case Some(k) => traces[k := change.value(traces[k])]
      case None => traces
  }

  ghost predicate Distinct(traces: seq<LatencyTrace>) {
    forall j, k :: 0 <= j < k < |traces| ==> traces[j].traceID != traces[k].traceID
  }

  ghost predicate Named(traces: seq<LatencyTrace>) {
    forall k :: 0 <= k < |traces| ==> traces[k].traceID != ""
  }

  ghost predicate SameIDs(before: seq<LatencyTrace>, after: seq<LatencyTrace>) {
    |after| == |before| && forall k :: 0 <= k < |before| ==> after[k].traceID == before[k].traceID
  }

  /** `index` has exactly the ids of `traces`, each with its position. */
  ghost predicate Indexes(index: map<string, nat>, traces: seq<LatencyTrace>) {
    && (forall k :: 0 <= k < |traces| ==> traces[k].traceID in index && index[traces[k].traceID] == k)
    && (forall id :: id in index ==> index[id] < |traces| && traces[index[id]].traceID == id)
  }

  /** What a start writes: a trace already listed gets the new device and time and keeps everything else; any other
      goes to the front with nothing else in it, and what no longer fits goes at the end. */
  lemma StartWrites(traces: seq<LatencyTrace>, limit: nat, traceID: string, deviceID: string, acceptedAt: int)
    requires 0 < limit && |traces| <= limit
    ensures var after := StartStep(traces, limit, traceID, deviceID, acceptedAt);
            && (traceID == "" ==> after == traces)
            && (traceID != "" && Position(traces, traceID).Some? ==>
                  var k := Position(traces, traceID).value;
                  after == traces[k := traces[k].(deviceID := deviceID, acceptedAt := acceptedAt)])
            && (traceID != "" && Position(traces, traceID).None? ==>
                  && |after| == (if |traces| < limit then |traces| + 1 else limit)
                  && after[1..] == traces[..|after| - 1]
                  && after[0] == LatencyTrace(traceID, deviceID, acceptedAt,
                                              0, 0, 0, 0, 0, 0, 0, 0, 0, 0, 0, 0, 0, 0, "", ""))
  {
    hide Position;
    var newest := NewTrace(traceID, deviceID, acceptedAt);
    TakeOne(newest, traces, limit);
    hide Take;
  }

  lemma StartKeepsDistinct(traces: seq<LatencyTrace>, limit: nat, traceID: string, deviceID: string, acceptedAt: int)
    requires Distinct(traces)
    ensures Distinct(StartStep(traces, limit, traceID, deviceID, acceptedAt))
  {
  }

  lemma StartKeepsNamed(traces: seq<LatencyTrace>, limit: nat, traceID: string, deviceID: string, acceptedAt: int)
    requires Named(traces)
    ensures Named(StartStep(traces, limit, traceID, deviceID, acceptedAt))
  {
  }

  lemma IndexedPosition(index: map<string, nat>, traces: seq<LatencyTrace>, traceID: string)
    requires Indexes(index, traces)
    ensures Position(traces, traceID) == if traceID in index then Some(index[traceID]) else None
    ensures Distinct(traces)
  {
  }

  lemma IndexesFits(index: map<string, nat>, before: seq<LatencyTrace>, after: seq<LatencyTrace>)
    requires Indexes(index, before) && Named(before) && |after| == |before|
    ensures SameIDs(before, after) <==> Indexes(index, after) && Named(after)
  {
    if Indexes(index, after) {
      forall k | 0 <= k < |before|
        ensures after[k].traceID == before[k].traceID
      {
        assert index[before[k].traceID] == k;
      }
    }
  }

  class LatencyRecorder {
    const limit: nat
    var traces: seq<LatencyTrace>
    var index: map<string, nat>

    ghost predicate Valid()
      reads this
    {
      0 < limit && |traces| <= limit && Named(traces) && Indexes(index, traces)
    }

    constructor (limit: int)
      ensures Valid() && traces == []
      ensures this.limit == if limit <= 0 then DEFAULT_LATENCY_TRACE_LIMIT else limit
    {
      this.limit := if limit <= 0 then DEFAULT_LATENCY_TRACE_LIMIT else limit;
      traces := [];
      index := map[];
    }

    method Start(traceID: string, deviceID: string, acceptedAt: int)
      requires Valid()
      modifies this
      ensures Valid() && traces == StartStep(old(traces), limit, traceID, deviceID, acceptedAt)
    {
      hide Named, Distinct, Position;
      if traceID == "" {
        return;
      }
      IndexedPosition(index, traces, traceID);
      if traceID in index {
        var existing := index[traceID];
        traces := traces[existing := traces[existing].(deviceID := deviceID)];
        traces := traces[existing := traces[existing].(acceptedAt := acceptedAt)];
        IndexesFits(index, old(traces), traces);
        return;
      }
      hide Indexes;
      StartKeepsDistinct(traces, limit, traceID, deviceID, acceptedAt);
      StartKeepsNamed(traces, limit, traceID, deviceID, acceptedAt);
      traces := [NewTrace(traceID, deviceID, acceptedAt)] + traces;
      if |traces| > limit {
        traces := traces[..limit];
      }
      ReindexLocked();
    }

    /** The index survives an update exactly when the update leaves the id of the trace it is applied to. */
    method Update(traceID: string, change: Option<Change>)
      requires Valid()
      modifies this
      ensures traces == UpdateStep(old(traces), traceID, change)
      ensures traces == if change.None? || traceID !in old(index) then old(traces)
                        else old(traces)[old(index)[traceID] := (change.value)(old(traces)[old(index)[traceID]])]
      ensures Valid() <==> SameIDs(old(traces), traces)
    {
      if traceID == "" || change.None? {
        return;
      }
      IndexedPosition(index, traces, traceID);
      if traceID !in index {
        return;
      }
      var pos := index[traceID];
      traces := traces[pos := change.value(traces[pos])];
      IndexesFits(index, old(traces), traces);
    }

    method Snapshot() returns (copied: seq<LatencyTrace>)
      ensures copied == traces
    {
      copied := traces;
    }

    method ReindexLocked()
      requires Distinct(traces)
      modifies this`index
      ensures Indexes(index, traces)
    {
      index := map[];
      for i := 0 to |traces|
        invariant Indexes(index, traces[..i])
      {
        assert traces[..i + 1] == traces[..i] + [traces[i]];
        index := index[traces[i].traceID := i];
      }
      assert traces[..|traces|] == traces;
    }
  }

  /** Renaming a trace leaves an index that does not fit, with any id and any other to rename it to. */
  lemma RenamingBreaksIndex(id: string, other: string, acceptedAt: int)
    requires id != other && id != ""
    ensures var traces := StartStep([], 1, id, "", acceptedAt);
            var index: map<string, nat> := map[id := 0];
            var renamed := UpdateStep(traces, id, Some((t: LatencyTrace) => t.(traceID := other)));
            Indexes(index, traces) && !Indexes(index, renamed)
  {
    var traces := StartStep([], 1, id, "", acceptedAt);
    assert traces == [NewTrace(id, "", acceptedAt)];
    var renamed := UpdateStep(traces, id, Some((t: LatencyTrace) => t.(traceID := other)));
    assert renamed[0].traceID == other;
  }

  // ---------- Whole runs ----------

  datatype Event =
    | Start(traceID: string, deviceID: string, acceptedAt: int)
    | Update(traceID: string, change: Option<Change>)

  function Step(traces: seq<LatencyTrace>, limit: nat, e: Event): seq<LatencyTrace> {
    match e
    case Start(traceID, deviceID, acceptedAt) => StartStep(traces, limit, traceID, deviceID, acceptedAt)
    case Update(traceID, change) => UpdateStep(traces, traceID, change)
  }

  function Run(limit: nat, events: seq<Event>): seq<LatencyTrace> {
    if events == [] then []
    else Step(Run(limit, events[..|events| - 1]), limit, events[|events| - 1])
  }

  ghost predicate KeepsID(e: Event) {
    e.Update? && e.change.Some? ==> forall t :: (e.change.value)(t).traceID == t.traceID
  }

  // The last of `events` opens a trace, given the positions of the openings before it.
  ghost predicate Opens(limit: nat, events: seq<Event>, before: seq<nat>)
    requires events != [] && forall k :: 0 <= k < |before| ==> before[k] < |events|
  {
    var e := events[|events| - 1];
    e.Start? && e.traceID != "" && forall k :: 0 <= k < |before| && k < limit ==> events[before[k]].traceID != e.traceID
  }

  /** The positions in `events` of the starts that open a trace, newest first: those with an id that is not the id of
      one of the `limit` traces opened last. */
  ghost function Openings(limit: nat, events: seq<Event>): (openings: seq<nat>)
    ensures forall k :: 0 <= k < |openings| ==> openings[k] < |events| && events[openings[k]].Start?
  {
    if events == [] then []
    else
      var n := |events| - 1;
      var before := Openings(limit, events[..n]);
      if Opens(limit, events, before) then [n] + before else before
  }

  // What the event does to a trace, whatever its position.
  ghost function Acted(trace: LatencyTrace, e: Event): LatencyTrace {
    if e.traceID != trace.traceID then trace
    else match e
      case Start(_, deviceID, acceptedAt) => Restarted(trace, deviceID, acceptedAt)
      case Update(_, change) => if change.Some? then (change.value)(trace) else trace
  }

  /** The trace opened by the start at position `b`, with everything done to its id since. */
  ghost function Life(events: seq<Event>, b: nat): LatencyTrace
    requires b < |events| && events[b].Start?
  {
    var n := |events| - 1;
    if b == n then NewTrace(events[b].traceID, events[b].deviceID, events[b].acceptedAt)
    else Acted(Life(events[..n], b), events[n])
  }

  /** `traces` are the ones opened last, at most `limit` of them, newest first, with all that was done to them. */
  ghost predicate Latest(limit: nat, events: seq<Event>, traces: seq<LatencyTrace>) {
    var openings := Openings(limit, events);
    && |traces| == (if |openings| <= limit then |openings| else limit)
    && forall k :: 0 <= k < |traces| ==> traces[k] == Life(events, openings[k])
  }

  lemma {:induction false} LifeKeepsID(events: seq<Event>, b: nat)
    requires b < |events| && events[b].Start?
    requires forall k :: 0 <= k < |events| ==> KeepsID(events[k])
    ensures Life(events, b).traceID == events[b].traceID
  {
    if b < |events| - 1 {
      LifeKeepsID(events[..|events| - 1], b);
      assert KeepsID(events[|events| - 1]);
    }
  }

  lemma {:induction false} OpeningsAreNonempty(limit: nat, events: seq<Event>, k: nat)
    requires k < |Openings(limit, events)|
    ensures events[Openings(limit, events)[k]].traceID != ""
    ensures k + 1 < |Openings(limit, events)| ==> Openings(limit, events)[k + 1] < Openings(limit, events)[k]
  {
    var n := |events| - 1;
    var before := Openings(limit, events[..n]);
    if Openings(limit, events) == before {
      OpeningsAreNonempty(limit, events[..n], k);
    } else if k > 0 {
      OpeningsAreNonempty(limit, events[..n], k - 1);
    }
  }

  /** In every run of a recorder whose updates leave ids alone, the snapshot is the list of the traces opened last, at
      most `limit` of them, newest first, each with all that was done to its id since; its ids are distinct. */
  lemma {:induction false} SnapshotIsTheLatest(limit: nat, events: seq<Event>)
    requires 0 < limit
    requires forall k :: 0 <= k < |events| ==> KeepsID(events[k])
    ensures Latest(limit, events, Run(limit, events))
    ensures Distinct(Run(limit, events))
  {
    if events != [] {
      SnapshotIsTheLatest(limit, events[..|events| - 1]);
      LatestStep(limit, events);
    }
  }

  lemma LatestStep(limit: nat, events: seq<Event>)
    requires 0 < limit && events != []
    requires forall k :: 0 <= k < |events| ==> KeepsID(events[k])
    requires Latest(limit, events[..|events| - 1], Run(limit, events[..|events| - 1]))
    requires Distinct(Run(limit, events[..|events| - 1]))
    ensures Latest(limit, events, Run(limit, events))
    ensures Distinct(Run(limit, events))
  {
    hide Life, Acted, Distinct, Step, Opens, Openings, KeepsID;
    var front := events[..|events| - 1];
    var traces := Run(limit, front);
    var before := Openings(limit, front);
    forall k: nat | k < |traces|
      ensures traces[k].traceID == events[before[k]].traceID != ""
      ensures Life(events, before[k]) == Acted(traces[k], events[|events| - 1])
    {
      LifeKeepsID(front, before[k]);
      OpeningsAreNonempty(limit, front, k);
      LifeStep(events, before[k]);
    }
    if Opens(limit, events, before) {
      OpensFresh(limit, events, before);
      OpeningStep(limit, events, traces, before);
    } else {
      QuietStep(limit, events, traces, before);
    }
  }

  lemma OpensFresh(limit: nat, events: seq<Event>, before: seq<nat>)
    requires events != [] && forall k :: 0 <= k < |before| ==> before[k] < |events|
    requires Opens(limit, events, before)
    ensures events[|events| - 1].Start? && events[|events| - 1].traceID != ""
    ensures forall k :: 0 <= k < |before| && k < limit ==> events[before[k]].traceID != events[|events| - 1].traceID
  {
  }

  lemma OpeningStep(limit: nat, events: seq<Event>, traces: seq<LatencyTrace>, before: seq<nat>)
    requires 0 < limit && events != [] && before == Openings(limit, events[..|events| - 1])
    requires Opens(limit, events, before) && Distinct(traces)
    requires events[|events| - 1].Start? && events[|events| - 1].traceID != ""
    requires forall k :: 0 <= k < |traces| ==> traces[k].traceID != events[|events| - 1].traceID
    requires |traces| == if |before| <= limit then |before| else limit
    requires forall k :: 0 <= k < |traces| ==> traces[k].traceID == events[before[k]].traceID
    requires forall k :: 0 <= k < |traces| ==> Life(events, before[k]) == Acted(traces[k], events[|events| - 1])
    ensures Latest(limit, events, Step(traces, limit, events[|events| - 1]))
    ensures Distinct(Step(traces, limit, events[|events| - 1]))
  {
    hide Life, Acted, Distinct, Step, Take, Opens;
    var e := events[|events| - 1];
    var newest := NewTrace(e.traceID, e.deviceID, e.acceptedAt);
    OpenActs(traces, limit, e);
    LifeStarts(events);
    TakeOne(newest, traces, limit);
    assert Openings(limit, events) == [|events| - 1] + before;
    hide Openings;
    var after := Step(traces, limit, e);
    forall k | 0 <= k < |after|
      ensures after[k] == Life(events, ([|events| - 1] + before)[k])
    {
      if k > 0 {
        assert after[k] == traces[k - 1] == Acted(traces[k - 1], e);
      }
    }
  }

  lemma TakeOne<T>(x: T, s: seq<T>, limit: nat)
    requires 0 < limit
    ensures Take([x] + s, limit) == [x] + s[..if |s| < limit then |s| else limit - 1]
  {
  }

  lemma QuietStep(limit: nat, events: seq<Event>, traces: seq<LatencyTrace>, before: seq<nat>)
    requires 0 < limit && events != [] && before == Openings(limit, events[..|events| - 1])
    requires !Opens(limit, events, before) && KeepsID(events[|events| - 1]) && Distinct(traces)
    requires |traces| == if |before| <= limit then |before| else limit
    requires forall k :: 0 <= k < |traces| ==> traces[k].traceID == events[before[k]].traceID != ""
    requires forall k :: 0 <= k < |traces| ==> Life(events, before[k]) == Acted(traces[k], events[|events| - 1])
    ensures Latest(limit, events, Step(traces, limit, events[|events| - 1]))
    ensures Distinct(Step(traces, limit, events[|events| - 1]))
  {
    hide Life, Acted, Distinct, Step, KeepsID;
    StepActs(traces, limit, events[|events| - 1]);
  }

  lemma LifeStep(events: seq<Event>, b: nat)
    requires b < |events| - 1 && events[b].Start?
    ensures Life(events, b) == Acted(Life(events[..|events| - 1], b), events[|events| - 1])
  {
  }

  lemma LifeStarts(events: seq<Event>)
    requires events != [] && events[|events| - 1].Start?
    ensures var e := events[|events| - 1];
            Life(events, |events| - 1) == NewTrace(e.traceID, e.deviceID, e.acceptedAt)
  {
  }

  lemma OpenActs(traces: seq<LatencyTrace>, limit: nat, e: Event)
    requires Distinct(traces) && e.Start? && e.traceID != ""
    requires forall k :: 0 <= k < |traces| ==> traces[k].traceID != e.traceID
    ensures Step(traces, limit, e) == Take([NewTrace(e.traceID, e.deviceID, e.acceptedAt)] + traces, limit)
    ensures Distinct(Step(traces, limit, e))
    ensures forall k :: 0 <= k < |traces| ==> Acted(traces[k], e) == traces[k]
  {
    hide Distinct, Take;
    assert Position(traces, e.traceID).None?;
    StartKeepsDistinct(traces, limit, e.traceID, e.deviceID, e.acceptedAt);
  }

  lemma StepActs(traces: seq<LatencyTrace>, limit: nat, e: Event)
    requires Distinct(traces) && KeepsID(e)
    requires forall k :: 0 <= k < |traces| ==> traces[k].traceID != ""
    requires e.Update? || e.traceID == "" || Position(traces, e.traceID).Some?
    ensures |Step(traces, limit, e)| == |traces|
    ensures forall k :: 0 <= k < |traces| ==> Step(traces, limit, e)[k] == Acted(traces[k], e)
    ensures Distinct(Step(traces, limit, e))
  {
  }
}
