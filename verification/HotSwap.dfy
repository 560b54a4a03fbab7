/** Swapping the audio pipeline while handlers hold references to the previous one. */
module HotSwap {
  import opened Wrappers

  // The identity of a pipeline object.
  type Pipeline = nat

  datatype Pool = Pool(current: Option<Pipeline>, refs: map<Pipeline, int>, retired: set<Pipeline>)

  function Refs(pool: Pool, p: Pipeline): int {
    if p in pool.refs then pool.refs[p] else 0
  }

  function RetainStep(pool: Pool, p: Pipeline): Pool {
    pool.(refs := pool.refs[p := Refs(pool, p) + 1])
  }

  /** Giving one reference back; true when the pipeline is to be shut down. */
  function ReleaseStep(pool: Pool, p: Pipeline): (Pool, bool) {
    if Refs(pool, p) <= 1 then
      (pool.(refs := pool.refs - {p}, retired := pool.retired - {p}), p in pool.retired)
    else (pool.(refs := pool.refs[p := Refs(pool, p) - 1]), false)
  }

  /** Retiring a replaced pipeline; true when it is to be shut down at once. */
  function RetireStep(pool: Pool, p: Pipeline): (Pool, bool) {
    if Refs(pool, p) > 0 then (pool.(retired := pool.retired + {p}), false) else (pool, true)
  }

  // ---------- The application object ----------

  class App {
    var pipeline: Option<Pipeline>
    var pipelineRefs: map<Pipeline, int>
    var retiredPipelines: set<Pipeline>

    function Contents(): Pool
      reads this
    {
      Pool(pipeline, pipelineRefs, retiredPipelines)
    }

    constructor (pipeline: Option<Pipeline>)
      ensures Contents() == Pool(pipeline, map[], {})
    {
      this.pipeline := pipeline;
      pipelineRefs := map[];
      retiredPipelines := {};
    }

    method RetainPipelineLocked(p: Pipeline)
      modifies this
      ensures Contents() == RetainStep(old(Contents()), p)
    {
      if p in pipelineRefs {
        pipelineRefs := pipelineRefs[p := pipelineRefs[p] + 1];
      } else {
        pipelineRefs := pipelineRefs[p := 1];
      }
    }

    // The closure that `RetainPipelineLocked` hands out.
    method Release(p: Pipeline) returns (shouldShutdown: bool)
      modifies this
      ensures (Contents(), shouldShutdown) == ReleaseStep(old(Contents()), p)
    {
      shouldShutdown := false;
      var refs := if p in pipelineRefs then pipelineRefs[p] else 0;
      if refs <= 1 {
        pipelineRefs := pipelineRefs - {p};
        if p in retiredPipelines {
          retiredPipelines := retiredPipelines - {p};
          shouldShutdown := true;
        } else {
          assert retiredPipelines - {p} == retiredPipelines;
        }
      } else {
        pipelineRefs := pipelineRefs[p := refs - 1];
      }
    }

    method RetirePipeline(p: Pipeline) returns (shutdown: bool)
      modifies this
      ensures (Contents(), shutdown) == RetireStep(old(Contents()), p)
    {
      if p in pipelineRefs && pipelineRefs[p] > 0 {
        retiredPipelines := retiredPipelines + {p};
        return false;
      }
      shutdown := true;
    }

    // The part of a configuration update that runs under the lock.
    method Swap(p: Pipeline) returns (previous: Option<Pipeline>)
      modifies this
      ensures Contents() == old(Contents()).(current := Some(p)) && previous == old(pipeline)
    {
      previous := pipeline;
      pipeline := Some(p);
    }

    // What an audio or key press handler takes under the lock: the current pipeline, if the device has an active
    // session and the pipeline can do what is asked.
    method Acquire(active: bool, suitable: bool) returns (p: Option<Pipeline>)
      modifies this
      ensures p == if active && suitable then old(pipeline) else None
      ensures Contents() == if p.Some? then RetainStep(old(Contents()), p.value) else old(Contents())
    {
      if !active {
        return None;
      }
      if pipeline.None? {
        return None;
      }
      if !suitable {
        return None;
      }
      RetainPipelineLocked(pipeline.value);
      p := pipeline;
    }

    // What the ASR warm-up, the language model check and the final text insertion take: the current pipeline, without
    // a reference.
    method UseCurrent() returns (p: Option<Pipeline>)
      ensures p == pipeline
    {
      p := pipeline;
    }

    // The pipelines a shutdown of the application collects; the order of the retired ones is arbitrary.
    method ShutdownList() returns (pipelines: seq<Pipeline>)
      ensures forall p :: multiset(pipelines)[p] == if p in Collected(Contents()) then 1 else 0
    {
      pipelines := [];
      if pipeline.Some? {
        pipelines := pipelines + [pipeline.value];
      }
      var left := retiredPipelines;
      while left != {}
        invariant left <= retiredPipelines
        invariant forall p ::
                    multiset(pipelines)[p]
                    == if p in Collected(Contents()) && (pipeline == Some(p) || p !in left) then 1 else 0
        decreases left
      {
        var p :| p in left;
        left := left - {p};
        if pipeline != Some(p) {
          pipelines := pipelines + [p];
        }
      }
    }
  }

  function Collected(pool: Pool): set<Pipeline> {
    pool.retired + if pool.current.Some? then {pool.current.value} else {}
  }

  // ---------- Interleaved runs ----------

  /** The pool together with what no single critical section sees: who holds a reference, who uses a pipeline without
      one, which replaced pipelines are still to be retired, which have been scheduled for shutdown, and all that were
      ever created. */
  datatype System = System(
    pool: Pool,
    holders: multiset<Pipeline>,
    users: multiset<Pipeline>,
    pending: multiset<Pipeline>,
    scheduled: multiset<Pipeline>,
    created: set<Pipeline>)

  datatype Event =
    | Acquire
    | Release(p: Pipeline)
    | SwapTo(p: Pipeline)
    | Retire(p: Pipeline)
    | Use
    | Done(p: Pipeline)

  /** A holder gives back each reference once, a configuration update builds a fresh pipeline, and it retires the one
      it replaced. */
  predicate Enabled(s: System, e: Event) {
    match e
    case Acquire => true
    case Release(p) => p in s.holders
    case SwapTo(p) => p !in s.created
    case Retire(p) => p in s.pending
    case Use => true
    case Done(p) => p in s.users
  }

  function Step(s: System, e: Event): System {
    match e
    case Acquire =>
      if s.pool.current.None? then s
      else s.(pool := RetainStep(s.pool, s.pool.current.value), holders := s.holders + multiset{s.pool.current.value})
    case Release(p) =>
      var (pool, shutdown) := ReleaseStep(s.pool, p);
      s.(pool := pool, holders := s.holders - multiset{p},
         scheduled := s.scheduled + if shutdown then multiset{p} else multiset{})
    case SwapTo(p) =>
      var previous := s.pool.current;
      s.(pool := s.pool.(current := Some(p)), created := s.created + {p},
         pending := s.pending + if previous.Some? && previous.value != p then multiset{previous.value} else multiset{})
    case Retire(p) =>
      var (pool, shutdown) := RetireStep(s.pool, p);
      s.(pool := pool, pending := s.pending - multiset{p},
         scheduled := s.scheduled + if shutdown then multiset{p} else multiset{})
    case Use =>
      if s.pool.current.None? then s else s.(users := s.users + multiset{s.pool.current.value})
    case Done(p) => s.(users := s.users - multiset{p})
  }

  function Run(s: System, events: seq<Event>): System {
    if events == [] then s else Step(Run(s, events[..|events| - 1]), events[|events| - 1])
  }

  predicate Possible(s: System, events: seq<Event>) {
    events != [] ==>
      Possible(s, events[..|events| - 1]) && Enabled(Run(s, events[..|events| - 1]), events[|events| - 1])
  }

  function Initial(pipeline: Option<Pipeline>): System {
    System(Pool(pipeline, map[], {}), multiset{}, multiset{}, multiset{}, multiset{},
           if pipeline.Some? then {pipeline.value} else {})
  }

  // In how many of the four places a pipeline can be in it is.
  function Places(s: System, p: Pipeline): nat {
    (if s.pool.current == Some(p) then 1 else 0) + s.pending[p]
    + (if p in s.pool.retired then 1 else 0) + s.scheduled[p]
  }

  /** Reference counts count holders; every created pipeline is in exactly one place; one that waits for its last
      holder has one, and one that is scheduled has none. */
  ghost predicate Invariant(s: System) {
    && (forall p :: p in s.pool.refs <==> s.holders[p] > 0)
    && (forall p :: p in s.pool.refs ==> s.pool.refs[p] == s.holders[p])
    && (forall p :: Places(s, p) == if p in s.created then 1 else 0)
    && (forall p :: p in s.pool.retired ==> s.holders[p] > 0)
    && (forall p :: s.holders[p] > 0 ==> p in s.created && s.scheduled[p] == 0)
    && (forall p :: s.users[p] > 0 ==> p in s.created)
  }

  lemma StepKeepsInvariant(s: System, e: Event)
    requires Invariant(s) && Enabled(s, e)
    ensures Invariant(Step(s, e))
  {
    match e {
      case Acquire => AcquireKeeps(s);
      case Release(p) => ReleaseKeeps(s, p);
      case SwapTo(p) => SwapKeeps(s, p);
      case Retire(p) => RetireKeeps(s, p);
      case Use => UsingKeeps(s, Use);
      case Done(p) => UsingKeeps(s, Done(p));
    }
  }

  lemma AcquireKeeps(s: System)
    requires Invariant(s)
    ensures Invariant(Step(s, Acquire))
  {
    var s' := Step(s, Acquire);
    forall p
      ensures Places(s', p) == Places(s, p)
      ensures s'.holders[p] == s.holders[p] + if s.pool.current == Some(p) then 1 else 0
    {
    }
    if s.pool.current.Some? {
      assert Places(s, s.pool.current.value) <= 1;
    }
  }

  lemma ReleaseKeeps(s: System, q: Pipeline)
    requires Invariant(s) && q in s.holders
    ensures Invariant(Step(s, Release(q)))
  {
    var s' := Step(s, Release(q));
    assert s.pool.refs[q] == s.holders[q];
    forall p
      ensures Places(s', p) == Places(s, p)
      ensures s'.holders[p] == s.holders[p] - if p == q then 1 else 0
    {
    }
  }

  lemma SwapKeeps(s: System, q: Pipeline)
    requires Invariant(s) && q !in s.created
    ensures Invariant(Step(s, SwapTo(q)))
  {
    var s' := Step(s, SwapTo(q));
    forall p
      ensures Places(s', p) == Places(s, p) + if p == q then 1 else 0
    {
      assert Places(s, q) == 0;
    }
  }

  lemma RetireKeeps(s: System, q: Pipeline)
    requires Invariant(s) && q in s.pending
    ensures Invariant(Step(s, Retire(q)))
  {
    var s' := Step(s, Retire(q));
    assert Places(s, q) == 1;
    forall p
      ensures Places(s', p) == Places(s, p)
    {
    }
  }

  lemma UsingKeeps(s: System, e: Event)
    requires Invariant(s) && Enabled(s, e) && (e.Use? || e.Done?)
    ensures Invariant(Step(s, e))
  {
    var s' := Step(s, e);
    if s.pool.current.Some? {
      assert Places(s, s.pool.current.value) <= 1;
    }
    forall p
      ensures Places(s', p) == Places(s, p)
    {
    }
  }

  lemma {:induction false} RunKeepsInvariant(pipeline: Option<Pipeline>, events: seq<Event>)
    requires Possible(Initial(pipeline), events)
    ensures Invariant(Run(Initial(pipeline), events))
  {
    if events != [] {
      RunKeepsInvariant(pipeline, events[..|events| - 1]);
      StepKeepsInvariant(Run(Initial(pipeline), events[..|events| - 1]), events[|events| - 1]);
    }
  }

  /** In every interleaving: reference counts are the numbers of holders, and a pipeline scheduled for shutdown is
      scheduled once and is neither current, nor waiting to be retired, nor held. */
  lemma ShutdownIsSafe(pipeline: Option<Pipeline>, events: seq<Event>, p: Pipeline)
    requires Possible(Initial(pipeline), events)
    ensures var s := Run(Initial(pipeline), events);
            && Refs(s.pool, p) == s.holders[p]
            && s.scheduled[p] <= 1
            && (s.scheduled[p] > 0 ==> s.pool.current != Some(p) && s.pending[p] == 0 && s.holders[p] == 0)
  {
    RunKeepsInvariant(pipeline, events);
    assert Places(Run(Initial(pipeline), events), p) <= 1;
  }

  /** No pipeline is lost: those created and not scheduled are exactly the current one, the retired ones and those
      still to be retired. */
  lemma NothingLeaks(pipeline: Option<Pipeline>, events: seq<Event>, p: Pipeline)
    requires Possible(Initial(pipeline), events)
    ensures var s := Run(Initial(pipeline), events);
            && (p in s.created && s.scheduled[p] == 0
                <==> s.pool.current == Some(p) || p in s.pool.retired || s.pending[p] > 0)
            && (s.holders == multiset{} && s.pending == multiset{} ==>
                  (p in s.created <==> s.pool.current == Some(p) || s.scheduled[p] == 1))
  {
    RunKeepsInvariant(pipeline, events);
    var s := Run(Initial(pipeline), events);
    assert Places(s, p) == if p in s.created then 1 else 0;
  }

  /** A created pipeline has been scheduled exactly when it is not current, not waiting to be retired and not held;
      whoever else uses it does not count. */
  lemma ScheduledIff(pipeline: Option<Pipeline>, events: seq<Event>, p: Pipeline)
    requires Possible(Initial(pipeline), events) && p in Run(Initial(pipeline), events).created
    ensures var s := Run(Initial(pipeline), events);
            s.scheduled[p] == 1 <==> s.pool.current != Some(p) && s.pending[p] == 0 && s.holders[p] == 0
  {
    RunKeepsInvariant(pipeline, events);
    assert Places(Run(Initial(pipeline), events), p) == 1;
  }

  /** A shutdown of the application collects every live pipeline exactly when no retirement is pending. */
  lemma ShutdownCollectsAll(pipeline: Option<Pipeline>, events: seq<Event>)
    requires Possible(Initial(pipeline), events)
    ensures var s := Run(Initial(pipeline), events);
            (forall p :: p in Collected(s.pool) <==> p in s.created && s.scheduled[p] == 0) <==> s.pending == multiset{}
  {
    var s := Run(Initial(pipeline), events);
    RunKeepsInvariant(pipeline, events);
    forall p
      ensures p in s.created && s.scheduled[p] == 0 <==> p in Collected(s.pool) || s.pending[p] > 0
      ensures p in Collected(s.pool) ==> s.pending[p] == 0
    {
      assert Places(s, p) == if p in s.created then 1 else 0;
    }
    if s.pending != multiset{} {
      var p :| p in s.pending;
      assert p !in Collected(s.pool);
    }
  }

  predicate Draining(events: seq<Event>) {
    forall e :: e in events ==> e.Release? || e.Retire?
  }

  function Outstanding(s: System): nat {
    |s.holders| + |s.pending|
  }

  lemma {:induction false} RunConcat(s: System, a: seq<Event>, b: seq<Event>)
    ensures Run(s, a + b) == Run(Run(s, a), b)
    ensures Possible(s, a + b) <==> Possible(s, a) && Possible(Run(s, a), b)
  {
    hide Step, Enabled;
    if b == [] {
      assert a + b == a;
    } else {
      var front := b[..|b| - 1];
      RunConcat(s, a, front);
      assert (a + b)[..|a + b| - 1] == a + front;
      assert (a + b)[|a + b| - 1] == b[|b| - 1];
    }
  }

  lemma DrainingStep(s: System, e: Event)
    requires Enabled(s, e) && (e.Release? || e.Retire?)
    ensures Outstanding(Step(s, e)) == Outstanding(s) - 1
    ensures Step(s, e).pool.current == s.pool.current && Step(s, e).created == s.created
  {
  }

  /** However the holders finish and the pending retirements run, each step of it leaves one less to wait for, and the
      current pipeline stays. */
  lemma {:induction false} DrainingCounts(s: System, more: seq<Event>)
    requires Draining(more) && Possible(s, more)
    ensures Outstanding(Run(s, more)) == Outstanding(s) - |more|
    ensures Run(s, more).pool.current == s.pool.current && Run(s, more).created == s.created
  {
    hide Step, Enabled, Outstanding;
    if more != [] {
      var front := more[..|more| - 1];
      assert more[|more| - 1] in more;
      DrainingCounts(s, front);
      DrainingStep(Run(s, front), more[|more| - 1]);
    }
  }

  lemma {:induction false} DrainsFrom(s: System)
    ensures exists more :: Draining(more) && Possible(s, more) && |more| == Outstanding(s)
    decreases Outstanding(s)
  {
    if Outstanding(s) == 0 {
      assert Draining([]) && Possible(s, []);
    } else {
      var e := NextDraining(s);
      DrainingStep(s, e);
      DrainsFrom(Step(s, e));
      var more :| Draining(more) && Possible(Step(s, e), more) && |more| == Outstanding(Step(s, e));
      Prepend(s, e, more);
    }
  }

  lemma NextDraining(s: System) returns (e: Event)
    requires Outstanding(s) > 0
    ensures Enabled(s, e) && (e.Release? || e.Retire?)
  {
    if s.holders != multiset{} {
      var p :| p in s.holders;
      e := Release(p);
    } else {
      var p :| p in s.pending;
      e := Retire(p);
    }
  }

  lemma Prepend(s: System, e: Event, more: seq<Event>)
    requires Enabled(s, e) && (e.Release? || e.Retire?)
    requires Draining(more) && Possible(Step(s, e), more)
    ensures Draining([e] + more) && Possible(s, [e] + more)
  {
    hide Step, Enabled;
    assert [e][..0] == [];
    assert Run(s, []) == s && Possible(s, []);
    assert Run(s, [e]) == Step(s, e);
    assert Possible(s, [e]);
    RunConcat(s, [e], more);
  }

  /** From every reachable state, the holders can finish and the pending retirements run; once they have, in whatever
      order, every pipeline ever created but the current one has been scheduled for shutdown. */
  lemma CanAlwaysDrain(pipeline: Option<Pipeline>, events: seq<Event>)
    requires Possible(Initial(pipeline), events)
    ensures var s := Run(Initial(pipeline), events);
            && (exists more :: Draining(more) && Possible(s, more) && |more| == Outstanding(s))
            && forall more :: Draining(more) && Possible(s, more) && |more| == Outstanding(s) ==>
                 AllScheduled(s, Run(s, more))
  {
    var s := Run(Initial(pipeline), events);
    DrainsFrom(s);
    forall more | Draining(more) && Possible(s, more) && |more| == Outstanding(s)
      ensures AllScheduled(s, Run(s, more))
    {
      DrainedSchedulesAll(pipeline, events, more);
    }
  }

  // All that `s` had created is scheduled once in `after`, except the pipeline current in both.
  ghost predicate AllScheduled(s: System, after: System) {
    && after.pool.current == s.pool.current
    && forall p :: p in s.created ==> after.scheduled[p] == if s.pool.current == Some(p) then 0 else 1
  }

  lemma DrainedSchedulesAll(pipeline: Option<Pipeline>, events: seq<Event>, more: seq<Event>)
    requires Possible(Initial(pipeline), events)
    requires var s := Run(Initial(pipeline), events);
             Draining(more) && Possible(s, more) && |more| == Outstanding(s)
    ensures var s := Run(Initial(pipeline), events);
            AllScheduled(s, Run(s, more))
  {
    hide Step, Enabled, Run, Possible;
    var s := Run(Initial(pipeline), events);
    var after := Run(s, more);
    DrainingCounts(s, more);
    assert after.holders == multiset{} && after.pending == multiset{};
    RunConcat(Initial(pipeline), events, more);
    forall p | p in s.created
      ensures after.scheduled[p] == if s.pool.current == Some(p) then 0 else 1
    {
      NothingLeaks(pipeline, events + more, p);
      ShutdownIsSafe(pipeline, events + more, p);
    }
  }

  // ---------- References protect, and use without one does not ----------

  predicate Without(events: seq<Event>, e: Event) {
    e !in events
  }

  predicate NoSwap(events: seq<Event>) {
    forall e :: e in events ==> !e.SwapTo?
  }

  lemma StepHolds(s: System, e: Event, p: Pipeline)
    requires e != Release(p)
    ensures Step(s, e).holders[p] >= s.holders[p]
  {
  }

  lemma {:induction false} HoldsOn(s: System, more: seq<Event>, p: Pipeline)
    requires Without(more, Release(p))
    ensures Run(s, more).holders[p] >= s.holders[p]
  {
    hide Step;
    if more != [] {
      var front, e := more[..|more| - 1], more[|more| - 1];
      HoldsOn(s, front, p);
      assert e in more;
      StepHolds(Run(s, front), e, p);
    }
  }

  lemma {:induction false} StaysCurrent(s: System, more: seq<Event>)
    requires NoSwap(more)
    ensures Run(s, more).pool.current == s.pool.current
  {
    if more != [] {
      assert more[|more| - 1] in more;
      StaysCurrent(s, more[..|more| - 1]);
    }
  }

  /** As long as a handler keeps its reference, the pipeline it holds is not scheduled, whatever else happens. */
  lemma ReferencesProtect(pipeline: Option<Pipeline>, events: seq<Event>, more: seq<Event>, p: Pipeline)
    requires Possible(Initial(pipeline), events + more) && Without(more, Release(p))
    requires Run(Initial(pipeline), events).holders[p] > 0
    ensures Run(Initial(pipeline), events + more).scheduled[p] == 0
  {
    hide Run, Possible;
    RunConcat(Initial(pipeline), events, more);
    HoldsOn(Run(Initial(pipeline), events), more, p);
    ShutdownIsSafe(pipeline, events + more, p);
  }

  // While `p` goes on being used, `more` happens and schedules it for shutdown.
  predicate Overtakes(s: System, more: seq<Event>, p: Pipeline) {
    Possible(s, more) && Without(more, Done(p)) && Run(s, more).scheduled[p] == 1
  }

  /** A pipeline used without a reference can be scheduled for shutdown during the use: always after one more
      configuration update, and without one exactly when it has already been replaced. */
  lemma UseDoesNotProtect(pipeline: Option<Pipeline>, events: seq<Event>, p: Pipeline)
    requires Possible(Initial(pipeline), events)
    ensures var s := Run(Initial(pipeline), events);
            s.users[p] > 0 ==>
              && (exists more :: Overtakes(s, more, p))
              && ((exists more :: Overtakes(s, more, p) && NoSwap(more)) <==> s.pool.current != Some(p))
  {
    RunKeepsInvariant(pipeline, events);
    var s := Run(Initial(pipeline), events);
    assert s.users[p] > 0 ==> p in s.created;
    hide Run, Step, Enabled, Possible, Invariant;
    if s.users[p] == 0 {
      return;
    }
    if s.pool.current != Some(p) {
      var more := DrainingOvertakes(pipeline, events, p);
      assert Overtakes(s, more, p) && NoSwap(more);
    } else {
      var q := Unused(s.created);
      var more := SwappingOvertakes(pipeline, events, p, q);
      assert Overtakes(s, more, p);
      forall more | NoSwap(more) && Possible(s, more)
        ensures Run(s, more).scheduled[p] == 0
      {
        StaysCurrent(s, more);
        RunConcat(Initial(pipeline), events, more);
        ShutdownIsSafe(pipeline, events + more, p);
      }
    }
  }

  lemma DrainingOvertakes(pipeline: Option<Pipeline>, events: seq<Event>, p: Pipeline) returns (more: seq<Event>)
    requires Possible(Initial(pipeline), events)
    requires var s := Run(Initial(pipeline), events);
             p in s.created && s.pool.current != Some(p)
    ensures Overtakes(Run(Initial(pipeline), events), more, p) && NoSwap(more)
  {
    hide Run, Possible;
    var s := Run(Initial(pipeline), events);
    DrainsFrom(s);
    more :| Draining(more) && Possible(s, more) && |more| == Outstanding(s);
    DrainedSchedulesAll(pipeline, events, more);
  }

  lemma SwappingOvertakes(pipeline: Option<Pipeline>, events: seq<Event>, p: Pipeline, q: Pipeline)
    returns (more: seq<Event>)
    requires Possible(Initial(pipeline), events)
    requires var s := Run(Initial(pipeline), events);
             p in s.created && q !in s.created
    ensures Overtakes(Run(Initial(pipeline), events), more, p)
  {
    var s := Run(Initial(pipeline), events);
    var swapped := events + [SwapTo(q)];
    assert swapped[..|events|] == events;
    assert Run(Initial(pipeline), swapped) == Step(s, SwapTo(q)) && Possible(Initial(pipeline), swapped);
    var rest := DrainingOvertakes(pipeline, swapped, p);
    hide Step, Enabled, Run, Possible;
    more := [SwapTo(q)] + rest;
    RunConcat(Initial(pipeline), events, [SwapTo(q)]);
    RunConcat(s, [SwapTo(q)], rest);
  }

  lemma {:induction false} Unused(pipelines: set<Pipeline>) returns (q: Pipeline)
    ensures forall p :: p in pipelines ==> p < q
    decreases |pipelines|
  {
    if pipelines == {} {
      q := 0;
    } else {
      var p :| p in pipelines;
      q := Unused(pipelines - {p});
      assert forall r :: r in pipelines ==> r == p || r in pipelines - {p};
      q := if q <= p then p + 1 else q;
    }
  }

  /** What a shutdown collects misses a replaced pipeline that has not been retired yet. */
  lemma PendingEscapesShutdown(replaced: Pipeline, replacement: Pipeline)
    requires replaced != replacement
    ensures var s := Run(Initial(Some(replaced)), [SwapTo(replacement)]);
            && Possible(Initial(Some(replaced)), [SwapTo(replacement)])
            && replaced in s.created && s.scheduled[replaced] == 0 && replaced !in Collected(s.pool)
  {
    assert [SwapTo(replacement)][..0] == [];
  }
}
