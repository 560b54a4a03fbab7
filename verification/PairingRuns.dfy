/** What the pairing manager keeps over every run of calls: the guess budget and the trusted set. */
module PairingRuns {
  import opened Wrappers
  import opened Symbolic
  import opened Encoding
  import opened Handshake
  import opened Pairing

  datatype Call =
    | Start(now: int)
    | Complete(request: PairingRequest, at: CompleteClock)
    | Resume(resume: ResumeRequest, times: ResumeClock)
    | ForgetDevice(deviceID: Octets)

  function Apply(m: ManagerState, call: Call): ManagerState {
    match call
    case Start(now) => StartStep(m, now).0
    case Complete(request, at) => CompleteStep(m, request, at).0
    case Resume(request, at) => ResumeStep(m, request, at).0
    case ForgetDevice(deviceID) => ForgetStep(m, deviceID)
  }

  function Run(m: ManagerState, calls: seq<Call>): ManagerState {
    if calls == [] then m else Apply(Run(m, calls[..|calls| - 1]), calls[|calls| - 1])
  }

  /** The call enrols a device: a `Complete` that succeeds. */
  predicate Enrols(m: ManagerState, call: Call) {
    call.Complete? && CompleteStep(m, call.request, call.at).1.Success?
  }

  /** The call puts a confirmation to the test and it is wrong. */
  predicate WrongGuess(m: ManagerState, call: Call) {
    && call.Complete?
    && Precheck(m, call.request, call.at.now).None?
    && var p := m.pending.value;
       match ServerSecrets(p, call.request)
       case None => false
       case Some(secrets) =>
         var expected := ComputePairingConfirmation(secrets, p.pin, ServerTranscript(m.config, p, call.request));
         expected.Some? && expected.value != call.request.clientConfirmation
  }

  function Enrolments(m: ManagerState, calls: seq<Call>): nat {
    if calls == [] then 0
    else
      var before, last := calls[..|calls| - 1], calls[|calls| - 1];
      Enrolments(m, before) + if Enrols(Run(m, before), last) then 1 else 0
  }

  function WrongGuesses(m: ManagerState, calls: seq<Call>): nat {
    if calls == [] then 0
    else
      var before, last := calls[..|calls| - 1], calls[|calls| - 1];
      WrongGuesses(m, before) + if WrongGuess(Run(m, before), last) then 1 else 0
  }

  predicate NoStart(calls: seq<Call>) {
    forall call :: call in calls ==> !call.Start?
  }

  function Failures(m: ManagerState): int {
    if m.pending.None? then 0 else m.pending.value.failures
  }

  predicate BudgetKept(m: ManagerState) {
    ValidConfig(m.config) && 0 <= Failures(m) <= m.config.maxFailures
  }

  // ---------- One call ----------

  /** What one call does to the pending pairing. */
  lemma PendingAfter(m: ManagerState, call: Call)
    ensures Apply(m, call).config == m.config
    ensures match call
            case Start(now) =>
              var r := StartStep(m, now).1;
              var pending := Apply(m, call).pending;
              if r.Failure? then pending == m.pending
              else
                && pending.Some? && pending.value.failures == 0
                && pending.value.pairingID == r.value.pairingID && pending.value.pin == r.value.pin
            case Complete(_, _) =>
              Apply(m, call).pending
              == if Enrols(m, call) then None
                 else if WrongGuess(m, call) then
                   Some(m.pending.value.(failures := m.pending.value.failures + 1))
                 else m.pending
            case Resume(_, _) => Apply(m, call).pending == m.pending
            case ForgetDevice(_) => Apply(m, call).pending == m.pending
  {
    hide TranscriptOctets, Fields, ComputePairingConfirmation, DeriveSessionKeys;
  }

  lemma CompleteTrusts(m: ManagerState, request: PairingRequest, at: CompleteClock)
    ensures var (m', r) := CompleteStep(m, request, at);
            var device := TrustedDevice(request.clientDeviceID, request.clientDeviceName,
                                        request.clientIdentityPublicKey, at.pairedAt, at.lastSeenAt);
            m'.store == if r.Failure? then m.store
                        else m.store.(trusted := m.store.trusted[request.clientDeviceID := device])
  {
    hide TranscriptOctets, Fields, ComputePairingConfirmation, DeriveSessionKeys, Secrets;
  }

  lemma ResumeTrusts(m: ManagerState, request: ResumeRequest, at: ResumeClock)
    requires KeyedByID(m.store)
    ensures var (m', r) := ResumeStep(m, request, at);
            var id, trusted := request.clientDeviceID, m.store.trusted;
            && (r.Failure? ==> m'.store.trusted == trusted)
            && (r.Success? ==>
                  id in trusted && m'.store.trusted == trusted[id := trusted[id].(lastSeenAt := at.lastSeenAt)])
  {
    hide TranscriptOctets, Fields, ComputeResumeConfirmation, DeriveSessionKeys, Secrets;
  }

  /** What one call does to the trusted devices. */
  lemma TrustedAfter(m: ManagerState, call: Call)
    requires KeyedByID(m.store)
    ensures KeyedByID(Apply(m, call).store)
    ensures var trusted, trusted' := m.store.trusted, Apply(m, call).store.trusted;
            match call
            case Start(_) => trusted' == trusted
            case Complete(request, _) =>
              trusted'.Keys == trusted.Keys + (if Enrols(m, call) then {request.clientDeviceID} else {})
            case Resume(request, at) =>
              && trusted'.Keys == trusted.Keys
              && (ResumeStep(m, request, at).1.Success? ==>
                    && request.clientDeviceID in trusted
                    && trusted' == trusted[request.clientDeviceID
                                           := trusted[request.clientDeviceID].(lastSeenAt := at.lastSeenAt)])
              && (ResumeStep(m, request, at).1.Failure? ==> trusted' == trusted)
            case ForgetDevice(id) => trusted' == trusted - {id}
  {
    match call
    case Complete(request, at) => CompleteTrusts(m, request, at);
    case Resume(request, at) => ResumeTrusts(m, request, at);
    case _ =>
    hide CompleteStep, ResumeStep;
  }

  predicate KeyedByID(store: StoreState) {
    forall id :: id in store.trusted ==> store.trusted[id].deviceID == id
  }

  lemma OneStepBudget(m: ManagerState, call: Call)
    requires BudgetKept(m)
    ensures BudgetKept(Apply(m, call))
    ensures WrongGuess(m, call) ==> m.pending.Some? && Failures(Apply(m, call)) == Failures(m) + 1
    ensures Enrols(m, call) ==> m.pending.Some? && Apply(m, call).pending.None?
    ensures !call.Start? && !WrongGuess(m, call) && !Enrols(m, call) ==> Apply(m, call).pending == m.pending
  {
    PendingAfter(m, call);
    hide CompleteStep, StartStep, ResumeStep, Secrets, ComputePairingConfirmation, Admit;
    if Enrols(m, call) {
      EnrolsIsNoGuess(m, call);
    }
  }

  lemma EnrolsIsNoGuess(m: ManagerState, call: Call)
    requires Enrols(m, call)
    ensures !WrongGuess(m, call) && m.pending.Some?
    ensures Precheck(m, call.request, call.at.now).None?
  {
    hide TranscriptOctets, Fields, ComputePairingConfirmation, DeriveSessionKeys;
  }

  // ---------- Every run ----------

  /** Counted failures never exceed the limit. */
  lemma {:induction false} FailuresAreBounded(m: ManagerState, calls: seq<Call>)
    requires BudgetKept(m)
    ensures BudgetKept(Run(m, calls))
  {
    if calls != [] {
      FailuresAreBounded(m, calls[..|calls| - 1]);
      OneStepBudget(Run(m, calls[..|calls| - 1]), calls[|calls| - 1]);
    }
  }

  /** Until the next `Start`, at most one `Complete` succeeds, it uses up the pending pairing, and the wrong
      confirmations tested along the way never exceed what was left of the budget. */
  lemma {:induction false} OneEnrolmentPerStart(m: ManagerState, calls: seq<Call>)
    requires BudgetKept(m) && NoStart(calls)
    ensures Enrolments(m, calls) <= 1
    ensures Enrolments(m, calls) == 1 <==> m.pending.Some? && Run(m, calls).pending.None?
    ensures m.pending.None? ==> Run(m, calls).pending.None?
    ensures WrongGuesses(m, calls) <= m.config.maxFailures - Failures(m)
    ensures Run(m, calls).pending.Some? ==>
              Run(m, calls).pending == Some(m.pending.value.(failures := Failures(m) + WrongGuesses(m, calls)))
  {
    if calls != [] {
      var before, last := calls[..|calls| - 1], calls[|calls| - 1];
      OneEnrolmentPerStart(m, before);
      FailuresAreBounded(m, before);
      SameConfig(m, before);
      OneStepBudget(Run(m, before), last);
      PendingAfter(Run(m, before), last);
      hide Apply, Enrols, WrongGuess, CompleteStep, StartStep;
    }
  }

  lemma {:induction false} SameConfig(m: ManagerState, calls: seq<Call>)
    ensures Run(m, calls).config == m.config
  {
    if calls != [] {
      SameConfig(m, calls[..|calls| - 1]);
      PendingAfter(Run(m, calls[..|calls| - 1]), calls[|calls| - 1]);
    }
  }

  /** Once the budget is spent, every `Complete` for that pairing is rate limited until the next `Start`. */
  lemma ExhaustedStaysLimited(m: ManagerState, calls: seq<Call>, request: PairingRequest, at: CompleteClock)
    requires BudgetKept(m) && NoStart(calls)
    requires m.pending.Some? && Failures(m) == m.config.maxFailures
    ensures CompleteStep(Run(m, calls), request, at)
            == (Run(m, calls), Failure(if request.pairingID == m.pending.value.pairingID then ErrRateLimited
                                       else ErrInvalidPIN))
    ensures Run(m, calls).pending == m.pending
  {
    SpentStaysSpent(m, calls);
    SameConfig(m, calls);
  }

  lemma {:induction false} SpentStaysSpent(m: ManagerState, calls: seq<Call>)
    requires BudgetKept(m) && NoStart(calls)
    requires m.pending.Some? && Failures(m) == m.config.maxFailures
    ensures Run(m, calls).pending == m.pending
  {
    if calls != [] {
      var before, last := calls[..|calls| - 1], calls[|calls| - 1];
      SpentStaysSpent(m, before);
      SameConfig(m, before);
      PendingAfter(Run(m, before), last);
      if last.Complete? {
        assert Precheck(Run(m, before), last.request, last.at.now).Some?;
      }
      hide StartStep, ResumeStep, Admit;
    }
  }

  predicate EnrolledAt(m: ManagerState, calls: seq<Call>, i: nat, id: Octets)
    requires i < |calls|
  {
    Enrols(Run(m, calls[..i]), calls[i]) && calls[i].request.clientDeviceID == id
  }

  predicate ForgottenFrom(calls: seq<Call>, i: nat, id: Octets) {
    exists j :: i <= j < |calls| && calls[j] == ForgetDevice(id)
  }

  /** The last that happened to the device is a successful `Complete` with no `ForgetDevice` since, or it was
      trusted to begin with and has not been forgotten. */
  ghost predicate ShouldTrust(m: ManagerState, calls: seq<Call>, id: Octets) {
    || (id in m.store.trusted && !ForgottenFrom(calls, 0, id))
    || exists i: nat :: i < |calls| && EnrolledAt(m, calls, i, id) && !ForgottenFrom(calls, i, id)
  }

  lemma ForgottenOneMore(calls: seq<Call>, last: Call, i: nat, id: Octets)
    requires i <= |calls|
    ensures ForgottenFrom(calls + [last], i, id) <==> ForgottenFrom(calls, i, id) || last == ForgetDevice(id)
  {
    var all := calls + [last];
    if ForgottenFrom(calls, i, id) {
      var j :| i <= j < |calls| && calls[j] == ForgetDevice(id);
      assert all[j] == ForgetDevice(id);
    }
    if last == ForgetDevice(id) {
      assert all[|calls|] == ForgetDevice(id);
    }
  }

  lemma ShouldTrustOneMore(m: ManagerState, calls: seq<Call>, last: Call, id: Octets)
    ensures ShouldTrust(m, calls + [last], id)
            <==> && last != ForgetDevice(id)
                 && (ShouldTrust(m, calls, id) || EnrolledAt(m, calls + [last], |calls|, id))
  {
    hide Enrols, Run;
    var all := calls + [last];
    forall i: nat | i <= |calls|
      ensures ForgottenFrom(all, i, id) <==> ForgottenFrom(calls, i, id) || last == ForgetDevice(id)
    {
      ForgottenOneMore(calls, last, i, id);
    }
    forall i: nat | i < |calls|
      ensures EnrolledAt(m, all, i, id) <==> EnrolledAt(m, calls, i, id)
    {
      assert all[..i] == calls[..i];
    }
    assert !ForgottenFrom(calls, |calls|, id);
  }

  /** The trusted set is exactly what the history of enrolments and forgettings says it should be. */
  lemma {:induction false} TrustedExactly(m: ManagerState, calls: seq<Call>, id: Octets)
    requires KeyedByID(m.store)
    ensures KeyedByID(Run(m, calls).store)
    ensures id in Run(m, calls).store.trusted <==> ShouldTrust(m, calls, id)
  {
    if calls != [] {
      var before, last := calls[..|calls| - 1], calls[|calls| - 1];
      TrustedExactly(m, before, id);
      TrustedAfter(Run(m, before), last);
      ShouldTrustOneMore(m, before, last, id);
      assert calls == before + [last] && calls[..|before|] == before;
      hide Apply, Enrols, CompleteStep, ShouldTrust, ForgottenFrom;
    }
  }
}
