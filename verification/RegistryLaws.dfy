/** Safety of the runtime registry over whole runs. */
module RegistryLaws {
  import opened Wrappers
  import opened RegistryState
  import opened RegistryInvariant
  import opened AdmissionLaws

  // ---- One credential, one runtime ----------------------------------------------------

  /** The row is still there, of the same user, admitted with the same credential from the same source. */
  predicate RowKept(rows: map<string, Runtime>, r: Runtime) {
    && r.runtimeId in rows
    && rows[r.runtimeId].userId == r.userId
    && KeyOf(rows[r.runtimeId]) == KeyOf(r)
    && rows[r.runtimeId].source == r.source
  }

  lemma UpdateKeepsRow(s: Registry, step: Step, id: string)
    requires Inv(s) && id in s.runtimes && IsRowUpdate(step)
    ensures RowKept(Next(s, step).runtimes, s.runtimes[id])
  {
    RowUpdateKeepsIdentities(s, step);
    assert s.runtimes[id].runtimeId == id;
    assert SameIdentity(s.runtimes[id], Next(s, step).runtimes[id]);
  }

  lemma UpsertKeepsRow(rows: map<string, Runtime>, rt: Runtime, id: string)
    requires RowsSound(rows) && id in rows && Upsert(rows, rt).Ok?
    requires rt.source == Bare ==> rt.credentialKeyId == ""
    ensures RowKept(Upsert(rows, rt).value, rows[id])
  {
    assert rows[id].runtimeId == id;
  }

  /** Rows are never removed, and never change user, credential or source. */
  lemma StepKeepsRow(s: Registry, step: Step, id: string)
    requires Inv(s) && id in s.runtimes
    ensures id in Next(s, step).runtimes
    ensures Next(s, step).runtimes[id].userId == s.runtimes[id].userId
    ensures KeyOf(Next(s, step).runtimes[id]) == KeyOf(s.runtimes[id])
    ensures Next(s, step).runtimes[id].source == s.runtimes[id].source
  {
    assert s.runtimes[id].runtimeId == id;
    if IsRowUpdate(step) {
      UpdateKeepsRow(s, step, id);
    } else if IsAdmission(step) {
      if Apply(s, step).Ok? {
        AdmissionWrites(s, step);
        UpsertKeepsRow(s.runtimes, Presented(step), id);
      }
    } else {
      CredentialStepKeepsInv(s, step);
    }
  }

  /** So no run, whatever is admitted in it, hands a runtime to another user. */
  lemma {:induction false} RunKeepsRow(s: Registry, steps: seq<Step>, id: string)
    requires Inv(s) && id in s.runtimes
    ensures id in Run(s, steps).runtimes
    ensures Run(s, steps).runtimes[id].userId == s.runtimes[id].userId
    ensures KeyOf(Run(s, steps).runtimes[id]) == KeyOf(s.runtimes[id])
    ensures Run(s, steps).runtimes[id].source == s.runtimes[id].source
    decreases |steps|
  {
    if steps != [] {
      StepKeepsRow(s, steps[0], id);
      StepKeepsInv(s, steps[0]);
      RunKeepsRow(Next(s, steps[0]), steps[1..], id);
    }
  }

  /**
   * A credential names at most one runtime, for ever: whatever row carries its key at any later
   * point of any run is the row that carried it first, and the credential records that row, its
   * user, its role and its source.
   */
  lemma CredentialNamesOneRuntime(s: Registry, steps: seq<Step>, id: string, id': string)
    requires Inv(s) && id in s.runtimes && KeyOf(s.runtimes[id]) != ""
    requires id' in Run(s, steps).runtimes && KeyOf(Run(s, steps).runtimes[id']) == KeyOf(s.runtimes[id])
    ensures id' == id
    ensures KeyOf(s.runtimes[id]) in Run(s, steps).credentials
    ensures SpentOn(Run(s, steps).credentials[KeyOf(s.runtimes[id])], Run(s, steps).runtimes[id])
  {
    RunKeepsInv(s, steps);
    RunKeepsRow(s, steps, id);
    var s' := Run(s, steps);
    assert SpentOn(s'.credentials[KeyOf(s.runtimes[id])], s'.runtimes[id]);
    assert SpentOn(s'.credentials[KeyOf(s.runtimes[id])], s'.runtimes[id']);
  }

  /** An admission that presents a credential and succeeds adds a row: it never refreshes one. */
  lemma CredentialedAdmissionInserts(s: Registry, step: Step)
    requires Inv(s) && (step.AdmitHostedStep? || step.AdmitSelfHostedStep?)
    requires Apply(s, step).Ok? && KeyOf(step.rt) != ""
    ensures step.rt.runtimeId !in s.runtimes && step.rt.runtimeId in Next(s, step).runtimes
  {
    AdmissionWrites(s, step);
    FirstUseInserts(s, Presented(step), ConsumeTime(Presented(step), step.now));
  }

  // ---- Terminal rows ------------------------------------------------------------------

  /** Only the connection owner and the modification time may differ. */
  predicate Frozen(r: Runtime, r': Runtime) {
    r' == r.(ownerInstanceId := r'.ownerInstanceId,
             ownerAcquiredAt := r'.ownerAcquiredAt,
             ownerHeartbeatAt := r'.ownerHeartbeatAt,
             updatedAt := r'.updatedAt)
  }

  /** The one step that can overwrite a terminal row: the user's bare runtime is admitted over it. */
  predicate ReadmitsBare(s: Registry, step: Step, id: string) {
    step.AdmitBareStep? && step.rt.runtimeId == id && BareAdmissible(s, step.rt)
  }

  lemma UpdateFreezesTerminal(s: Registry, step: Step, id: string)
    requires IsRowUpdate(step) && id in s.runtimes && !Live(s.runtimes[id])
    ensures id in Next(s, step).runtimes && Frozen(s.runtimes[id], Next(s, step).runtimes[id])
  {
  }

  lemma StepFreezesTerminal(s: Registry, step: Step, id: string)
    requires Inv(s) && id in s.runtimes && !Live(s.runtimes[id]) && !ReadmitsBare(s, step, id)
    ensures id in Next(s, step).runtimes && Frozen(s.runtimes[id], Next(s, step).runtimes[id])
  {
    if IsRowUpdate(step) {
      UpdateFreezesTerminal(s, step, id);
    } else if IsAdmission(step) {
      if Apply(s, step).Ok? {
        AdmissionFreezesTerminal(s, step, id);
      }
    } else {
      CredentialStepKeepsInv(s, step);
    }
  }

  lemma AdmissionFreezesTerminal(s: Registry, step: Step, id: string)
    requires Inv(s) && IsAdmission(step) && Apply(s, step).Ok?
    requires id in s.runtimes && !Live(s.runtimes[id]) && !ReadmitsBare(s, step, id)
    ensures id in Next(s, step).runtimes && Next(s, step).runtimes[id] == s.runtimes[id]
  {
    AdmissionIff(s, step);
    AdmissionWrites(s, step);
    WrittenRow(s.runtimes, Presented(step));
    if !step.AdmitBareStep? {
      TerminalIsNotOverwritten(s.runtimes, Presented(step), id);
    }
  }

  lemma TerminalIsNotOverwritten(rows: map<string, Runtime>, rt: Runtime, id: string)
    requires id in rows && !Live(rows[id]) && rt.source != Bare && Upsert(rows, rt).Ok?
    ensures rt.runtimeId != id
  {
  }

  /** A terminal hosted or self-hosted row is never changed again, in any run. */
  lemma {:induction false} TerminalIsFinal(s: Registry, steps: seq<Step>, id: string)
    requires Inv(s) && id in s.runtimes && !Live(s.runtimes[id]) && s.runtimes[id].source != Bare
    ensures id in Run(s, steps).runtimes && Frozen(s.runtimes[id], Run(s, steps).runtimes[id])
    decreases |steps|
  {
    if steps != [] {
      var s' := Next(s, steps[0]);
      StepKeepsInv(s, steps[0]);
      StepKeepsRow(s, steps[0], id);
      BareKeepsSource(s, steps[0], id);
      StepFreezesTerminal(s, steps[0], id);
      TerminalIsFinal(s', steps[1..], id);
    }
  }

  lemma BareKeepsSource(s: Registry, step: Step, id: string)
    requires Inv(s) && id in s.runtimes && s.runtimes[id].source != Bare
    ensures !ReadmitsBare(s, step, id)
  {
  }

  /**
   * A terminal row comes back to life exactly when a live bare runtime of the same user is admitted
   * over it and clashes with no other row; so only a bare row ever does.
   */
  lemma TerminalRevivesIff(s: Registry, step: Step, id: string)
    requires Inv(s) && id in s.runtimes && !Live(s.runtimes[id])
    ensures id in Next(s, step).runtimes
    ensures Live(Next(s, step).runtimes[id]) <==> ReadmitsBare(s, step, id) && Live(step.rt)
    ensures Live(Next(s, step).runtimes[id]) ==> s.runtimes[id].source == Bare
  {
    if ReadmitsBare(s, step, id) {
      AdmissionIff(s, step);
      AdmissionWrites(s, step);
      WrittenRow(s.runtimes, Presented(step));
    } else {
      StepFreezesTerminal(s, step, id);
    }
  }

  /** Which terminal status a runtime that ends for a reason is left in. */
  predicate EndsWith(reason: EndedReason, status: RuntimeStatus) {
    && (status == Cancelled <==> reason == UserCancelled)
    && (status == HeartbeatStale <==> reason == StaleHeartbeat)
    && (status == Failed <==> reason in {AuthFailed, ProvisionFailed})
    && (status == Ended <==> reason in {RuntimeExited, ControlPanelShutdown, NoReason})
  }

  /** `r'` is `r` ended for the reason, at that time, and otherwise as it was. */
  predicate EndedAs(r: Runtime, r': Runtime, reason: EndedReason, endedAt: int, now: int) {
    && EndsWith(reason, r'.status) && r'.endedReason == reason && r'.endedAt == Some(endedAt)
    && r' == r.(status := r'.status, endedReason := r'.endedReason, endedAt := r'.endedAt, updatedAt := now)
  }

  lemma EndedRowEnds(r: Runtime, reason: EndedReason, endedAt: int, now: int)
    ensures EndedAs(r, EndedRow(r, reason, endedAt, now), reason, endedAt, now)
  {
  }

  /** The step is to end the live row `r`, stored under `id`, for that reason and at that time. */
  predicate Ends(step: Step, id: string, r: Runtime, reason: EndedReason, endedAt: int, now: int) {
    match step
    case EndStep(i, why, at, t) => i == id && (why, at, t) == (reason, endedAt, now)
    case EndByKeyStep(k, why, at, t) => k != "" && r.credentialKeyId == k && (why, at, t) == (reason, endedAt, now)
    case EndDeadStep(d, b, why, at, t) =>
      && r.status == Unhealthy && LastSeen(r) < (if r.source == Bare then b else d)
      && (why, at, t) == (reason, endedAt, now)
    case _ => false
  }

  lemma EndStepEnds(s: Registry, id: string, reason: EndedReason, endedAt: int, now: int)
    requires id in s.runtimes && Live(s.runtimes[id]) && reason != NoReason
    ensures var s' := Next(s, EndStep(id, reason, endedAt, now));
            id in s'.runtimes && EndedAs(s.runtimes[id], s'.runtimes[id], reason, endedAt, now)
  {
    EndedRowEnds(s.runtimes[id], reason, endedAt, now);
  }

  lemma SweepEnds(s: Registry, step: Step, id: string, reason: EndedReason, endedAt: int, now: int)
    requires (step.EndByKeyStep? || step.EndDeadStep?) && reason != NoReason
    requires id in s.runtimes && Live(s.runtimes[id]) && Ends(step, id, s.runtimes[id], reason, endedAt, now)
    ensures var s' := Next(s, step);
            id in s'.runtimes && EndedAs(s.runtimes[id], s'.runtimes[id], reason, endedAt, now)
  {
    hide EndedAs, EndedRow;
    EndedRowEnds(s.runtimes[id], reason, endedAt, now);
  }

  /** A live row that a step is to end, for any reason at all, is stamped as ended by it. */
  lemma StepEndsAs(s: Registry, step: Step, id: string, reason: EndedReason, endedAt: int, now: int)
    requires id in s.runtimes && Live(s.runtimes[id]) && reason != NoReason
    requires Ends(step, id, s.runtimes[id], reason, endedAt, now)
    ensures id in Next(s, step).runtimes
    ensures EndedAs(s.runtimes[id], Next(s, step).runtimes[id], reason, endedAt, now)
  {
    hide Next, EndedAs;
    if step.EndStep? {
      EndStepEnds(s, id, reason, endedAt, now);
    } else {
      SweepEnds(s, step, id, reason, endedAt, now);
    }
  }

  /** Nothing but those steps, and admissions, ends a live row. */
  lemma OnlyEndingEnds(s: Registry, step: Step, id: string)
    requires id in s.runtimes && Live(s.runtimes[id]) && !IsAdmission(step)
    requires forall reason, at, now :: reason != NoReason ==> !Ends(step, id, s.runtimes[id], reason, at, now)
    ensures id in Next(s, step).runtimes && Live(Next(s, step).runtimes[id])
  {
    match step
    case EndStep(i, why, at, t) =>
      assert why != NoReason ==> !Ends(step, id, s.runtimes[id], why, at, t);
    case EndByKeyStep(k, why, at, t) =>
      assert why != NoReason ==> !Ends(step, id, s.runtimes[id], why, at, t);
    case EndDeadStep(d, b, why, at, t) =>
      assert why != NoReason ==> !Ends(step, id, s.runtimes[id], why, at, t);
    case _ =>
  }

  /** Every terminal status is the one its recorded reason calls for. */
  ghost predicate StatusFollowsReason(s: Registry) {
    forall id :: id in s.runtimes && !Live(s.runtimes[id]) ==>
      s.runtimes[id].status == TerminalStatusForReason(s.runtimes[id].endedReason)
  }

  /** An admission that succeeds and brings in a terminal row whose status its reason does not call for. */
  predicate AdmitsMislabelled(s: Registry, step: Step) {
    && IsAdmission(step) && Accepted(s, step)
    && !Live(step.rt) && step.rt.status != TerminalStatusForReason(step.rt.endedReason)
  }

  /** Status and reason agree after a step exactly when the step did not admit a row where they differ. */
  lemma StatusFollowsReasonIff(s: Registry, step: Step)
    requires Inv(s) && StatusFollowsReason(s)
    ensures StatusFollowsReason(Next(s, step)) <==> !AdmitsMislabelled(s, step)
  {
    if IsAdmission(step) {
      AdmissionIff(s, step);
      if Apply(s, step).Ok? {
        AdmissionWrites(s, step);
        AdmittedFollowsReason(s, step, Presented(step));
      }
    } else {
      UpdatesFollowReason(s, step);
    }
  }

  lemma AdmittedFollowsReason(s: Registry, step: Step, rt: Runtime)
    requires RowsSound(s.runtimes) && StatusFollowsReason(s)
    requires Upsert(s.runtimes, rt).Ok? && Next(s, step).runtimes == Upsert(s.runtimes, rt).value
    ensures StatusFollowsReason(Next(s, step)) <==> Live(rt) || rt.status == TerminalStatusForReason(rt.endedReason)
  {
    WrittenRow(s.runtimes, rt);
    var r := Next(s, step).runtimes[rt.runtimeId];
    assert r.status == rt.status && r.endedReason == rt.endedReason;
  }

  /** Admissions present live rows, as the runtime channel's always do: it admits them as active. */
  predicate PresentsLive(step: Step) {
    IsAdmission(step) ==> Live(step.rt)
  }

  ghost predicate AllPresentLive(steps: seq<Step>) {
    forall i :: 0 <= i < |steps| ==> PresentsLive(steps[i])
  }

  /** In every state such admissions lead to, each terminal status is the one its reason calls for. */
  lemma {:induction false} RunFollowsReason(s: Registry, steps: seq<Step>)
    requires Inv(s) && StatusFollowsReason(s) && AllPresentLive(steps)
    ensures StatusFollowsReason(Run(s, steps))
    decreases |steps|
  {
    if steps != [] {
      assert PresentsLive(steps[0]);
      StatusFollowsReasonIff(s, steps[0]);
      StepKeepsInv(s, steps[0]);
      forall i | 0 <= i < |steps[1..]| ensures PresentsLive(steps[1..][i]) {
        assert steps[1..][i] == steps[i + 1];
      }
      RunFollowsReason(Next(s, steps[0]), steps[1..]);
    }
  }

  lemma UpdatesFollowReason(s: Registry, step: Step)
    requires Inv(s) && StatusFollowsReason(s) && !IsAdmission(step)
    ensures StatusFollowsReason(Next(s, step))
  {
    var s' := Next(s, step);
    forall id | id in s'.runtimes && !Live(s'.runtimes[id])
      ensures s'.runtimes[id].status == TerminalStatusForReason(s'.runtimes[id].endedReason)
    {
      UpdateDomain(s, step);
      if !Live(s.runtimes[id]) {
        StepFreezesTerminal(s, step, id);
      } else {
        EndedByReason(s, step, id);
      }
    }
  }

  lemma UpdateDomain(s: Registry, step: Step)
    requires Inv(s) && !IsAdmission(step)
    ensures Next(s, step).runtimes.Keys == s.runtimes.Keys
  {
    if IsRowUpdate(step) {
      RowUpdateKeepsIdentities(s, step);
    } else {
      CredentialStepKeepsInv(s, step);
    }
  }

  lemma EndedByReason(s: Registry, step: Step, id: string)
    requires !IsAdmission(step) && id in s.runtimes && Live(s.runtimes[id])
    requires id in Next(s, step).runtimes && !Live(Next(s, step).runtimes[id])
    ensures Next(s, step).runtimes[id].status == TerminalStatusForReason(Next(s, step).runtimes[id].endedReason)
  {
  }
}
