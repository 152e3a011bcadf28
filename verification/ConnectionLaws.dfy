/** Heartbeats and connection ownership over whole runs. */
module ConnectionLaws {
  import opened Wrappers
  import opened Text
  import opened RegistryState
  import opened RegistryInvariant
  import opened AdmissionLaws

  /** A heartbeat is accepted exactly from a live runtime, and leaves it active and just seen. */
  lemma HeartbeatIff(s: Registry, id: string, at: int, now: int)
    ensures Heartbeat(s, id, at, now).Ok? <==> id in s.runtimes && Live(s.runtimes[id])
    ensures Heartbeat(s, id, at, now).Ok? ==>
              var r, r' := s.runtimes[id], Heartbeat(s, id, at, now).value.runtimes[id];
              && r'.status == Active && LastSeen(r') == at
              && r'.startedAt == (if r.startedAt.Some? then r.startedAt else Some(at))
              && SameIdentity(r, r') && r'.ownerInstanceId == r.ownerInstanceId
  {
    if id in s.runtimes && Live(s.runtimes[id]) {
      LiveStatuses(s.runtimes[id].status);
    }
  }

  /** The step takes the runtime's connection away from `owner`. */
  predicate Disowns(step: Step, id: string, owner: string) {
    || (step.RecordOwnerStep? && step.id == id && step.instanceId != owner)
    || (step.ClearOwnerStep? && step.id == id && step.instanceId == owner)
  }

  ghost predicate NoneDisowns(steps: seq<Step>, id: string, owner: string) {
    forall i :: 0 <= i < |steps| ==> !Disowns(steps[i], id, owner)
  }

  predicate OwnedSince(s: Registry, id: string, owner: string, since: Option<int>) {
    id in s.runtimes && s.runtimes[id].ownerInstanceId == owner && s.runtimes[id].ownerAcquiredAt == since
  }

  lemma UpdateKeepsOwner(s: Registry, step: Step, id: string, owner: string, since: Option<int>)
    requires IsRowUpdate(step) && OwnedSince(s, id, owner, since) && owner != "" && since.Some?
    requires !Disowns(step, id, owner)
    ensures OwnedSince(Next(s, step), id, owner, since)
  {
  }

  lemma AdmissionKeepsOwner(s: Registry, step: Step, id: string, owner: string, since: Option<int>)
    requires Inv(s) && IsAdmission(step) && Apply(s, step).Ok? && OwnedSince(s, id, owner, since)
    ensures OwnedSince(Next(s, step), id, owner, since)
  {
    AdmissionWrites(s, step);
    UpsertKeepsOwner(s.runtimes, Presented(step), id);
  }

  lemma UpsertKeepsOwner(rows: map<string, Runtime>, rt: Runtime, id: string)
    requires Upsert(rows, rt).Ok? && id in rows
    ensures var rows' := Upsert(rows, rt).value;
            && id in rows' && rows'[id].ownerInstanceId == rows[id].ownerInstanceId
            && rows'[id].ownerAcquiredAt == rows[id].ownerAcquiredAt
  {
  }

  lemma StepKeepsOwner(s: Registry, step: Step, id: string, owner: string, since: Option<int>)
    requires Inv(s) && OwnedSince(s, id, owner, since) && owner != "" && since.Some?
    requires !Disowns(step, id, owner)
    ensures OwnedSince(Next(s, step), id, owner, since)
  {
    if IsRowUpdate(step) {
      UpdateKeepsOwner(s, step, id, owner, since);
    } else if IsAdmission(step) {
      if Apply(s, step).Ok? {
        AdmissionKeepsOwner(s, step, id, owner, since);
      }
    } else {
      CredentialStepKeepsInv(s, step);
    }
  }

  /**
   * A connection owner keeps the runtime, and the time it acquired it, through every run in which
   * no other owner is recorded and the owner itself does not let go: a replaced instance that
   * cleans up late, an end or a re-admission never takes the connection away.
   */
  lemma {:induction false} OwnerStays(s: Registry, steps: seq<Step>, id: string, owner: string, since: Option<int>)
    requires Inv(s) && OwnedSince(s, id, owner, since) && owner != "" && NoneDisowns(steps, id, owner)
    ensures OwnedSince(Run(s, steps), id, owner, since)
    decreases |steps|
  {
    if steps != [] {
      assert RowChecks(s.runtimes[id]);
      assert !Disowns(steps[0], id, owner);
      StepKeepsOwner(s, steps[0], id, owner, since);
      StepKeepsInv(s, steps[0]);
      forall i | 0 <= i < |steps[1..]| ensures !Disowns(steps[1..][i], id, owner) {
        assert steps[1..][i] == steps[i + 1];
      }
      OwnerStays(Next(s, steps[0]), steps[1..], id, owner, since);
    }
  }

  /** Recording makes the instance the owner, since now unless it was already. */
  lemma RecordingMakesOwner(s: Registry, id: string, owner: string, at: int, now: int)
    requires Inv(s) && TrimSpace(id) != "" && TrimSpace(owner) != ""
    ensures RecordOwner(s, id, owner, at, now).Ok? <==> id in s.runtimes && Live(s.runtimes[id])
    ensures RecordOwner(s, id, owner, at, now).Ok? ==>
              var since := if s.runtimes[id].ownerInstanceId == owner then s.runtimes[id].ownerAcquiredAt else Some(at);
              OwnedSince(Next(s, RecordOwnerStep(id, owner, at, now)), id, owner, since)
  {
    assert owner != "" by {
      assert TrimSpace("") == "";
    }
    if id in s.runtimes {
      assert RowChecks(s.runtimes[id]);
    }
  }

  /** Clearing leaves the runtime without an owner if it names the owner, and is idle otherwise. */
  lemma ClearingTakesOwner(s: Registry, id: string, owner: string, now: int)
    requires TrimSpace(id) != "" && TrimSpace(owner) != ""
    ensures id in s.runtimes && s.runtimes[id].ownerInstanceId == owner ==>
              OwnedSince(Next(s, ClearOwnerStep(id, owner, now)), id, "", None)
    ensures id !in s.runtimes || s.runtimes[id].ownerInstanceId != owner ==>
              Next(s, ClearOwnerStep(id, owner, now)) == s
  {
  }

  /** A newly recorded owner holds the connection from then on, until another is recorded or it lets go. */
  lemma RecordedOwnerStays(s: Registry, id: string, owner: string, at: int, now: int, steps: seq<Step>)
    requires Inv(s) && TrimSpace(id) != "" && TrimSpace(owner) != "" && id in s.runtimes && Live(s.runtimes[id])
    requires s.runtimes[id].ownerInstanceId != owner && NoneDisowns(steps, id, owner)
    ensures OwnedSince(Run(s, [RecordOwnerStep(id, owner, at, now)] + steps), id, owner, Some(at))
  {
    var record := RecordOwnerStep(id, owner, at, now);
    assert owner != "" by {
      assert TrimSpace("") == "";
    }
    RecordingMakesOwner(s, id, owner, at, now);
    StepKeepsInv(s, record);
    OwnerStays(Next(s, record), steps, id, owner, Some(at));
    assert ([record] + steps)[1..] == steps;
  }
}
