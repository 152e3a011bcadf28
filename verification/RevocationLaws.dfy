/** Revocation of credentials, over whole runs. */
module RevocationLaws {
  import opened Text
  import opened RegistryState
  import opened RegistryInvariant
  import opened AdmissionLaws

  lemma ConsumeKeepsRevoked(credentials: map<string, Credential>, rt: Runtime, at: int, k: string)
    requires Consume(credentials, rt, at).Ok? && k in credentials && credentials[k].status == Revoked
    ensures var credentials' := Consume(credentials, rt, at).value;
            k in credentials' && credentials'[k].status == Revoked
    ensures KeyOf(rt) == k ==> k == ""
  {
  }

  lemma AdmissionKeepsRevoked(s: Registry, step: Step, k: string)
    requires IsAdmission(step) && k in s.credentials && s.credentials[k].status == Revoked
    ensures k in Next(s, step).credentials && Next(s, step).credentials[k].status == Revoked
    ensures Apply(s, step).Ok? && KeyOf(Presented(step)) == k ==> k == ""
  {
    if Apply(s, step).Ok? && !step.AdmitBareStep? {
      var rt := Presented(step);
      ConsumeKeepsRevoked(s.credentials, rt, ConsumeTime(rt, step.now), k);
    }
  }

  lemma CredentialStepKeepsRevoked(s: Registry, step: Step, k: string)
    requires step.Issue? || step.RevokeStep? || step.TouchCredentialStep?
    requires k in s.credentials && s.credentials[k].status == Revoked
    ensures k in Next(s, step).credentials && Next(s, step).credentials[k].status == Revoked
  {
  }

  lemma StepKeepsRevoked(s: Registry, step: Step, k: string)
    requires Inv(s) && k in s.credentials && s.credentials[k].status == Revoked
    ensures k in Next(s, step).credentials && Next(s, step).credentials[k].status == Revoked
  {
    if IsRowUpdate(step) {
      RowUpdateKeepsIdentities(s, step);
    } else if IsAdmission(step) {
      AdmissionKeepsRevoked(s, step, k);
    } else {
      CredentialStepKeepsRevoked(s, step, k);
    }
  }

  ghost predicate NoLiveRow(s: Registry, k: string) {
    forall id :: id in s.runtimes && Live(s.runtimes[id]) ==> KeyOf(s.runtimes[id]) != k
  }

  lemma StepKeepsKeyDead(s: Registry, step: Step, k: string)
    requires Inv(s) && k != "" && k in s.credentials && s.credentials[k].status == Revoked && NoLiveRow(s, k)
    ensures NoLiveRow(Next(s, step), k)
  {
    if IsRowUpdate(step) {
      RowUpdateKeepsIdentities(s, step);
      assert forall id :: id in s.runtimes ==> SameIdentity(s.runtimes[id], Next(s, step).runtimes[id]);
    } else if IsAdmission(step) {
      if Apply(s, step).Ok? {
        AdmissionWrites(s, step);
        WrittenRow(s.runtimes, Presented(step));
        AdmissionKeepsRevoked(s, step, k);
      }
    } else {
      CredentialStepKeepsInv(s, step);
    }
  }

  /** Once a credential is revoked and no live runtime carries it, none ever does again. */
  lemma {:induction false} RevocationIsFinal(s: Registry, steps: seq<Step>, k: string)
    requires Inv(s) && k != "" && k in s.credentials && s.credentials[k].status == Revoked && NoLiveRow(s, k)
    ensures k in Run(s, steps).credentials && Run(s, steps).credentials[k].status == Revoked
    ensures NoLiveRow(Run(s, steps), k)
    decreases |steps|
  {
    if steps != [] {
      StepKeepsInv(s, steps[0]);
      StepKeepsRevoked(s, steps[0], k);
      StepKeepsKeyDead(s, steps[0], k);
      RevocationIsFinal(Next(s, steps[0]), steps[1..], k);
    }
  }

  /** The credential service's revocation: revoke, then end every runtime stored under the key. */
  function RevokeAndEnd(s: Registry, k: string, userId: int, at: int, now: int): Registry {
    Next(Next(s, RevokeStep(k, userId, now)), EndByKeyStep(k, AuthFailed, at, now))
  }

  /** The runtime carries the credential, but under a spelling padded with white space. */
  predicate PaddedHolder(s: Registry, id: string, k: string) {
    id in s.runtimes && Live(s.runtimes[id]) && KeyOf(s.runtimes[id]) == k && s.runtimes[id].credentialKeyId != k
  }

  /**
   * Called on arbitrary tables, revocation by the key's owner leaves live exactly the runtimes
   * stored under a padded spelling of the key. The service never stores one: see below.
   */
  lemma RevocationEndsExactly(s: Registry, k: string, userId: int, at: int, now: int, id: string)
    requires Inv(s) && k != "" && k in s.credentials && s.credentials[k].userId == userId
    ensures var s' := RevokeAndEnd(s, k, userId, at, now);
            && Inv(s') && k in s'.credentials && s'.credentials[k].status == Revoked
            && (id in s'.runtimes && Live(s'.runtimes[id]) && KeyOf(s'.runtimes[id]) == k <==> PaddedHolder(s, id, k))
  {
    var s1 := Next(s, RevokeStep(k, userId, now));
    StepKeepsInv(s, RevokeStep(k, userId, now));
    StepKeepsInv(s1, EndByKeyStep(k, AuthFailed, at, now));
    StepKeepsRevoked(s1, EndByKeyStep(k, AuthFailed, at, now), k);
    RevokedAndEnded(s, k, userId, at, now);
  }

  /** Exactly the live rows stored under the key itself end. */
  lemma RevokedAndEnded(s: Registry, k: string, userId: int, at: int, now: int)
    requires k != "" && k in s.credentials && s.credentials[k].userId == userId
    ensures var rows := RevokeAndEnd(s, k, userId, at, now).runtimes;
            && rows.Keys == s.runtimes.Keys
            && forall id :: id in s.runtimes ==>
                 if s.runtimes[id].credentialKeyId == k && Live(s.runtimes[id])
                 then !Live(rows[id]) else rows[id] == s.runtimes[id]
  {
    var s1 := Next(s, RevokeStep(k, userId, now));
    assert s1.runtimes == s.runtimes;
  }

  // ---- Keys as the service presents them ----------------------------------------------

  /** Without white space at either end. */
  predicate Plain(k: string) {
    TrimSpace(k) == k
  }

  ghost predicate KeysPlain(s: Registry) {
    && (forall k :: k in s.credentials ==> k != "" && Plain(k))
    && (forall id :: id in s.runtimes ==> Plain(s.runtimes[id].credentialKeyId))
  }

  /**
   * The step is one the service takes. Keys are issued as base64url, and a runtime is admitted with
   * a credential only after that very key has been looked up.
   */
  predicate ByTheService(s: Registry, step: Step) {
    && (step.Issue? ==> step.keyId != "" && Plain(step.keyId))
    && (step.AdmitHostedStep? || step.AdmitSelfHostedStep? ==> step.rt.credentialKeyId in s.credentials)
  }

  ghost predicate ServiceRun(s: Registry, steps: seq<Step>)
    decreases |steps|
  {
    steps == [] || (ByTheService(s, steps[0]) && ServiceRun(Next(s, steps[0]), steps[1..]))
  }

  lemma UpdateKeepsPlain(s: Registry, step: Step)
    requires Inv(s) && KeysPlain(s) && IsRowUpdate(step)
    ensures KeysPlain(Next(s, step))
  {
    RowUpdateKeepsIdentities(s, step);
    KeptIdentitiesArePlain(s, Next(s, step));
  }

  lemma KeptIdentitiesArePlain(s: Registry, s': Registry)
    requires KeysPlain(s) && IdentitiesKept(s.runtimes, s'.runtimes) && s'.credentials == s.credentials
    ensures KeysPlain(s')
  {
    assert forall id :: id in s'.runtimes ==> SameIdentity(s.runtimes[id], s'.runtimes[id]);
  }

  lemma AdmissionKeepsPlain(s: Registry, step: Step)
    requires Inv(s) && KeysPlain(s) && ByTheService(s, step) && IsAdmission(step) && Apply(s, step).Ok?
    ensures KeysPlain(Next(s, step))
  {
    AdmissionWrites(s, step);
    AdmissionKeepsKeys(s, step);
    WrittenRow(s.runtimes, Presented(step));
    PutKeepsPlain(s, Next(s, step), Presented(step).runtimeId);
  }

  lemma PutKeepsPlain(s: Registry, s': Registry, id: string)
    requires KeysPlain(s) && s'.credentials.Keys == s.credentials.Keys && id in s'.runtimes
    requires s'.runtimes == s.runtimes[id := s'.runtimes[id]]
    requires s'.runtimes[id].credentialKeyId == "" || s'.runtimes[id].credentialKeyId in s.credentials
    ensures KeysPlain(s')
  {
  }

  lemma CredentialStepKeepsPlain(s: Registry, step: Step)
    requires Inv(s) && KeysPlain(s) && ByTheService(s, step)
    requires step.Issue? || step.RevokeStep? || step.TouchCredentialStep?
    ensures KeysPlain(Next(s, step))
  {
    CredentialStepKeepsInv(s, step);
    CredentialStepAddsKey(s, step);
  }

  lemma ServiceStepKeepsPlain(s: Registry, step: Step)
    requires Inv(s) && KeysPlain(s) && ByTheService(s, step)
    ensures KeysPlain(Next(s, step))
  {
    hide Inv, KeysPlain, ByTheService;
    if IsRowUpdate(step) {
      UpdateKeepsPlain(s, step);
    } else if IsAdmission(step) {
      if Apply(s, step).Ok? {
        AdmissionKeepsPlain(s, step);
      }
    } else {
      CredentialStepKeepsPlain(s, step);
    }
  }

  lemma AdmissionKeepsKeys(s: Registry, step: Step)
    requires IsAdmission(step)
    ensures Next(s, step).credentials.Keys == s.credentials.Keys
  {
  }

  lemma CredentialStepAddsKey(s: Registry, step: Step)
    requires step.Issue? || step.RevokeStep? || step.TouchCredentialStep?
    ensures forall k :: k in Next(s, step).credentials ==> k in s.credentials || (step.Issue? && k == step.keyId)
  {
  }

  lemma {:induction false} ServiceRunKeepsPlain(s: Registry, steps: seq<Step>)
    requires Inv(s) && KeysPlain(s) && ServiceRun(s, steps)
    ensures Inv(Run(s, steps)) && KeysPlain(Run(s, steps))
    decreases |steps|
  {
    if steps != [] {
      StepKeepsInv(s, steps[0]);
      ServiceStepKeepsPlain(s, steps[0]);
      ServiceRunKeepsPlain(Next(s, steps[0]), steps[1..]);
    }
  }

  /**
   * In every state the service can reach, once a credential is revoked and its runtimes have been
   * ended by key, no live runtime carries it, then or in any later state, whatever happens.
   */
  lemma RevokedForever(
    steps: seq<Step>, k: string, reason: EndedReason, at: int, now: int, later: seq<Step>)
    requires ServiceRun(EMPTY, steps) && reason != NoReason
    requires var s := Run(EMPTY, steps); k in s.credentials && s.credentials[k].status == Revoked
    ensures var s' := Run(Next(Run(EMPTY, steps), EndByKeyStep(k, reason, at, now)), later);
            k in s'.credentials && s'.credentials[k].status == Revoked && NoLiveRow(s', k)
  {
    var s := Run(EMPTY, steps);
    EmptyRegistry();
    ServiceRunKeepsPlain(EMPTY, steps);
    var s1 := Next(s, EndByKeyStep(k, reason, at, now));
    StepKeepsInv(s, EndByKeyStep(k, reason, at, now));
    EndingByKeyEndsAll(s, k, reason, at, now);
    RevocationIsFinal(s1, later, k);
  }

  lemma EndingByKeyEndsAll(s: Registry, k: string, reason: EndedReason, at: int, now: int)
    requires KeysPlain(s) && k in s.credentials && reason != NoReason
    ensures NoLiveRow(Next(s, EndByKeyStep(k, reason, at, now)), k)
    ensures Next(s, EndByKeyStep(k, reason, at, now)).credentials == s.credentials
  {
    var s' := Next(s, EndByKeyStep(k, reason, at, now));
    forall id | id in s'.runtimes && Live(s'.runtimes[id]) ensures KeyOf(s'.runtimes[id]) != k {
      assert Plain(s.runtimes[id].credentialKeyId);
    }
  }
}
