/** What every step of the control plane keeps true of the registry and its credentials. */
module RegistryInvariant {
  import opened Wrappers
  import opened Text
  import opened RegistryState

  /** The credential a row was admitted with; "" when it was admitted without one. */
  function KeyOf(r: Runtime): string {
    TrimSpace(r.credentialKeyId)
  }

  ghost predicate RowsSound(rows: map<string, Runtime>) {
    forall id :: id in rows ==>
      && rows[id].runtimeId == id && RowChecks(rows[id]) && rows[id].userId > 0
      && (rows[id].source == Bare ==> rows[id].credentialKeyId == "")
  }

  /** No two rows of one user share a name, whatever their source or status. */
  ghost predicate NamesUnique(rows: map<string, Runtime>) {
    forall a, b :: a in rows && b in rows && rows[a].userId == rows[b].userId && rows[a].name == rows[b].name ==> a == b
  }

  predicate LiveDebugger(r: Runtime) {
    Live(r) && r.role == Debugger
  }

  /** No user has two live debuggers. */
  ghost predicate DebuggersUnique(rows: map<string, Runtime>) {
    forall a, b | a in rows && b in rows && LiveDebugger(rows[a]) && LiveDebugger(rows[b]) ::
      rows[a].userId == rows[b].userId ==> a == b
  }

  /** No two live rows carry the same stored key. */
  ghost predicate LiveKeysUnique(rows: map<string, Runtime>) {
    forall a, b | a in rows && b in rows && Live(rows[a]) && Live(rows[b]) && rows[a].credentialKeyId != "" ::
      rows[a].credentialKeyId == rows[b].credentialKeyId ==> a == b
  }

  /** `c` was spent on admitting `r`, and describes it. */
  predicate SpentOn(c: Credential, r: Runtime) {
    && c.consumedRuntimeId == r.runtimeId != ""
    && c.userId == r.userId
    && c.role == r.role
    && CredentialSource(c) == r.source
  }

  /** Nothing is spent without a key; with one, exactly that credential is, on `rt`, which it describes. */
  predicate IsSpending(
    credentials: map<string, Credential>, rt: Runtime, at: int, credentials': map<string, Credential>)
  {
    if KeyOf(rt) == "" then credentials' == credentials
    else
      && KeyOf(rt) in credentials && KeyOf(rt) in credentials'
      && credentials' == credentials[KeyOf(rt) := credentials'[KeyOf(rt)]]
      && var c := credentials'[KeyOf(rt)];
         && c.status == Consumed && c.consumedAt == Some(at) && SpentOn(c, rt)
         && c == credentials[KeyOf(rt)].(status := Consumed, consumedAt := Some(at), lastUsedAt := Some(at),
                                         consumedRuntimeId := rt.runtimeId)
  }

  /** Every row with a key holds a credential spent on it ... */
  ghost predicate KeysSpent(s: Registry) {
    forall id :: id in s.runtimes && KeyOf(s.runtimes[id]) != "" ==>
      && KeyOf(s.runtimes[id]) in s.credentials
      && SpentOn(s.credentials[KeyOf(s.runtimes[id])], s.runtimes[id])
  }

  /** ... and every spent credential was spent on a row that is still there. */
  ghost predicate SpentHaveRows(s: Registry) {
    forall k :: k in s.credentials && s.credentials[k].consumedRuntimeId != "" ==>
      && s.credentials[k].consumedRuntimeId in s.runtimes
      && KeyOf(s.runtimes[s.credentials[k].consumedRuntimeId]) == k
  }

  ghost predicate CredentialsSound(creds: map<string, Credential>) {
    forall k :: k in creds ==> CredentialChecks(creds[k])
  }

  ghost predicate Inv(s: Registry) {
    && RowsSound(s.runtimes)
    && NamesUnique(s.runtimes)
    && DebuggersUnique(s.runtimes)
    && LiveKeysUnique(s.runtimes)
    && KeysSpent(s)
    && SpentHaveRows(s)
    && CredentialsSound(s.credentials)
  }

  const EMPTY := Registry(map[], map[])

  lemma EmptyRegistry()
    ensures Inv(EMPTY)
  {
  }

  /** The live statuses, spelt out. */
  lemma LiveStatuses(status: RuntimeStatus)
    ensures !IsTerminal(status) <==> status in {Starting, Paired, Active, Unhealthy}
  {
    match status
    case Starting =>
    case Paired =>
    case Active =>
    case Unhealthy =>
    case HeartbeatStale =>
    case Ended =>
    case Cancelled =>
    case Failed =>
  }

  // ---- Updates that keep every row's identity -----------------------------------------

  /** Same owner, name, key, source and role; no return from a terminal status. */
  predicate SameIdentity(r: Runtime, r': Runtime) {
    && r'.runtimeId == r.runtimeId
    && r'.credentialKeyId == r.credentialKeyId
    && r'.userId == r.userId
    && r'.name == r.name
    && r'.source == r.source
    && r'.role == r.role
    && (Live(r') ==> Live(r))
  }

  ghost predicate IdentitiesKept(rows: map<string, Runtime>, rows': map<string, Runtime>) {
    && rows'.Keys == rows.Keys
    && forall id :: id in rows ==> SameIdentity(rows[id], rows'[id]) && RowChecks(rows'[id])
  }

  lemma IdentitiesKeepUniqueness(rows: map<string, Runtime>, rows': map<string, Runtime>)
    requires RowsSound(rows) && NamesUnique(rows) && DebuggersUnique(rows) && LiveKeysUnique(rows)
    requires IdentitiesKept(rows, rows')
    ensures RowsSound(rows') && NamesUnique(rows') && DebuggersUnique(rows') && LiveKeysUnique(rows')
  {
    assert forall id :: id in rows' <==> id in rows;
    assert forall id :: id in rows ==> SameIdentity(rows[id], rows'[id]);
  }

  lemma IdentitiesKeepSpending(s: Registry, rows': map<string, Runtime>)
    requires KeysSpent(s) && SpentHaveRows(s) && IdentitiesKept(s.runtimes, rows')
    ensures KeysSpent(s.(runtimes := rows')) && SpentHaveRows(s.(runtimes := rows'))
  {
    assert forall id :: id in rows' <==> id in s.runtimes;
    assert forall id :: id in s.runtimes ==> SameIdentity(s.runtimes[id], rows'[id]);
  }

  lemma IdentitiesKeepInv(s: Registry, rows': map<string, Runtime>)
    requires Inv(s) && IdentitiesKept(s.runtimes, rows')
    ensures Inv(s.(runtimes := rows'))
  {
    IdentitiesKeepUniqueness(s.runtimes, rows');
    IdentitiesKeepSpending(s, rows');
  }

  /** Every step but issuing, admitting, revoking and using credentials is of this kind. */
  predicate IsRowUpdate(step: Step) {
    || step.HeartbeatStep? || step.RecordOwnerStep? || step.ClearOwnerStep? || step.EndStep? || step.EndByKeyStep?
    || step.MarkStaleStep? || step.EndDeadStep? || step.TouchRowStep?
  }

  lemma PointUpdateKeeps(rows: map<string, Runtime>, id: string, r: Runtime)
    requires RowsSound(rows) && id in rows && SameIdentity(rows[id], r) && RowChecks(r)
    ensures IdentitiesKept(rows, rows[id := r])
  {
  }

  lemma EndedRowKeeps(r: Runtime, reason: EndedReason, endedAt: int, now: int)
    requires RowChecks(r) && reason != NoReason
    ensures SameIdentity(r, EndedRow(r, reason, endedAt, now)) && RowChecks(EndedRow(r, reason, endedAt, now))
    ensures IsTerminal(EndedRow(r, reason, endedAt, now).status)
  {
  }

  lemma RowUpdateKeepsIdentities(s: Registry, step: Step)
    requires Inv(s) && IsRowUpdate(step)
    ensures IdentitiesKept(s.runtimes, Next(s, step).runtimes)
    ensures Next(s, step).credentials == s.credentials
  {
    var s' := Next(s, step);
    if step.HeartbeatStep? || step.RecordOwnerStep? || step.ClearOwnerStep? || step.EndStep? || step.TouchRowStep? {
      if step.id in s.runtimes && s' != s {
        PointStep(s, step);
        PointUpdateKeeps(s.runtimes, step.id, s'.runtimes[step.id]);
      }
    } else if Apply(s, step).Ok? {
      SweepStep(s, step);
    }
  }

  /** The step replaces one row by another of the same identity, or leaves the table alone. */
  ghost predicate Replaces(s: Registry, s': Registry, id: string) {
    && id in s.runtimes && id in s'.runtimes
    && s' == s.(runtimes := s.runtimes[id := s'.runtimes[id]])
    && SameIdentity(s.runtimes[id], s'.runtimes[id]) && RowChecks(s'.runtimes[id])
  }

  lemma Unchanged(s: Registry, id: string)
    requires id in s.runtimes && RowChecks(s.runtimes[id])
    ensures Replaces(s, s, id)
  {
    assert s.runtimes == s.runtimes[id := s.runtimes[id]];
  }

  lemma HeartbeatReplaces(s: Registry, id: string, at: int, now: int)
    requires id in s.runtimes && RowChecks(s.runtimes[id])
    ensures Replaces(s, Next(s, HeartbeatStep(id, at, now)), id)
  {
    Unchanged(s, id);
  }

  lemma RecordReplaces(s: Registry, id: string, instanceId: string, at: int, now: int)
    requires id in s.runtimes && RowChecks(s.runtimes[id])
    ensures Replaces(s, Next(s, RecordOwnerStep(id, instanceId, at, now)), id)
  {
    Unchanged(s, id);
    if instanceId == "" {
      assert TrimSpace(instanceId) == "";
    }
  }

  lemma ClearReplaces(s: Registry, id: string, instanceId: string, now: int)
    requires id in s.runtimes && RowChecks(s.runtimes[id])
    ensures Replaces(s, Next(s, ClearOwnerStep(id, instanceId, now)), id)
  {
    Unchanged(s, id);
  }

  lemma EndReplaces(s: Registry, id: string, reason: EndedReason, endedAt: int, now: int)
    requires id in s.runtimes && RowChecks(s.runtimes[id])
    ensures Replaces(s, Next(s, EndStep(id, reason, endedAt, now)), id)
  {
    Unchanged(s, id);
    if reason != NoReason {
      EndedRowKeeps(s.runtimes[id], reason, endedAt, now);
    }
  }

  lemma TouchReplaces(s: Registry, id: string, now: int)
    requires id in s.runtimes && RowChecks(s.runtimes[id])
    ensures Replaces(s, Next(s, TouchRowStep(id, now)), id)
  {
  }

  /** The steps that update one row. */
  lemma PointStep(s: Registry, step: Step)
    requires Inv(s)
    requires step.HeartbeatStep? || step.RecordOwnerStep? || step.ClearOwnerStep? || step.EndStep? || step.TouchRowStep?
    requires step.id in s.runtimes
    ensures Replaces(s, Next(s, step), step.id)
  {
    assert RowChecks(s.runtimes[step.id]);
    hide Inv, Replaces, RowChecks, Next;
    match step
    case HeartbeatStep(id, at, now) => HeartbeatReplaces(s, id, at, now);
    case RecordOwnerStep(id, instanceId, at, now) => RecordReplaces(s, id, instanceId, at, now);
    case ClearOwnerStep(id, instanceId, now) => ClearReplaces(s, id, instanceId, now);
    case EndStep(id, reason, endedAt, now) => EndReplaces(s, id, reason, endedAt, now);
    case TouchRowStep(id, now) => TouchReplaces(s, id, now);
  }

  /** The steps that update every row of a kind. */
  lemma SweepStep(s: Registry, step: Step)
    requires Inv(s) && (step.EndByKeyStep? || step.MarkStaleStep? || step.EndDeadStep?) && Apply(s, step).Ok?
    ensures Next(s, step).credentials == s.credentials
    ensures IdentitiesKept(s.runtimes, Next(s, step).runtimes)
  {
    match step
    case EndByKeyStep(keyId, reason, endedAt, now) => EndByKeyKeeps(s, keyId, reason, endedAt, now);
    case MarkStaleStep(cutoff, now) => MarkStaleKeeps(s, cutoff, now);
    case EndDeadStep(d, b, reason, endedAt, now) => EndDeadKeeps(s, d, b, reason, endedAt, now);
  }

  lemma EndByKeyKeeps(s: Registry, keyId: string, reason: EndedReason, endedAt: int, now: int)
    requires RowsSound(s.runtimes) && EndByKey(s, keyId, reason, endedAt, now).Ok?
    ensures IdentitiesKept(s.runtimes, EndByKey(s, keyId, reason, endedAt, now).value.runtimes)
  {
    forall id | id in s.runtimes && reason != NoReason
      ensures SameIdentity(s.runtimes[id], EndedRow(s.runtimes[id], reason, endedAt, now))
      ensures RowChecks(EndedRow(s.runtimes[id], reason, endedAt, now))
    {
      EndedRowKeeps(s.runtimes[id], reason, endedAt, now);
    }
  }

  lemma MarkStaleKeeps(s: Registry, cutoff: int, now: int)
    requires RowsSound(s.runtimes)
    ensures IdentitiesKept(s.runtimes, MarkStale(s, cutoff, now).value.runtimes)
  {
    forall id | id in s.runtimes ensures RowChecks(s.runtimes[id]) {
    }
  }

  lemma EndDeadKeeps(s: Registry, d: int, b: int, reason: EndedReason, endedAt: int, now: int)
    requires RowsSound(s.runtimes) && EndDead(s, d, b, reason, endedAt, now).Ok?
    ensures IdentitiesKept(s.runtimes, EndDead(s, d, b, reason, endedAt, now).value.runtimes)
  {
    forall id | id in s.runtimes && reason != NoReason
      ensures SameIdentity(s.runtimes[id], EndedRow(s.runtimes[id], reason, endedAt, now))
      ensures RowChecks(EndedRow(s.runtimes[id], reason, endedAt, now))
    {
      EndedRowKeeps(s.runtimes[id], reason, endedAt, now);
    }
  }

  lemma EndByKeyKeepsInv(s: Registry, keyId: string, reason: EndedReason, endedAt: int, now: int)
    requires Inv(s) && EndByKey(s, keyId, reason, endedAt, now).Ok?
    ensures Inv(EndByKey(s, keyId, reason, endedAt, now).value)
  {
    EndByKeyKeeps(s, keyId, reason, endedAt, now);
    IdentitiesKeepInv(s, EndByKey(s, keyId, reason, endedAt, now).value.runtimes);
  }

  lemma MarkStaleKeepsInv(s: Registry, cutoff: int, now: int)
    requires Inv(s)
    ensures Inv(MarkStale(s, cutoff, now).value)
  {
    MarkStaleKeeps(s, cutoff, now);
    IdentitiesKeepInv(s, MarkStale(s, cutoff, now).value.runtimes);
  }

  lemma EndDeadKeepsInv(s: Registry, d: int, b: int, reason: EndedReason, endedAt: int, now: int)
    requires Inv(s) && EndDead(s, d, b, reason, endedAt, now).Ok?
    ensures Inv(EndDead(s, d, b, reason, endedAt, now).value)
  {
    EndDeadKeeps(s, d, b, reason, endedAt, now);
    IdentitiesKeepInv(s, EndDead(s, d, b, reason, endedAt, now).value.runtimes);
  }

  // ---- Credential steps ---------------------------------------------------------------

  /** Nothing a row relies on changes, and new credentials are unspent. */
  ghost predicate SpendingKept(creds: map<string, Credential>, creds': map<string, Credential>) {
    && (forall k :: k in creds ==> k in creds' && SameSpending(creds[k], creds'[k]))
    && (forall k :: k in creds' && k !in creds ==> creds'[k].consumedRuntimeId == "")
  }

  predicate SameSpending(c: Credential, c': Credential) {
    && c'.consumedRuntimeId == c.consumedRuntimeId
    && c'.userId == c.userId
    && c'.role == c.role
    && c'.hostedInternal == c.hostedInternal
  }

  /** Revoking one credential, in the table's own terms. */
  lemma RevokingKeepsInv(s: Registry, k: string, now: int)
    requires Inv(s) && k in s.credentials
    ensures Inv(s.(credentials := s.credentials[k := s.credentials[k].(status := Revoked, revokedAt := Some(now))]))
  {
    assert CredentialChecks(s.credentials[k]);
    SpendingKeepsInv(s, s.credentials[k := s.credentials[k].(status := Revoked, revokedAt := Some(now))]);
  }

  lemma IssuingKeepsInv(s: Registry, k: string, c: Credential)
    requires Inv(s) && k !in s.credentials && CredentialChecks(c) && c.consumedRuntimeId == ""
    ensures Inv(s.(credentials := s.credentials[k := c]))
  {
    SpendingKeepsInv(s, s.credentials[k := c]);
  }

  lemma SpendingKeepsInv(s: Registry, creds': map<string, Credential>)
    requires Inv(s) && SpendingKept(s.credentials, creds') && CredentialsSound(creds')
    ensures Inv(s.(credentials := creds'))
  {
  }

  lemma CredentialStepKeepsSpending(s: Registry, step: Step)
    requires CredentialsSound(s.credentials) && (step.Issue? || step.RevokeStep? || step.TouchCredentialStep?)
    ensures Next(s, step) == s.(credentials := Next(s, step).credentials)
    ensures SpendingKept(s.credentials, Next(s, step).credentials)
    ensures CredentialsSound(Next(s, step).credentials)
  {
    assert step.keyId in s.credentials ==> CredentialChecks(s.credentials[step.keyId]);
  }

  lemma CredentialStepKeepsInv(s: Registry, step: Step)
    requires Inv(s) && (step.Issue? || step.RevokeStep? || step.TouchCredentialStep?)
    ensures Inv(Next(s, step))
    ensures Next(s, step).runtimes == s.runtimes
  {
    CredentialStepKeepsSpending(s, step);
    SpendingKeepsInv(s, Next(s, step).credentials);
  }

  // ---- Admission ----------------------------------------------------------------------

  /** A credential that can still be consumed is on no row, live or terminal. */
  lemma UnspentKeyIsNew(s: Registry, key: string)
    requires Inv(s) && key != "" && key in s.credentials && s.credentials[key].consumedRuntimeId == ""
    ensures forall id :: id in s.runtimes ==> KeyOf(s.runtimes[id]) != key
  {
    forall id | id in s.runtimes ensures KeyOf(s.runtimes[id]) != key {
      if KeyOf(s.runtimes[id]) == key {
        assert SpentOn(s.credentials[key], s.runtimes[id]);
        BlankIdHasNoKey(s, id);
      }
    }
  }

  /** A row admitted with a credential has a non-empty id. */
  lemma BlankIdHasNoKey(s: Registry, id: string)
    requires Inv(s) && id in s.runtimes && KeyOf(s.runtimes[id]) != ""
    ensures id != ""
  {
    var c := s.credentials[KeyOf(s.runtimes[id])];
    assert CredentialChecks(c) && SpentOn(c, s.runtimes[id]);
  }

  /** Writing a row that clashes with none, over nothing or over a row of the same identity. */
  lemma UpsertKeepsRows(rows: map<string, Runtime>, rt: Runtime)
    requires RowsSound(rows) && NamesUnique(rows) && DebuggersUnique(rows) && LiveKeysUnique(rows)
    requires rt.userId > 0 && (rt.source == Bare ==> rt.credentialKeyId == "")
    requires Upsert(rows, rt).Ok?
    ensures RowsSound(Upsert(rows, rt).value)
    ensures NamesUnique(Upsert(rows, rt).value)
    ensures DebuggersUnique(Upsert(rows, rt).value)
    ensures LiveKeysUnique(Upsert(rows, rt).value)
  {
    WrittenRow(rows, rt);
    PutKeepsNames(rows, Upsert(rows, rt).value[rt.runtimeId]);
    PutKeepsDebuggers(rows, Upsert(rows, rt).value[rt.runtimeId]);
    PutKeepsKeys(rows, Upsert(rows, rt).value[rt.runtimeId]);
  }

  lemma PutKeepsNames(rows: map<string, Runtime>, r: Runtime)
    requires NamesUnique(rows) && !NameTaken(rows, r)
    ensures NamesUnique(rows[r.runtimeId := r])
  {
  }

  lemma PutKeepsDebuggers(rows: map<string, Runtime>, r: Runtime)
    requires DebuggersUnique(rows) && !(LiveDebugger(r) && DebuggerTaken(rows, r))
    ensures DebuggersUnique(rows[r.runtimeId := r])
  {
  }

  lemma PutKeepsKeys(rows: map<string, Runtime>, r: Runtime)
    requires LiveKeysUnique(rows) && !(Live(r) && r.credentialKeyId != "" && KeyTaken(rows, r))
    ensures LiveKeysUnique(rows[r.runtimeId := r])
  {
  }

  /** What an upsert leaves in the table: the row as presented, and no other row touched. */
  lemma WrittenRow(rows: map<string, Runtime>, rt: Runtime)
    requires RowsSound(rows) && Upsert(rows, rt).Ok?
    ensures var rows' := Upsert(rows, rt).value;
            && rt.runtimeId in rows'
            && rows' == rows[rt.runtimeId := rows'[rt.runtimeId]]
            && RowChecks(rows'[rt.runtimeId])
            && rows'[rt.runtimeId] == rt.(
                 ownerInstanceId := rows'[rt.runtimeId].ownerInstanceId,
                 ownerAcquiredAt := rows'[rt.runtimeId].ownerAcquiredAt,
                 ownerHeartbeatAt := rows'[rt.runtimeId].ownerHeartbeatAt,
                 createdAt := rows'[rt.runtimeId].createdAt)
            && !ViolatesUnique(rows, rt)
  {
  }

  /** An admission without a credential key only ever overwrites a row without one. */
  lemma KeylessKeepsSpending(s: Registry, rt: Runtime)
    requires Inv(s) && KeyOf(rt) == "" && Upsert(s.runtimes, rt).Ok?
    requires rt.source == Bare ==> rt.credentialKeyId == ""
    ensures KeysSpent(s.(runtimes := Upsert(s.runtimes, rt).value))
    ensures SpentHaveRows(s.(runtimes := Upsert(s.runtimes, rt).value))
  {
    WrittenRow(s.runtimes, rt);
    if rt.runtimeId in s.runtimes {
      assert KeyOf(s.runtimes[rt.runtimeId]) == "";
    }
  }

  /**
   * A credential's first use always writes a new row: nothing in the table can carry its key, and
   * overwriting needs the same key.
   */
  lemma FirstUseInserts(s: Registry, rt: Runtime, at: int)
    requires Inv(s) && KeyOf(rt) != "" && rt.source != Bare
    requires Consume(s.credentials, rt, at).Ok? && Upsert(s.runtimes, rt).Ok?
    ensures rt.runtimeId !in s.runtimes
  {
    var key := KeyOf(rt);
    assert CredentialChecks(s.credentials[key]);
    UnspentKeyIsNew(s, key);
    OverwritingKeepsKey(s.runtimes, rt);
  }

  lemma OverwritingKeepsKey(rows: map<string, Runtime>, rt: Runtime)
    requires Upsert(rows, rt).Ok? && rt.source != Bare
    ensures rt.runtimeId in rows ==> KeyOf(rows[rt.runtimeId]) == KeyOf(rt)
  {
  }

  lemma ConsumingKeepsSpending(s: Registry, rt: Runtime, at: int)
    requires Inv(s) && KeyOf(rt) != "" && rt.source != Bare
    requires Consume(s.credentials, rt, at).Ok? && Upsert(s.runtimes, rt).Ok?
    ensures var s' := Registry(Upsert(s.runtimes, rt).value, Consume(s.credentials, rt, at).value);
            KeysSpent(s') && SpentHaveRows(s') && CredentialsSound(s'.credentials)
  {
    var key := KeyOf(rt);
    var s' := Registry(Upsert(s.runtimes, rt).value, Consume(s.credentials, rt, at).value);
    FirstUseInserts(s, rt, at);
    WrittenRow(s.runtimes, rt);
    assert CredentialChecks(s.credentials[key]);
    UnspentKeyIsNew(s, key);
    forall id | id in s'.runtimes && KeyOf(s'.runtimes[id]) != ""
      ensures KeyOf(s'.runtimes[id]) in s'.credentials
      ensures SpentOn(s'.credentials[KeyOf(s'.runtimes[id])], s'.runtimes[id])
    {
      if id != rt.runtimeId {
        assert s'.runtimes[id] == s.runtimes[id];
        assert KeyOf(s.runtimes[id]) != key;
      }
    }
    forall k | k in s'.credentials && s'.credentials[k].consumedRuntimeId != ""
      ensures s'.credentials[k].consumedRuntimeId in s'.runtimes
      ensures KeyOf(s'.runtimes[s'.credentials[k].consumedRuntimeId]) == k
    {
      if k != key {
        assert s'.credentials[k] == s.credentials[k];
      }
    }
  }

  lemma ConsumeAndUpsertKeepsInv(s: Registry, rt: Runtime, now: int)
    requires Inv(s) && rt.userId > 0 && rt.source != Bare && ConsumeAndUpsert(s, rt, now).Ok?
    ensures Inv(ConsumeAndUpsert(s, rt, now).value)
  {
    UpsertKeepsRows(s.runtimes, rt);
    if KeyOf(rt) == "" {
      KeylessKeepsSpending(s, rt);
    } else {
      ConsumingKeepsSpending(s, rt, ConsumeTime(rt, now));
    }
  }

  lemma AdmissionKeepsInv(s: Registry, step: Step)
    requires Inv(s) && (step.AdmitHostedStep? || step.AdmitSelfHostedStep? || step.AdmitBareStep?)
    ensures Inv(Next(s, step))
  {
    if Apply(s, step).Ok? {
      var rt := Normalize(step.rt, step.now);
      if step.AdmitBareStep? {
        UpsertKeepsRows(s.runtimes, rt.(credentialKeyId := ""));
        KeylessKeepsSpending(s, rt.(credentialKeyId := ""));
      } else {
        ConsumeAndUpsertKeepsInv(s, rt, step.now);
      }
    }
  }

  // ---- Every run ----------------------------------------------------------------------

  /** Every step, whatever it is asked and whether it succeeds, keeps the invariant. */
  lemma StepKeepsInv(s: Registry, step: Step)
    requires Inv(s)
    ensures Inv(Next(s, step))
  {
    if IsRowUpdate(step) {
      RowUpdateKeepsIdentities(s, step);
      IdentitiesKeepInv(s, Next(s, step).runtimes);
      assert Next(s, step) == s.(runtimes := Next(s, step).runtimes);
    } else if step.Issue? || step.RevokeStep? || step.TouchCredentialStep? {
      CredentialStepKeepsInv(s, step);
    } else {
      AdmissionKeepsInv(s, step);
    }
  }

  lemma {:induction false} RunKeepsInv(s: Registry, steps: seq<Step>)
    requires Inv(s)
    ensures Inv(Run(s, steps))
    ensures NamesUnique(Run(s, steps).runtimes) && DebuggersUnique(Run(s, steps).runtimes)
    decreases |steps|
  {
    if steps != [] {
      StepKeepsInv(s, steps[0]);
      RunKeepsInv(Next(s, steps[0]), steps[1..]);
    }
  }
}
