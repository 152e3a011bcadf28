/** Exactly when each admission succeeds, and what it writes. */
module AdmissionLaws {
  import opened Wrappers
  import opened RegistryState
  import opened RegistryInvariant

  predicate IsAdmission(step: Step) {
    step.AdmitHostedStep? || step.AdmitSelfHostedStep? || step.AdmitBareStep?
  }

  /** What an admission presents to the table. */
  function Presented(step: Step): Runtime
    requires IsAdmission(step)
  {
    var rt := Normalize(step.rt, step.now);
    if step.AdmitBareStep? then rt.(credentialKeyId := "") else rt
  }

  /** A successful admission touches one row, and leaves it as presented. */
  lemma AdmissionWrites(s: Registry, step: Step)
    requires Inv(s) && IsAdmission(step) && Apply(s, step).Ok?
    ensures var rt := Presented(step);
            && Upsert(s.runtimes, rt).Ok?
            && Next(s, step).runtimes == Upsert(s.runtimes, rt).value
            && rt.userId > 0 && (rt.source == Bare <==> step.AdmitBareStep?)
  {
  }

  // ---- What a success writes ------------------------------------------------------------

  /** The start recorded for a row presented active without one: the first of these times there is. */
  predicate StartsAt(rt: Runtime, now: int, start: int) {
    if rt.heartbeatAt.Some? && rt.heartbeatAt != Some(ZERO_TIME) then rt.heartbeatAt == Some(start)
    else if rt.pairedAt.Some? && rt.pairedAt != Some(ZERO_TIME) then rt.pairedAt == Some(start)
    else start == if rt.updatedAt != ZERO_TIME then rt.updatedAt
                  else if rt.createdAt != ZERO_TIME then rt.createdAt
                  else now
  }

  /** `r` is `rt` as stored: a role and, if active, a start are filled in, and a bare row has no key. */
  predicate StoredAs(rt: Runtime, now: int, r: Runtime) {
    && r.runtimeId == rt.runtimeId && r.userId == rt.userId && r.name == rt.name && r.source == rt.source
    && r.credentialKeyId == (if rt.source == Bare then "" else rt.credentialKeyId)
    && r.role == (if rt.role == NoRole then Executor else rt.role)
    && r.status == rt.status && r.endedAt == rt.endedAt && r.endedReason == rt.endedReason
    && r.pairedAt == rt.pairedAt && r.heartbeatAt == rt.heartbeatAt && r.updatedAt == rt.updatedAt
    && (if rt.status == Active && rt.startedAt.None? then r.startedAt.Some? && StartsAt(rt, now, r.startedAt.value)
        else r.startedAt == rt.startedAt)
  }

  /** What an admission does not decide: creation time and connection owner stay, or start empty. */
  predicate Inherits(rows: map<string, Runtime>, rt: Runtime, r: Runtime) {
    if rt.runtimeId in rows then
      var existing := rows[rt.runtimeId];
      && r.createdAt == existing.createdAt && r.ownerInstanceId == existing.ownerInstanceId
      && r.ownerAcquiredAt == existing.ownerAcquiredAt && r.ownerHeartbeatAt == existing.ownerHeartbeatAt
    else
      r.createdAt == rt.createdAt && r.ownerInstanceId == "" && r.ownerAcquiredAt.None? && r.ownerHeartbeatAt.None?
  }

  /** When the credential counts as used. */
  predicate UsedAt(rt: Runtime, now: int, at: int) {
    at == if rt.updatedAt == ZERO_TIME then now else rt.updatedAt
  }

  lemma PresentedRow(step: Step)
    requires IsAdmission(step) && (step.AdmitBareStep? <==> step.rt.source == Bare)
    ensures StoredAs(step.rt, step.now, Presented(step)) && Presented(step).createdAt == step.rt.createdAt
    ensures UsedAt(step.rt, step.now, ConsumeTime(Presented(step), step.now))
  {
  }

  /**
   * A successful admission writes exactly one row, as presented, and spends exactly the credential
   * presented, if any; the two tables are otherwise as they were.
   */
  lemma AdmissionStores(s: Registry, step: Step)
    returns (r: Runtime, at: int)
    requires Inv(s) && IsAdmission(step) && Apply(s, step).Ok?
    ensures StoredAs(step.rt, step.now, r) && Inherits(s.runtimes, step.rt, r)
    ensures Next(s, step).runtimes == s.runtimes[step.rt.runtimeId := r]
    ensures UsedAt(step.rt, step.now, at) && IsSpending(s.credentials, r, at, Next(s, step).credentials)
  {
    var rt := Presented(step);
    AdmissionWrites(s, step);
    PresentedRow(step);
    r, at := Next(s, step).runtimes[rt.runtimeId], ConsumeTime(rt, step.now);
    UpsertStores(s.runtimes, rt);
    if KeyOf(rt) != "" {
      ConsumeSpends(s.credentials, rt, r, at);
    }
  }

  lemma UpsertStores(rows: map<string, Runtime>, rt: Runtime)
    requires Upsert(rows, rt).Ok?
    ensures var rows' := Upsert(rows, rt).value;
            && rt.runtimeId in rows' && rows' == rows[rt.runtimeId := rows'[rt.runtimeId]]
            && Inherits(rows, rt, rows'[rt.runtimeId])
            && rows'[rt.runtimeId] == rt.(
                 ownerInstanceId := rows'[rt.runtimeId].ownerInstanceId,
                 ownerAcquiredAt := rows'[rt.runtimeId].ownerAcquiredAt,
                 ownerHeartbeatAt := rows'[rt.runtimeId].ownerHeartbeatAt,
                 createdAt := rows'[rt.runtimeId].createdAt)
  {
  }

  lemma ConsumeSpends(credentials: map<string, Credential>, rt: Runtime, r: Runtime, at: int)
    requires Consume(credentials, rt, at).Ok? && KeyOf(rt) != ""
    requires r.credentialKeyId == rt.credentialKeyId && r.runtimeId == rt.runtimeId && r.userId == rt.userId
    requires r.role == rt.role && r.source == rt.source
    ensures IsSpending(credentials, r, at, Consume(credentials, rt, at).value)
  {
  }

  // ---- Conditions a caller can check beforehand -----------------------------------------

  predicate IsOver(status: RuntimeStatus) {
    status in {HeartbeatStale, Ended, Cancelled, Failed}
  }

  /** The name matches ^[a-zA-Z0-9][a-zA-Z0-9._-]{0,63}$, and the row has an end exactly if it is over. */
  predicate WellFormed(rt: Runtime) {
    && 1 <= |rt.name| <= 64
    && (forall i :: 0 <= i < |rt.name| ==>
          || 'a' <= rt.name[i] <= 'z' || 'A' <= rt.name[i] <= 'Z' || '0' <= rt.name[i] <= '9'
          || (i > 0 && rt.name[i] in {'.', '_', '-'}))
    && (IsOver(rt.status) <==> rt.endedAt.Some?)
    && (IsOver(rt.status) <==> rt.endedReason != NoReason)
  }

  /** No other row of the user has the name. */
  predicate NameFree(rows: map<string, Runtime>, rt: Runtime) {
    forall id :: id in rows && id != rt.runtimeId && rows[id].userId == rt.userId ==> rows[id].name != rt.name
  }

  /** No other debugger of the user is live. */
  predicate DebuggerFree(rows: map<string, Runtime>, rt: Runtime) {
    forall id :: id in rows && id != rt.runtimeId && rows[id].userId == rt.userId && rows[id].role == Debugger ==>
                   IsOver(rows[id].status)
  }

  /** The row is well formed, and neither its name nor its being a live debugger clashes. */
  predicate Fits(rows: map<string, Runtime>, rt: Runtime) {
    && rt.userId > 0 && WellFormed(rt) && NameFree(rows, rt)
    && (rt.role == Debugger && !IsOver(rt.status) ==> DebuggerFree(rows, rt))
  }

  /** The user's own credential for this role and kind of runtime, neither used nor revoked nor out of date. */
  predicate Unspent(c: Credential, rt: Runtime, now: int) {
    && c.userId == rt.userId
    && c.role == (if rt.role == NoRole then Executor else rt.role)
    && (c.hostedInternal <==> rt.source == Hosted)
    && c.status in {Issued, Downloaded}
    && (c.expiresAt.Some? ==> c.expiresAt.value > if rt.updatedAt == ZERO_TIME then now else rt.updatedAt)
  }

  /** A row that presents a credential: a new runtime, on an unspent credential. */
  predicate FitsWithKey(s: Registry, rt: Runtime, now: int) {
    && Fits(s.runtimes, rt)
    && rt.runtimeId != "" && rt.runtimeId !in s.runtimes
    && KeyOf(rt) in s.credentials && Unspent(s.credentials[KeyOf(rt)], rt, now)
  }

  /** A key of nothing but white space presents no credential, but is stored, and clashes like any other. */
  predicate BlankKeyFree(rows: map<string, Runtime>, rt: Runtime) {
    rt.credentialKeyId != "" && !IsOver(rt.status) ==>
      forall id :: id in rows && id != rt.runtimeId && rows[id].credentialKeyId == rt.credentialKeyId ==>
                     IsOver(rows[id].status)
  }

  /** Hosted, a new runtime or a live one of the same user, source and key; or on an unspent credential. */
  predicate HostedAdmissible(s: Registry, rt: Runtime, now: int) {
    && rt.source == Hosted
    && if KeyOf(rt) != "" then FitsWithKey(s, rt, now)
       else
         && Fits(s.runtimes, rt) && BlankKeyFree(s.runtimes, rt)
         && (rt.runtimeId in s.runtimes ==>
               var existing := s.runtimes[rt.runtimeId];
               && existing.userId == rt.userId && existing.source == Hosted
               && existing.credentialKeyId == rt.credentialKeyId && !IsOver(existing.status))
  }

  /** Self-hosted, on an unspent credential; a debugger needs the user to have no other, even if it is over. */
  predicate SelfHostedAdmissible(s: Registry, rt: Runtime, now: int) {
    && rt.source == SelfHosted && KeyOf(rt) != "" && FitsWithKey(s, rt, now)
    && (rt.role == Debugger ==> DebuggerFree(s.runtimes, rt))
  }

  /** Bare, a new runtime or a bare one of the same user, over or not. */
  predicate BareAdmissible(s: Registry, rt: Runtime) {
    && rt.source == Bare && KeyOf(rt) == "" && Fits(s.runtimes, rt)
    && (rt.runtimeId in s.runtimes ==>
          s.runtimes[rt.runtimeId].userId == rt.userId && s.runtimes[rt.runtimeId].source == Bare)
  }

  /** The admission meets the conditions of its kind. */
  predicate Accepted(s: Registry, step: Step)
    requires IsAdmission(step)
  {
    match step
    case AdmitHostedStep(rt, now) => HostedAdmissible(s, rt, now)
    case AdmitSelfHostedStep(rt, now) => SelfHostedAdmissible(s, rt, now)
    case AdmitBareStep(rt, _) => BareAdmissible(s, rt)
  }

  /** After normalisation the table's checks come down to what the caller can see. */
  lemma ChecksAreWellFormed(rt: Runtime, now: int)
    ensures RowChecks(Inserted(Normalize(rt, now))) <==> WellFormed(rt)
    ensures RowChecks(Inserted(Normalize(rt, now).(credentialKeyId := ""))) <==> WellFormed(rt)
  {
    NamePattern(rt.name);
  }

  lemma NamePattern(name: string)
    ensures NameChecks(name)
            <==>
            && 1 <= |name| <= 64
            && forall i :: 0 <= i < |name| ==>
                 || 'a' <= name[i] <= 'z' || 'A' <= name[i] <= 'Z' || '0' <= name[i] <= '9'
                 || (i > 0 && name[i] in {'.', '_', '-'})
  {
    if NameChecks(name) {
      forall i | 0 <= i < |name|
        ensures || 'a' <= name[i] <= 'z' || 'A' <= name[i] <= 'Z' || '0' <= name[i] <= '9'
                || (i > 0 && name[i] in {'.', '_', '-'})
      {
        assert i > 0 ==> IsAlnum(name[i]) || name[i] in {'.', '_', '-'};
      }
    }
  }

  lemma ClashesAreFree(rows: map<string, Runtime>, rt: Runtime, n: Runtime)
    requires n.runtimeId == rt.runtimeId && n.userId == rt.userId && n.name == rt.name
    ensures !NameTaken(rows, n) <==> NameFree(rows, rt)
    ensures !DebuggerTaken(rows, n) <==> DebuggerFree(rows, rt)
  {
    if NameFree(rows, rt) {
      assert !NameTaken(rows, n);
    }
    if DebuggerFree(rows, rt) {
      assert !DebuggerTaken(rows, n);
    }
  }

  lemma UsableIsUnspent(s: Registry, rt: Runtime)
    requires Inv(s) && KeyOf(rt) != "" && KeyOf(rt) in s.credentials
    requires s.credentials[KeyOf(rt)].status in {Issued, Downloaded}
    ensures s.credentials[KeyOf(rt)].consumedRuntimeId == ""
    ensures !KeyTaken(s.runtimes, rt)
    ensures rt.runtimeId !in s.runtimes && rt.runtimeId != "" ==>
              !ConsumedElsewhere(s.credentials, KeyOf(rt), rt.runtimeId)
  {
    assert CredentialChecks(s.credentials[KeyOf(rt)]);
    UnspentKeyIsNew(s, KeyOf(rt));
    forall id | id in s.runtimes ensures s.runtimes[id].credentialKeyId != rt.credentialKeyId {
      assert KeyOf(s.runtimes[id]) != KeyOf(rt);
    }
  }

  /** The row as normalised passes the table's checks and the two clashes that every admission may meet. */
  predicate Passes(rows: map<string, Runtime>, n: Runtime) {
    && RowChecks(Inserted(n)) && !NameTaken(rows, n) && !(LiveDebugger(n) && DebuggerTaken(rows, n))
  }

  lemma PassesIffFits(rows: map<string, Runtime>, rt: Runtime, now: int)
    ensures rt.userId > 0 && Passes(rows, Normalize(rt, now)) <==> Fits(rows, rt)
    ensures rt.userId > 0 && Passes(rows, Normalize(rt, now).(credentialKeyId := "")) <==> Fits(rows, rt)
  {
    hide NameTaken, DebuggerTaken, RowChecks, WellFormed, NameFree, DebuggerFree;
    ChecksAreWellFormed(rt, now);
    ClashesAreFree(rows, rt, Normalize(rt, now));
    ClashesAreFree(rows, rt, Normalize(rt, now).(credentialKeyId := ""));
  }

  lemma UsableIffUnspent(c: Credential, rt: Runtime, now: int)
    requires rt.source != Bare
    ensures Usable(c, Normalize(rt, now), ConsumeTime(Normalize(rt, now), now)) <==> Unspent(c, rt, now)
  {
  }

  /** With a credential, spending it and writing the row both succeed exactly when the row is new and passes. */
  lemma WithKeyIff(s: Registry, rt: Runtime, now: int)
    requires Inv(s) && rt.source != Bare && rt.userId > 0 && KeyOf(rt) != ""
    ensures ConsumeAndUpsert(s, rt, now).Ok? && !NameTaken(s.runtimes, rt)
            <==>
            && Passes(s.runtimes, rt) && rt.runtimeId != "" && rt.runtimeId !in s.runtimes
            && KeyOf(rt) in s.credentials && Usable(s.credentials[KeyOf(rt)], rt, ConsumeTime(rt, now))
    ensures ConsumeAndUpsert(s, rt, now).Ok? ==> !KeyTaken(s.runtimes, rt)
  {
    if ConsumeAndUpsert(s, rt, now).Ok? {
      FirstUseInserts(s, rt, ConsumeTime(rt, now));
    }
    if KeyOf(rt) in s.credentials && s.credentials[KeyOf(rt)].status in {Issued, Downloaded} {
      UsableIsUnspent(s, rt);
    }
  }

  lemma WithoutKeyIff(rows: map<string, Runtime>, rt: Runtime)
    ensures Upsert(rows, rt).Ok? <==>
            && Passes(rows, rt) && !(Live(rt) && rt.credentialKeyId != "" && KeyTaken(rows, rt))
            && (rt.runtimeId in rows ==> MayOverwrite(rows[rt.runtimeId], rt))
  {
  }

  lemma BlankKeyIff(rows: map<string, Runtime>, rt: Runtime, n: Runtime)
    requires n.credentialKeyId == rt.credentialKeyId && n.runtimeId == rt.runtimeId && n.status == rt.status
    ensures !(Live(n) && n.credentialKeyId != "" && KeyTaken(rows, n)) <==> BlankKeyFree(rows, rt)
  {
    if BlankKeyFree(rows, rt) {
      assert Live(n) && n.credentialKeyId != "" ==> !KeyTaken(rows, n);
    }
  }

  /**
   * A hosted admission succeeds exactly when the row is well formed and clashes with no other, and
   * either presents the user's own unused credential for a new runtime id, or presents none and
   * overwrites nothing but a live hosted row of the same user and key.
   */
  lemma HostedAdmissionIff(s: Registry, rt: Runtime, now: int)
    requires Inv(s)
    ensures AdmitHosted(s, rt, now).Ok? <==> HostedAdmissible(s, rt, now)
  {
    hide Inv, Upsert, Consume, Passes, Fits, Usable, Unspent, BlankKeyFree, KeyTaken, NameTaken;
    var n := Normalize(rt, now);
    PassesIffFits(s.runtimes, rt, now);
    if rt.source == Hosted && rt.userId > 0 {
      if KeyOf(n) == "" {
        KeylessIff(s, n, now);
        BlankKeyIff(s.runtimes, rt, n);
      } else {
        WithKeyIff(s, n, now);
        if KeyOf(rt) in s.credentials {
          UsableIffUnspent(s.credentials[KeyOf(rt)], rt, now);
        }
      }
    }
  }

  lemma KeylessIff(s: Registry, n: Runtime, now: int)
    requires KeyOf(n) == ""
    ensures ConsumeAndUpsert(s, n, now).Ok? && !NameTaken(s.runtimes, n) <==>
            && Passes(s.runtimes, n) && !(Live(n) && n.credentialKeyId != "" && KeyTaken(s.runtimes, n))
            && (n.runtimeId in s.runtimes ==> MayOverwrite(s.runtimes[n.runtimeId], n))
  {
    WithoutKeyIff(s.runtimes, n);
  }

  /** A self-hosted admission always needs a credential, and a new runtime id. */
  lemma SelfHostedAdmissionIff(s: Registry, rt: Runtime, now: int)
    requires Inv(s)
    ensures AdmitSelfHosted(s, rt, now).Ok? <==> SelfHostedAdmissible(s, rt, now)
  {
    hide Inv, ConsumeAndUpsert, Passes, Fits, Usable, Unspent, KeyTaken, NameTaken, DebuggerTaken, DebuggerFree;
    var n := Normalize(rt, now);
    PassesIffFits(s.runtimes, rt, now);
    if rt.source == SelfHosted && rt.userId > 0 && KeyOf(rt) != "" {
      ClashesAreFree(s.runtimes, rt, n);
      WithKeyIff(s, n, now);
      if KeyOf(rt) in s.credentials {
        UsableIffUnspent(s.credentials[KeyOf(rt)], rt, now);
      }
    }
  }

  /** A bare admission takes no credential, and may overwrite the user's own bare row, even an ended one. */
  lemma BareAdmissionIff(s: Registry, rt: Runtime, now: int)
    ensures AdmitBare(s, rt, now).Ok? <==> BareAdmissible(s, rt)
  {
    hide Upsert, Passes, Fits, KeyTaken, NameTaken;
    PassesIffFits(s.runtimes, rt, now);
    if rt.userId > 0 {
      WithoutKeyIff(s.runtimes, Normalize(rt, now).(credentialKeyId := ""));
      PassesName(s.runtimes, Normalize(rt, now).(credentialKeyId := ""));
    }
  }

  lemma PassesName(rows: map<string, Runtime>, n: Runtime)
    ensures Passes(rows, n) ==> !NameTaken(rows, n)
  {
  }

  /** So whether an admission succeeds can always be told beforehand. */
  lemma AdmissionIff(s: Registry, step: Step)
    requires Inv(s) && IsAdmission(step)
    ensures Apply(s, step).Ok? <==> Accepted(s, step)
  {
    match step
    case AdmitHostedStep(rt, now) => HostedAdmissionIff(s, rt, now);
    case AdmitSelfHostedStep(rt, now) => SelfHostedAdmissionIff(s, rt, now);
    case AdmitBareStep(rt, now) => BareAdmissionIff(s, rt, now);
  }

  /** The admission is asked for the wrong kind of row, for no user, or without or with a key against its kind. */
  predicate Misdirected(step: Step)
    requires IsAdmission(step)
  {
    || step.rt.userId <= 0
    || match step
       case AdmitHostedStep(rt, _) => rt.source != Hosted
       case AdmitSelfHostedStep(rt, _) => rt.source != SelfHosted || KeyOf(rt) == ""
       case AdmitBareStep(rt, _) => rt.source != Bare || KeyOf(rt) != ""
  }

  /** The presented key would be recorded as used by no runtime, or by one that used another already. */
  predicate Unrecordable(s: Registry, rt: Runtime) {
    && KeyOf(rt) != ""
    && (rt.runtimeId == ""
        || exists k :: k in s.credentials && k != KeyOf(rt) && s.credentials[k].consumedRuntimeId == rt.runtimeId)
  }

  /** What a refused admission reports; whatever is not named here is a conflict. */
  lemma AdmissionErrors(s: Registry, step: Step)
    requires IsAdmission(step)
    ensures Apply(s, step) == Err(Invalid) <==> Misdirected(step)
    ensures Apply(s, step) == Err(ConstraintViolation) ==> !WellFormed(step.rt) || Unrecordable(s, step.rt)
    ensures step.AdmitBareStep? ==>
              (Apply(s, step) == Err(ConstraintViolation)
               <==> !Misdirected(step) && NameFree(s.runtimes, step.rt) && !WellFormed(step.rt))
    ensures Apply(s, step) != Err(NotFound)
  {
    hide NameTaken, NameFree, RowChecks, WellFormed, DebuggerTaken, DebuggerFree, KeyTaken, MayOverwrite;
    var n := Normalize(step.rt, step.now);
    ChecksAreWellFormed(step.rt, step.now);
    ClashesAreFree(s.runtimes, step.rt, n);
    ClashesAreFree(s.runtimes, step.rt, n.(credentialKeyId := ""));
  }

  // ---- Issuing credentials --------------------------------------------------------------

  /**
   * A credential is issued exactly under a new key, with a role, and as either not downloaded or
   * downloaded; and it is stored unused, unrevoked and without expiry, whatever was presented.
   */
  lemma IssuedIff(s: Registry, keyId: string, c: Credential)
    ensures CreateCredential(s, keyId, c).Ok? <==> keyId !in s.credentials && IsIssuable(c)
    ensures CreateCredential(s, keyId, c) == Err(Conflict) <==> keyId in s.credentials && IsIssuable(c)
    ensures CreateCredential(s, keyId, c).Ok? ==>
              CreateCredential(s, keyId, c).value
              == Registry(s.runtimes, s.credentials[keyId := Credential(
                   userId := c.userId, role := c.role, status := c.status, downloadedAt := c.downloadedAt,
                   consumedAt := None, consumedRuntimeId := "", expiresAt := None, lastUsedAt := None,
                   revokedAt := None, hostedInternal := c.hostedInternal)])
  {
    match c.status
    case Issued =>
    case Downloaded =>
    case Consumed =>
    case Revoked =>
    case Expired =>
  }

  predicate IsIssuable(c: Credential) {
    && c.role != NoRole
    && c.status in {Issued, Downloaded} && (c.status == Downloaded <==> c.downloadedAt.Some?)
  }
}
