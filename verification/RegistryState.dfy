/** The runtime registry and the runtime credentials, and one function per repository method. */
module RegistryState {
  import opened Wrappers
  import opened Text
  import Calendar

  datatype Source = Hosted | SelfHosted | Bare
  datatype Role = NoRole | Executor | Debugger
  datatype RuntimeStatus = Starting | Paired | Active | Unhealthy | HeartbeatStale | Ended | Cancelled | Failed
  datatype EndedReason =
    | NoReason | UserCancelled | RuntimeExited | StaleHeartbeat | ProvisionFailed | AuthFailed | ControlPanelShutdown
  datatype CredentialStatus = Issued | Downloaded | Consumed | Revoked | Expired

  datatype Runtime = Runtime(
    runtimeId: string,
    credentialKeyId: string,
    userId: int,
    name: string,
    source: Source,
    role: Role,
    status: RuntimeStatus,
    pairedAt: Option<int>,
    startedAt: Option<int>,
    endedAt: Option<int>,
    endedReason: EndedReason,
    heartbeatAt: Option<int>,
    ownerInstanceId: string,
    ownerAcquiredAt: Option<int>,
    ownerHeartbeatAt: Option<int>,
    createdAt: int,
    updatedAt: int)

  datatype Credential = Credential(
    userId: int,
    role: Role,
    status: CredentialStatus,
    downloadedAt: Option<int>,
    consumedAt: Option<int>,
    consumedRuntimeId: string,
    expiresAt: Option<int>,
    lastUsedAt: Option<int>,
    revokedAt: Option<int>,
    hostedInternal: bool)

  datatype Registry = Registry(runtimes: map<string, Runtime>, credentials: map<string, Credential>)

  datatype RegistryError = NotFound | Conflict | Invalid | ConstraintViolation

  type Outcome = Result<Registry, RegistryError>

  const ZERO_TIME := Calendar.YearStart(1)

  // ---- Lifecycle ----------------------------------------------------------------------

  predicate IsTerminal(status: RuntimeStatus) {
    status in {HeartbeatStale, Ended, Cancelled, Failed}
  }

  predicate Live(r: Runtime) {
    !IsTerminal(r.status)
  }

  function TerminalStatusForReason(reason: EndedReason): RuntimeStatus {
    match reason
    case UserCancelled => Cancelled
    case StaleHeartbeat => HeartbeatStale
    case AuthFailed => Failed
    case ProvisionFailed => Failed
    case _ => Ended
  }

  // ---- Constraints of the tables ------------------------------------------------------

  predicate IsAlnum(c: char) {
    'a' <= c <= 'z' || 'A' <= c <= 'Z' || '0' <= c <= '9'
  }

  predicate NameChecks(name: string) {
    && 1 <= |name| <= 64
    && IsAlnum(name[0])
    && forall i :: 0 < i < |name| ==> IsAlnum(name[i]) || name[i] in {'.', '_', '-'}
  }

  /** The CHECK constraints of `runtime_registry`. */
  predicate RowChecks(r: Runtime) {
    && NameChecks(r.name)
    && r.role != NoRole
    && (if IsTerminal(r.status) then r.endedAt.Some? && r.endedReason != NoReason
        else r.endedAt.None? && r.endedReason == NoReason && (r.status == Active ==> r.startedAt.Some?))
    && (r.ownerInstanceId == "" <==> r.ownerAcquiredAt.None?)
    && (r.ownerInstanceId == "" <==> r.ownerHeartbeatAt.None?)
  }

  /** The CHECK constraint of `runtime_credentials`. */
  predicate CredentialChecks(c: Credential) {
    && (c.consumedAt.None? <==> c.consumedRuntimeId == "")
    && match c.status
       case Issued => c.downloadedAt.None? && c.consumedAt.None?
       case Downloaded => c.downloadedAt.Some? && c.consumedAt.None?
       case Consumed => c.consumedAt.Some?
       case Revoked => c.revokedAt.Some?
       case Expired => c.expiresAt.Some? && c.consumedAt.None?
  }

  /** Another row of the user already has this name, in whatever source or status. */
  predicate NameTaken(runtimes: map<string, Runtime>, r: Runtime) {
    exists id :: id in runtimes && id != r.runtimeId && runtimes[id].userId == r.userId && runtimes[id].name == r.name
  }

  /** Another live row of the user is a debugger. */
  predicate DebuggerTaken(runtimes: map<string, Runtime>, r: Runtime) {
    exists id :: id in runtimes && id != r.runtimeId && runtimes[id].userId == r.userId
                 && runtimes[id].role == Debugger && Live(runtimes[id])
  }

  /** Another live row carries this credential key. */
  predicate KeyTaken(runtimes: map<string, Runtime>, r: Runtime) {
    exists id :: id in runtimes && id != r.runtimeId
                 && runtimes[id].credentialKeyId == r.credentialKeyId && Live(runtimes[id])
  }

  /** The three unique indexes of `runtime_registry` have no room for the row. */
  predicate ViolatesUnique(runtimes: map<string, Runtime>, r: Runtime) {
    || NameTaken(runtimes, r)
    || (Live(r) && r.role == Debugger && DebuggerTaken(runtimes, r))
    || (Live(r) && r.credentialKeyId != "" && KeyTaken(runtimes, r))
  }

  /** A method that fails rolls back: the tables are as they were. */
  function Settled(s: Registry, outcome: Outcome): Registry {
    match outcome
    case Ok(s') => s'
    case Err(_) => s
  }

  // ---- Admission ----------------------------------------------------------------------

  /** The first time worth recording as the start of an active runtime. */
  function FirstTime(rt: Runtime, now: int): int {
    if rt.heartbeatAt.Some? && rt.heartbeatAt.value != ZERO_TIME then rt.heartbeatAt.value
    else if rt.pairedAt.Some? && rt.pairedAt.value != ZERO_TIME then rt.pairedAt.value
    else if rt.updatedAt != ZERO_TIME then rt.updatedAt
    else if rt.createdAt != ZERO_TIME then rt.createdAt
    else now
  }

  /** `normalizeRuntimeForWrite`. */
  function Normalize(rt: Runtime, now: int): Runtime {
    var rt := if rt.role == NoRole then rt.(role := Executor) else rt;
    if rt.status != Active || rt.startedAt.Some? then rt
    else rt.(startedAt := Some(FirstTime(rt, now)))
  }

  /** A new row: connection-owner columns start empty. */
  function Inserted(rt: Runtime): Runtime {
    rt.(ownerInstanceId := "", ownerAcquiredAt := None, ownerHeartbeatAt := None)
  }

  /** An existing row overwritten: creation time and connection owner are kept. */
  function Overwritten(existing: Runtime, rt: Runtime): Runtime {
    rt.(ownerInstanceId := existing.ownerInstanceId,
        ownerAcquiredAt := existing.ownerAcquiredAt,
        ownerHeartbeatAt := existing.ownerHeartbeatAt,
        createdAt := existing.createdAt)
  }

  /** Which existing rows an admission may overwrite. */
  predicate MayOverwrite(existing: Runtime, rt: Runtime) {
    && existing.userId == rt.userId
    && existing.source == rt.source
    && (rt.source == Bare || (existing.credentialKeyId == rt.credentialKeyId && Live(existing)))
  }

  /** INSERT ... ON CONFLICT (runtime_id) DO UPDATE ... WHERE. */
  function Upsert(runtimes: map<string, Runtime>, rt: Runtime): Result<map<string, Runtime>, RegistryError> {
    if !RowChecks(Inserted(rt)) then Err(ConstraintViolation)
    else if rt.runtimeId in runtimes then
      if !MayOverwrite(runtimes[rt.runtimeId], rt) then Err(Conflict)
      else if ViolatesUnique(runtimes, rt) then Err(Conflict)
      else Ok(runtimes[rt.runtimeId := Overwritten(runtimes[rt.runtimeId], rt)])
    else if ViolatesUnique(runtimes, rt) then Err(Conflict)
    else Ok(runtimes[rt.runtimeId := Inserted(rt)])
  }

  function CredentialSource(c: Credential): Source {
    if c.hostedInternal then Hosted else SelfHosted
  }

  /** The credential `rt` presents, once trimmed, is its own and still unused at `at`. */
  predicate Usable(c: Credential, rt: Runtime, at: int) {
    && c.userId == rt.userId
    && c.role == rt.role
    && CredentialSource(c) == rt.source
    && !(c.expiresAt.Some? && c.expiresAt.value <= at)
    && c.status in {Issued, Downloaded}
  }

  /** Some other credential was already consumed by this runtime. */
  predicate ConsumedElsewhere(credentials: map<string, Credential>, key: string, runtimeId: string) {
    exists k :: k in credentials && k != key && credentials[k].consumedRuntimeId == runtimeId
  }

  /**
   * `consumeRuntimeCredentialForRuntimeTx`. The `expired` mark it writes before refusing an
   * expired credential is undone by every caller's rollback, so refusing changes nothing.
   */
  function Consume(credentials: map<string, Credential>, rt: Runtime, at: int)
    : Result<map<string, Credential>, RegistryError>
  {
    var key := TrimSpace(rt.credentialKeyId);
    if key == "" then Ok(credentials)
    else if key !in credentials then Err(Conflict)
    else
      var c := credentials[key];
      if c.userId != rt.userId || c.role != rt.role || CredentialSource(c) != rt.source then Err(Conflict)
      else if c.expiresAt.Some? && c.expiresAt.value <= at && c.status in {Issued, Downloaded} then Err(Conflict)
      else if c.status !in {Issued, Downloaded} then Err(Conflict)
      else if rt.runtimeId == "" || ConsumedElsewhere(credentials, key, rt.runtimeId) then Err(ConstraintViolation)
      else Ok(credentials[key := c.(status := Consumed, consumedAt := Some(at), consumedRuntimeId := rt.runtimeId,
                                    lastUsedAt := Some(at))])
  }

  function ConsumeTime(rt: Runtime, now: int): int {
    if rt.updatedAt == ZERO_TIME then now else rt.updatedAt
  }

  /** Consume the credential and write the row, both or neither. */
  function ConsumeAndUpsert(s: Registry, rt: Runtime, now: int): Outcome {
    match Consume(s.credentials, rt, ConsumeTime(rt, now))
    case Err(e) => Err(e)
    case Ok(credentials) =>
      match Upsert(s.runtimes, rt)
      case Err(e) => Err(e)
      case Ok(runtimes) => Ok(Registry(runtimes, credentials))
  }

  function AdmitHosted(s: Registry, rt: Runtime, now: int): Outcome {
    if rt.source != Hosted || rt.userId <= 0 then Err(Invalid)
    else
      var rt := Normalize(rt, now);
      if NameTaken(s.runtimes, rt) then Err(Conflict) else ConsumeAndUpsert(s, rt, now)
  }

  function AdmitSelfHosted(s: Registry, rt: Runtime, now: int): Outcome {
    if rt.source != SelfHosted || rt.userId <= 0 || TrimSpace(rt.credentialKeyId) == "" then Err(Invalid)
    else
      var rt := Normalize(rt, now);
      if KeyTaken(s.runtimes, rt) then Err(Conflict)
      else if rt.role == Debugger && DebuggerTaken(s.runtimes, rt) then Err(Conflict)
      else if NameTaken(s.runtimes, rt) then Err(Conflict)
      else ConsumeAndUpsert(s, rt, now)
  }

  function AdmitBare(s: Registry, rt: Runtime, now: int): Outcome {
    if rt.source != Bare || rt.userId <= 0 || TrimSpace(rt.credentialKeyId) != "" then Err(Invalid)
    else
      var rt := Normalize(rt, now).(credentialKeyId := "");
      if NameTaken(s.runtimes, rt) then Err(Conflict)
      else
        match Upsert(s.runtimes, rt)
        case Err(e) => Err(e)
        case Ok(runtimes) => Ok(s.(runtimes := runtimes))
  }

  // ---- Credentials --------------------------------------------------------------------

  /** Only these columns are inserted: a credential is created unconsumed, unrevoked and without expiry. */
  function Fresh(c: Credential): Credential {
    c.(consumedAt := None, consumedRuntimeId := "", expiresAt := None, lastUsedAt := None, revokedAt := None)
  }

  function CreateCredential(s: Registry, keyId: string, c: Credential): Outcome {
    if c.role == NoRole || !CredentialChecks(Fresh(c)) then Err(ConstraintViolation)
    else if keyId in s.credentials then Err(Conflict)
    else Ok(s.(credentials := s.credentials[keyId := Fresh(c)]))
  }

  function RevokeCredential(s: Registry, keyId: string, userId: int, now: int): Outcome {
    if keyId !in s.credentials then Err(NotFound)
    else if s.credentials[keyId].userId != userId then Err(Conflict)
    else if s.credentials[keyId].status == Revoked then Ok(s)
    else
      Ok(s.(credentials := s.credentials[keyId := s.credentials[keyId].(status := Revoked, revokedAt := Some(now))]))
  }

  function TouchCredential(s: Registry, keyId: string, at: int): Outcome {
    if keyId !in s.credentials then Ok(s)
    else Ok(s.(credentials := s.credentials[keyId := s.credentials[keyId].(lastUsedAt := Some(at))]))
  }

  // ---- Row updates --------------------------------------------------------------------

  function BeatenRow(r: Runtime, at: int, now: int): Runtime {
    r.(heartbeatAt := Some(at),
       status := if r.status in {Starting, Paired, Unhealthy} then Active else r.status,
       startedAt := if r.startedAt.Some? then r.startedAt else Some(at),
       updatedAt := now)
  }

  function Heartbeat(s: Registry, id: string, at: int, now: int): Outcome {
    if id !in s.runtimes || !Live(s.runtimes[id]) then Err(NotFound)
    else Ok(s.(runtimes := s.runtimes[id := BeatenRow(s.runtimes[id], at, now)]))
  }

  function OwnedRow(r: Runtime, instanceId: string, at: int, now: int): Runtime {
    r.(ownerAcquiredAt :=
         if r.ownerInstanceId == instanceId && r.ownerAcquiredAt.Some? then r.ownerAcquiredAt else Some(at),
       ownerInstanceId := instanceId,
       ownerHeartbeatAt := Some(at),
       updatedAt := now)
  }

  function RecordOwner(s: Registry, id: string, instanceId: string, at: int, now: int): Outcome {
    if TrimSpace(id) == "" || TrimSpace(instanceId) == "" then Err(Conflict)
    else if id !in s.runtimes || !Live(s.runtimes[id]) then Err(NotFound)
    else Ok(s.(runtimes := s.runtimes[id := OwnedRow(s.runtimes[id], instanceId, at, now)]))
  }

  function ClearOwner(s: Registry, id: string, instanceId: string, now: int): Outcome {
    if TrimSpace(id) == "" || TrimSpace(instanceId) == "" then Err(Conflict)
    else if id !in s.runtimes || s.runtimes[id].ownerInstanceId != instanceId then Ok(s)
    else
      Ok(s.(runtimes := s.runtimes[id := s.runtimes[id].(
        ownerInstanceId := "", ownerAcquiredAt := None, ownerHeartbeatAt := None, updatedAt := now)]))
  }

  function EndedRow(r: Runtime, reason: EndedReason, endedAt: int, now: int): Runtime {
    r.(status := TerminalStatusForReason(reason), endedAt := Some(endedAt), endedReason := reason, updatedAt := now)
  }

  /** Ending a row that is already terminal returns it as it is. */
  function EndRuntime(s: Registry, id: string, reason: EndedReason, endedAt: int, now: int): Outcome {
    if id !in s.runtimes then Err(NotFound)
    else if !Live(s.runtimes[id]) then Ok(s)
    else if reason == NoReason then Err(ConstraintViolation)
    else Ok(s.(runtimes := s.runtimes[id := EndedRow(s.runtimes[id], reason, endedAt, now)]))
  }

  /** The live rows stored under the key. */
  function LiveUnder(rows: map<string, Runtime>, keyId: string): set<string> {
    set id | id in rows && keyId != "" && rows[id].credentialKeyId == keyId && Live(rows[id])
  }

  function EndByKey(s: Registry, keyId: string, reason: EndedReason, endedAt: int, now: int): Outcome {
    if LiveUnder(s.runtimes, keyId) != {} && reason == NoReason then Err(ConstraintViolation)
    else
      Ok(s.(runtimes := map id | id in s.runtimes ::
        if id in LiveUnder(s.runtimes, keyId) then EndedRow(s.runtimes[id], reason, endedAt, now) else s.runtimes[id]))
  }

  // ---- The watchdog's updates ---------------------------------------------------------

  /** COALESCE(heartbeat_at, updated_at, created_at), where `updated_at` is never null. */
  function LastSeen(r: Runtime): int {
    if r.heartbeatAt.Some? then r.heartbeatAt.value else r.updatedAt
  }

  predicate GoesStale(r: Runtime, cutoff: int) {
    r.status in {Active, Starting, Paired} && LastSeen(r) < cutoff
  }

  function MarkStale(s: Registry, cutoff: int, now: int): Outcome {
    Ok(s.(runtimes := map id | id in s.runtimes ::
      if GoesStale(s.runtimes[id], cutoff) then s.runtimes[id].(status := Unhealthy, updatedAt := now)
      else s.runtimes[id]))
  }

  predicate GoesDead(r: Runtime, defaultCutoff: int, bareCutoff: int) {
    r.status == Unhealthy && LastSeen(r) < (if r.source == Bare then bareCutoff else defaultCutoff)
  }

  predicate AnyDead(s: Registry, defaultCutoff: int, bareCutoff: int) {
    exists id :: id in s.runtimes && GoesDead(s.runtimes[id], defaultCutoff, bareCutoff)
  }

  function EndDead(
    s: Registry, defaultCutoff: int, bareCutoff: int, reason: EndedReason, endedAt: int, now: int): Outcome
  {
    if AnyDead(s, defaultCutoff, bareCutoff) && reason == NoReason then Err(ConstraintViolation)
    else
      Ok(s.(runtimes := map id | id in s.runtimes ::
        if GoesDead(s.runtimes[id], defaultCutoff, bareCutoff)
        then EndedRow(s.runtimes[id], reason, endedAt, now) else s.runtimes[id]))
  }

  /** Bookkeeping that leaves every modelled column but `updated_at` alone. */
  function TouchRow(s: Registry, id: string, now: int): Outcome {
    if id !in s.runtimes then Err(NotFound)
    else Ok(s.(runtimes := s.runtimes[id := s.runtimes[id].(updatedAt := now)]))
  }

  // ---- Runs ---------------------------------------------------------------------------

  datatype Step =
    | Issue(keyId: string, credential: Credential)
    | AdmitHostedStep(rt: Runtime, now: int)
    | AdmitSelfHostedStep(rt: Runtime, now: int)
    | AdmitBareStep(rt: Runtime, now: int)
    | HeartbeatStep(id: string, at: int, now: int)
    | RecordOwnerStep(id: string, instanceId: string, at: int, now: int)
    | ClearOwnerStep(id: string, instanceId: string, now: int)
    | EndStep(id: string, reason: EndedReason, endedAt: int, now: int)
    | EndByKeyStep(keyId: string, reason: EndedReason, endedAt: int, now: int)
    | MarkStaleStep(cutoff: int, now: int)
    | EndDeadStep(defaultCutoff: int, bareCutoff: int, reason: EndedReason, endedAt: int, now: int)
    | RevokeStep(keyId: string, userId: int, now: int)
    | TouchCredentialStep(keyId: string, at: int)
    | TouchRowStep(id: string, now: int)

  function Apply(s: Registry, step: Step): Outcome {
    match step
    case Issue(keyId, credential) => CreateCredential(s, keyId, credential)
    case AdmitHostedStep(rt, now) => AdmitHosted(s, rt, now)
    case AdmitSelfHostedStep(rt, now) => AdmitSelfHosted(s, rt, now)
    case AdmitBareStep(rt, now) => AdmitBare(s, rt, now)
    case HeartbeatStep(id, at, now) => Heartbeat(s, id, at, now)
    case RecordOwnerStep(id, instanceId, at, now) => RecordOwner(s, id, instanceId, at, now)
    case ClearOwnerStep(id, instanceId, now) => ClearOwner(s, id, instanceId, now)
    case EndStep(id, reason, endedAt, now) => EndRuntime(s, id, reason, endedAt, now)
    case EndByKeyStep(keyId, reason, endedAt, now) => EndByKey(s, keyId, reason, endedAt, now)
    case MarkStaleStep(cutoff, now) => MarkStale(s, cutoff, now)
    case EndDeadStep(d, b, reason, endedAt, now) => EndDead(s, d, b, reason, endedAt, now)
    case RevokeStep(keyId, userId, now) => RevokeCredential(s, keyId, userId, now)
    case TouchCredentialStep(keyId, at) => TouchCredential(s, keyId, at)
    case TouchRowStep(id, now) => TouchRow(s, id, now)
  }

  function Next(s: Registry, step: Step): Registry {
    Settled(s, Apply(s, step))
  }

  function Run(s: Registry, steps: seq<Step>): Registry
    decreases |steps|
  {
    if steps == [] then s else Run(Next(s, steps[0]), steps[1..])
  }
}
