/** The repository object over the two tables, and the watchdog service that drives it. */
module RuntimeRepository {
  import opened Wrappers
  import opened Text
  import opened RegistryState
  import opened RegistryInvariant
  import opened AdmissionLaws
  import opened RegistryLaws
  import opened ConnectionLaws
  import opened WatchdogLaws
  import opened Listing
  import opened HostedNames

  datatype Reply<+T> = Done(value: T) | Refused(error: RegistryError)

  class Repository {
    var runtimes: map<string, Runtime>
    var credentials: map<string, Credential>

    function State(): Registry
      reads this
    {
      Registry(runtimes, credentials)
    }

    ghost predicate Valid()
      reads this
    {
      Inv(State())
    }

    constructor ()
      ensures Valid() && State() == EMPTY
    {
      runtimes, credentials := map[], map[];
    }

    /** Replacing a row by one of the same identity keeps the registry valid. */
    lemma KeepRow(id: string, row: Runtime)
      requires Valid() && id in runtimes && SameIdentity(runtimes[id], row)
      requires RowChecks(runtimes[id]) ==> RowChecks(row)
      ensures Inv(State().(runtimes := runtimes[id := row]))
    {
      PointUpdateKeeps(runtimes, id, row);
      IdentitiesKeepInv(State(), runtimes[id := row]);
    }

    /** Locks and consumes the presented credential inside the caller's transaction. */
    method ConsumeRuntimeCredential(rt: Runtime, now: int) returns (r: Reply<map<string, Credential>>)
      ensures var at := if rt.updatedAt == ZERO_TIME then now else rt.updatedAt;
              && (r.Done? <==>
                    || KeyOf(rt) == ""
                    || (&& KeyOf(rt) in credentials
                        && var c := credentials[KeyOf(rt)];
                           && c.userId == rt.userId && c.role == rt.role
                           && rt.source == (if c.hostedInternal then Hosted else SelfHosted)
                           && c.status in {Issued, Downloaded} && (c.expiresAt.Some? ==> c.expiresAt.value > at)
                           && rt.runtimeId != ""
                           && forall k :: k in credentials && k != KeyOf(rt) ==>
                                            credentials[k].consumedRuntimeId != rt.runtimeId))
              && (r.Done? ==> IsSpending(credentials, rt, at, r.value))
      ensures match Consume(credentials, rt, ConsumeTime(rt, now))
              case Ok(c) => r == Done(c)
              case Err(e) => r == Refused(e)
    {
      var keyId := TrimSpace(rt.credentialKeyId);
      if keyId == "" {
        return Done(credentials);
      }
      var at := if rt.updatedAt == ZERO_TIME then now else rt.updatedAt;
      if keyId !in credentials {
        return Refused(Conflict);
      }
      var c := credentials[keyId];
      if c.userId != rt.userId {
        return Refused(Conflict);
      }
      if c.role != rt.role {
        return Refused(Conflict);
      }
      var expectedSource := SelfHosted;
      if c.hostedInternal {
        expectedSource := Hosted;
      }
      if rt.source != expectedSource {
        return Refused(Conflict);
      }
      if c.expiresAt.Some? && c.expiresAt.value <= at && (c.status == Issued || c.status == Downloaded) {
        return Refused(Conflict);
      }
      match c.status {
        case Issued | Downloaded =>
          if rt.runtimeId == "" || ConsumedElsewhere(credentials, keyId, rt.runtimeId) {
            return Refused(ConstraintViolation);
          }
          return Done(credentials[keyId := c.(
            status := Consumed, consumedAt := Some(at), consumedRuntimeId := rt.runtimeId, lastUsedAt := Some(at))]);
        case _ =>
          return Refused(Conflict);
      }
    }

    method CreateOrReplaceHostedRuntime(runtime: Runtime, now: int) returns (r: Reply<()>)
      requires Valid()
      modifies this
      ensures Valid()
      ensures State() == Settled(old(State()), AdmitHosted(old(State()), runtime, now))
      ensures r.Done? <==> HostedAdmissible(old(State()), runtime, now)
      ensures r.Refused? ==> AdmitHosted(old(State()), runtime, now) == Err(r.error)
    {
      StepKeepsInv(State(), AdmitHostedStep(runtime, now));
      HostedAdmissionIff(State(), runtime, now);
      if runtime.source != Hosted || runtime.userId <= 0 {
        return Refused(Invalid);
      }
      var rt := Normalize(runtime, now);
      if NameTaken(runtimes, rt) {
        return Refused(Conflict);
      }
      r := ConsumeAndWrite(rt, now);
    }

    method CreateOrReplaceSelfHostedRuntime(runtime: Runtime, now: int) returns (r: Reply<()>)
      requires Valid()
      modifies this
      ensures Valid()
      ensures State() == Settled(old(State()), AdmitSelfHosted(old(State()), runtime, now))
      ensures r.Done? <==> SelfHostedAdmissible(old(State()), runtime, now)
      ensures r.Refused? ==> AdmitSelfHosted(old(State()), runtime, now) == Err(r.error)
    {
      StepKeepsInv(State(), AdmitSelfHostedStep(runtime, now));
      SelfHostedAdmissionIff(State(), runtime, now);
      if runtime.source != SelfHosted || runtime.userId <= 0 || TrimSpace(runtime.credentialKeyId) == "" {
        return Refused(Invalid);
      }
      var rt := Normalize(runtime, now);
      if KeyTaken(runtimes, rt) {
        return Refused(Conflict);
      }
      if rt.role == Debugger {
        if DebuggerTaken(runtimes, rt) {
          return Refused(Conflict);
        }
      }
      if NameTaken(runtimes, rt) {
        return Refused(Conflict);
      }
      r := ConsumeAndWrite(rt, now);
    }

    /** The common tail of the two credentialed admissions: both tables change, or neither. */
    method ConsumeAndWrite(rt: Runtime, now: int) returns (r: Reply<()>)
      modifies this
      ensures match ConsumeAndUpsert(old(State()), rt, now)
              case Ok(s) => r == Done(()) && State() == s
              case Err(e) => r == Refused(e) && State() == old(State())
    {
      var consumed := ConsumeRuntimeCredential(rt, now);
      if consumed.Refused? {
        return Refused(consumed.error);
      }
      var upserted := Upsert(runtimes, rt);
      if upserted.Err? {
        return Refused(upserted.error);
      }
      credentials := consumed.value;
      runtimes := upserted.value;
      return Done(());
    }

    method CreateOrReplaceBareRuntime(runtime: Runtime, now: int) returns (r: Reply<()>)
      requires Valid()
      modifies this`runtimes
      ensures Valid()
      ensures State() == Settled(old(State()), AdmitBare(old(State()), runtime, now))
      ensures r.Done? <==> BareAdmissible(old(State()), runtime)
      ensures r.Refused? ==> AdmitBare(old(State()), runtime, now) == Err(r.error)
    {
      StepKeepsInv(State(), AdmitBareStep(runtime, now));
      BareAdmissionIff(State(), runtime, now);
      if runtime.source != Bare || runtime.userId <= 0 || TrimSpace(runtime.credentialKeyId) != "" {
        return Refused(Invalid);
      }
      var rt := Normalize(runtime, now);
      if NameTaken(runtimes, rt) {
        return Refused(Conflict);
      }
      var upserted := Upsert(runtimes, rt.(credentialKeyId := ""));
      if upserted.Err? {
        return Refused(upserted.error);
      }
      runtimes := upserted.value;
      return Done(());
    }

    method CreateRuntimeCredential(keyId: string, credential: Credential) returns (r: Reply<()>)
      requires Valid()
      modifies this`credentials
      ensures Valid() && State() == Settled(old(State()), CreateCredential(old(State()), keyId, credential))
      ensures r.Done? <==> keyId !in old(credentials) && IsIssuable(credential)
      ensures r.Refused? ==> CreateCredential(old(State()), keyId, credential) == Err(r.error)
    {
      hide Inv;
      IssuedIff(State(), keyId, credential);
      var row := Fresh(credential);
      if row.role == NoRole || !CredentialChecks(row) {
        return Refused(ConstraintViolation);
      }
      if keyId in credentials {
        return Refused(Conflict);
      }
      IssuingKeepsInv(State(), keyId, row);
      credentials := credentials[keyId := row];
      return Done(());
    }

    method RevokeRuntimeCredential(keyId: string, userId: int, now: int) returns (r: Reply<Credential>)
      requires Valid()
      modifies this`credentials
      ensures Valid() && State() == Settled(old(State()), RevokeCredential(old(State()), keyId, userId, now))
      ensures r.Done? <==> keyId in old(credentials) && old(credentials)[keyId].userId == userId
      ensures r.Done? ==> keyId in credentials && r.value == credentials[keyId] && r.value.status == Revoked
      ensures r.Done? ==>
                var c := old(credentials)[keyId];
                r.value == if c.status == Revoked then c else c.(status := Revoked, revokedAt := Some(now))
      ensures r.Refused? ==> r.error == if keyId in old(credentials) then Conflict else NotFound
    {
      hide Inv;
      if keyId !in credentials {
        return Refused(NotFound);
      }
      var c := credentials[keyId];
      if c.userId != userId {
        return Refused(Conflict);
      }
      if c.status != Revoked {
        RevokingKeepsInv(State(), keyId, now);
        credentials := credentials[keyId := c.(status := Revoked, revokedAt := Some(now))];
      }
      return Done(credentials[keyId]);
    }

    /** A key that is not in the table is passed over in silence. */
    method TouchRuntimeCredentialUsed(keyId: string, at: int)
      requires Valid()
      modifies this`credentials
      ensures Valid() && State() == Settled(old(State()), TouchCredential(old(State()), keyId, at))
      ensures credentials == if keyId in old(credentials)
                             then old(credentials)[keyId := old(credentials)[keyId].(lastUsedAt := Some(at))]
                             else old(credentials)
    {
      hide Inv;
      CredentialStepKeepsInv(State(), TouchCredentialStep(keyId, at));
      if keyId in credentials {
        credentials := credentials[keyId := credentials[keyId].(lastUsedAt := Some(at))];
      }
    }

    method UpdateRuntimeHeartbeat(runtimeId: string, at: int, now: int) returns (r: Reply<()>)
      requires Valid()
      modifies this`runtimes
      ensures Valid() && State() == Settled(old(State()), Heartbeat(old(State()), runtimeId, at, now))
      ensures r.Done? <==> runtimeId in old(runtimes) && Live(old(runtimes)[runtimeId])
      ensures r.Done? ==>
                var row := old(runtimes)[runtimeId];
                runtimes == old(runtimes)[runtimeId := row.(
                  heartbeatAt := Some(at), status := Active, updatedAt := now,
                  startedAt := if row.startedAt.Some? then row.startedAt else Some(at))]
      ensures r.Refused? ==> r.error == NotFound
    {
      HeartbeatIff(State(), runtimeId, at, now);
      if runtimeId !in runtimes || IsTerminal(runtimes[runtimeId].status) {
        return Refused(NotFound);
      }
      var row := runtimes[runtimeId];
      row := row.(heartbeatAt := Some(at), updatedAt := now);
      if row.status in {Starting, Paired, Unhealthy} {
        row := row.(status := Active);
      }
      if row.startedAt.None? {
        row := row.(startedAt := Some(at));
      }
      KeepRow(runtimeId, row);
      runtimes := runtimes[runtimeId := row];
      return Done(());
    }

    method RecordRuntimeConnectionOwner(runtimeId: string, instanceId: string, at: int, now: int) returns (r: Reply<()>)
      requires Valid()
      modifies this`runtimes
      ensures Valid() && State() == Settled(old(State()), RecordOwner(old(State()), runtimeId, instanceId, at, now))
      ensures r.Done? <==> TrimSpace(runtimeId) != "" && TrimSpace(instanceId) != ""
                           && runtimeId in old(runtimes) && Live(old(runtimes)[runtimeId])
      ensures r.Done? ==>
                var row := old(runtimes)[runtimeId];
                runtimes == old(runtimes)[runtimeId := row.(
                  ownerInstanceId := instanceId, ownerHeartbeatAt := Some(at), updatedAt := now,
                  ownerAcquiredAt := if row.ownerInstanceId == instanceId && row.ownerAcquiredAt.Some?
                                     then row.ownerAcquiredAt else Some(at))]
      ensures r.Refused? ==> r.error == if TrimSpace(runtimeId) == "" || TrimSpace(instanceId) == "" then Conflict
                                        else NotFound
    {
      if TrimSpace(runtimeId) == "" || TrimSpace(instanceId) == "" {
        return Refused(Conflict);
      }
      if runtimeId !in runtimes || IsTerminal(runtimes[runtimeId].status) {
        return Refused(NotFound);
      }
      var row := runtimes[runtimeId];
      if row.ownerInstanceId != instanceId || row.ownerAcquiredAt.None? {
        row := row.(ownerAcquiredAt := Some(at));
      }
      row := row.(ownerInstanceId := instanceId, ownerHeartbeatAt := Some(at), updatedAt := now);
      KeepRow(runtimeId, row);
      runtimes := runtimes[runtimeId := row];
      return Done(());
    }

    method ClearRuntimeConnectionOwner(runtimeId: string, instanceId: string, now: int) returns (r: Reply<()>)
      requires Valid()
      modifies this`runtimes
      ensures Valid() && State() == Settled(old(State()), ClearOwner(old(State()), runtimeId, instanceId, now))
      ensures r.Refused? <==> TrimSpace(runtimeId) == "" || TrimSpace(instanceId) == ""
      ensures r.Refused? ==> r.error == Conflict
      ensures r.Done? ==>
                runtimes == if runtimeId in old(runtimes) && old(runtimes)[runtimeId].ownerInstanceId == instanceId
                            then old(runtimes)[runtimeId := old(runtimes)[runtimeId].(
                                   ownerInstanceId := "", ownerAcquiredAt := None, ownerHeartbeatAt := None,
                                   updatedAt := now)]
                            else old(runtimes)
    {
      if TrimSpace(runtimeId) == "" || TrimSpace(instanceId) == "" {
        return Refused(Conflict);
      }
      if runtimeId in runtimes && runtimes[runtimeId].ownerInstanceId == instanceId {
        var row := runtimes[runtimeId].(
          ownerInstanceId := "", ownerAcquiredAt := None, ownerHeartbeatAt := None, updatedAt := now);
        KeepRow(runtimeId, row);
        runtimes := runtimes[runtimeId := row];
      }
      return Done(());
    }

    /** Ending a terminal runtime returns the row as it stands. */
    method EndRuntime(runtimeId: string, reason: EndedReason, endedAt: int, now: int) returns (r: Reply<Runtime>)
      requires Valid()
      modifies this`runtimes
      ensures Valid() && State()
           == Settled(old(State()), RegistryState.EndRuntime(old(State()), runtimeId, reason, endedAt, now))
      ensures r.Done? ==> runtimeId in runtimes && r.value == runtimes[runtimeId] && !Live(r.value)
      ensures r.Done? ==>
                if Live(old(runtimes)[runtimeId])
                then EndedAs(old(runtimes)[runtimeId], r.value, reason, endedAt, now)
                     && runtimes == old(runtimes)[runtimeId := r.value]
                else runtimes == old(runtimes)
      ensures r.Refused? <==> runtimeId !in old(runtimes) || (Live(old(runtimes)[runtimeId]) && reason == NoReason)
      ensures r.Refused? ==> r.error == if runtimeId in old(runtimes) then ConstraintViolation else NotFound
    {
      if runtimeId !in runtimes {
        return Refused(NotFound);
      }
      if IsTerminal(runtimes[runtimeId].status) {
        return Done(runtimes[runtimeId]);
      }
      if reason == NoReason {
        return Refused(ConstraintViolation);
      }
      EndedRowEnds(runtimes[runtimeId], reason, endedAt, now);
      var row := runtimes[runtimeId].(
        status := TerminalStatusForReason(reason), endedAt := Some(endedAt), endedReason := reason, updatedAt := now);
      KeepRow(runtimeId, row);
      runtimes := runtimes[runtimeId := row];
      return Done(row);
    }

    /** Returns how many runtimes it ended. */
    method EndRuntimesByCredentialKey(keyId: string, reason: EndedReason, endedAt: int, now: int)
      returns (r: Reply<nat>)
      requires Valid()
      modifies this`runtimes
      ensures Valid() && State() == Settled(old(State()), EndByKey(old(State()), keyId, reason, endedAt, now))
      ensures r.Done? ==> forall id :: id in runtimes && keyId != "" && Live(runtimes[id]) ==>
                                         runtimes[id].credentialKeyId != keyId
      ensures r.Done? ==> r.value == |LiveUnder(old(runtimes), keyId)|
      ensures r.Refused? <==> LiveUnder(old(runtimes), keyId) != {} && reason == NoReason
      ensures r.Refused? ==> r.error == ConstraintViolation
    {
      hide Inv;
      var ended := EndByKey(State(), keyId, reason, endedAt, now);
      if ended.Err? {
        return Refused(ended.error);
      }
      EndByKeyKeepsInv(State(), keyId, reason, endedAt, now);
      var count := |LiveUnder(runtimes, keyId)|;
      runtimes := ended.value.runtimes;
      return Done(count);
    }

    /**
     * Returns the rows it marked, as they now stand. The two sweeps need nothing of the tables; a
     * valid registry stays valid.
     */
    method MarkStaleRuntimesUnhealthy(cutoff: int, now: int) returns (stale: map<string, Runtime>)
      modifies this`runtimes
      ensures old(Valid()) ==> Valid()
      ensures MarksStale(old(State()), State(), cutoff, now, stale)
    {
      hide Inv;
      if Valid() {
        MarkStaleKeepsInv(State(), cutoff, now);
      }
      stale := map id | id in runtimes && GoesStale(runtimes[id], cutoff) ::
        runtimes[id].(status := Unhealthy, updatedAt := now);
      runtimes := map id | id in runtimes ::
        if GoesStale(runtimes[id], cutoff) then runtimes[id].(status := Unhealthy, updatedAt := now) else runtimes[id];
    }

    /** Returns the rows it ended, as they now stand. */
    method EndDeadRuntimesBySourceCutoffs(
      defaultCutoff: int, bareCutoff: int, reason: EndedReason, endedAt: int, now: int)
      returns (r: Reply<map<string, Runtime>>)
      modifies this`runtimes
      ensures old(Valid()) ==> Valid()
      ensures State() == Settled(old(State()), EndDead(old(State()), defaultCutoff, bareCutoff, reason, endedAt, now))
      ensures reason != NoReason ==> r.Done?
      ensures r.Done? ==>
                EndsDead(old(State()), State(), defaultCutoff, bareCutoff, reason, endedAt, now, r.value)
    {
      hide Inv, EndDead, EndsDead, DeadRows;
      if AnyDead(State(), defaultCutoff, bareCutoff) && reason == NoReason {
        EndDeadRefusal(State(), defaultCutoff, bareCutoff, reason, endedAt, now);
        return Refused(ConstraintViolation);
      }
      DeadRowsAreReported(State(), defaultCutoff, bareCutoff, reason, endedAt, now);
      if Valid() {
        EndDeadKeepsInv(State(), defaultCutoff, bareCutoff, reason, endedAt, now);
      }
      var after := EndDead(State(), defaultCutoff, bareCutoff, reason, endedAt, now).value.runtimes;
      var ended := DeadRows(State(), defaultCutoff, bareCutoff, after);
      runtimes := after;
      return Done(ended);
    }

    /** One page of the user's runtimes; a row past the limit is fetched only to learn that it exists. */
    method ListRuntimes(userId: int, status: Option<RuntimeStatus>, source: Option<Source>, limit: int, offset: int)
      returns (page: Page)
      requires KeyedById(runtimes)
      ensures IsPage(runtimes, Filter(userId, status, source), limit, offset, page)
    {
      hide IsListing, IsPage, Window, KeyedById;
      var size := ClampLimit(limit);
      var lo := ClampOffset(offset);
      var rows := SortedRows(runtimes, Filter(userId, status, source));
      var items := Window(rows, lo, lo + size + 1);
      var hasMore := |items| > size;
      SentinelCut(rows, lo, size);
      CutIsPage(runtimes, Filter(userId, status, source), limit, offset, rows);
      if hasMore {
        items := items[..size];
      }
      return Page(items, |rows|, hasMore);
    }
  }

  /** The service object that owns the watchdog's grace periods. */
  class Service {
    const repo: Repository
    const graces: Graces

    constructor (repo: Repository, graces: Graces)
      ensures this.repo == repo && this.graces == graces
    {
      this.repo, this.graces := repo, graces;
    }

    /**
     * `t1` and `t2` are the database's own readings of the time in the two updates. Returns the rows
     * marked, as the first update left them, and the rows ended.
     */
    method ReapStaleRuntimes(now: int, t1: int, t2: int)
      returns (stale: map<string, Runtime>, ended: map<string, Runtime>)
      modifies repo
      ensures old(repo.Valid()) ==> repo.Valid()
      ensures Reaps(old(repo.State()), repo.State(), graces, now, t1, t2, stale, ended)
    {
      hide *;
      ghost var s := repo.State();
      stale := repo.MarkStaleRuntimesUnhealthy(now - graces.heartbeat, t1);
      ghost var s1 := repo.State();
      var dead := repo.EndDeadRuntimesBySourceCutoffs(
        now - graces.death, now - graces.bareDeath, StaleHeartbeat, now, t2);
      ghost var s2 := repo.State();
      assert dead.Done?;
      ReapReports(s, s1, s2, graces, now, t1, t2, stale, dead.value);
      return stale, dead.value;
    }

    /** Walks the pages until the name turns up or the last page is done. */
    method FindRuntimeByUserNameSource(userId: int, name: string, source: Option<Source>, includeEnded: bool)
      returns (found: Option<Runtime>)
      requires KeyedById(repo.runtimes)
      ensures IsFound(repo.runtimes, Filter(userId, None, source), name, includeEnded, found)
    {
      hide IsListing, IsFound, IsPage, NoneWanted, Wanted, Window, KeyedById;
      var pageSize := 200;
      ghost var f := Filter(userId, None, source);
      ghost var list := ListingExists(repo.runtimes, f);
      var offset := 0;
      NoneWantedYet(list, name, includeEnded);
      while true
        invariant offset >= 0 && (offset > 0 ==> offset < |list|)
        invariant NoneWanted(list[..Upto(offset, list)], name, includeEnded)
        decreases |list| - offset
      {
        var page := repo.ListRuntimes(userId, None, source, pageSize, offset);
        PageOfListing(repo.runtimes, f, pageSize, offset, page, list);
        NoneWantedYet(page.items, name, includeEnded);
        for i := 0 to |page.items|
          invariant NoneWanted(page.items[..i], name, includeEnded)
        {
          if Wanted(page.items[i], name, includeEnded) {
            FoundOnPage(repo.runtimes, f, list, offset, pageSize, i, name, includeEnded);
            return Some(page.items[i]);
          }
          OneMoreUnwanted(page.items, i, name, includeEnded);
        }
        assert page.items[..|page.items|] == page.items;
        NoneOnPage(list, offset, pageSize, name, includeEnded);
        if !page.hasMore {
          NoneInListing(repo.runtimes, f, list, offset + pageSize, name, includeEnded);
          return None;
        }
        offset := offset + pageSize;
      }
    }

    /** `offset` is the clock's nanosecond reading modulo the number of names. */
    method GenerateAvailableHostedRuntimeName(userId: int, offset: nat) returns (r: Result<string, RegistryError>)
      requires KeyedById(repo.runtimes)
      ensures r.Ok? ==> ValidRuntimeName(r.value) && !NameInUse(repo.runtimes, userId, r.value)
      ensures r.Err? <==> AllInUse(repo.runtimes, userId, 0, TOTAL)
      ensures |RowsOf(repo.runtimes, userId)| < TOTAL ==> r.Ok?
      ensures r.Err? ==> r.error == Conflict
    {
      hide AllInUse, NameInUse, HostedRuntimeNameForAttempt, IsFound, ValidRuntimeName, KeyedById;
      NothingTried(repo.runtimes, userId, offset);
      for attempt := 0 to TOTAL
        invariant AllInUse(repo.runtimes, userId, offset, offset + attempt)
      {
        var name := HostedRuntimeNameForAttempt(offset + attempt);
        var found := FindRuntimeByUserNameSource(userId, name, None, true);
        FoundIffInUse(repo.runtimes, userId, name, found);
        if found.None? {
          HostedNameIsValid(offset + attempt);
          FreeAttempt(repo.runtimes, userId, offset + attempt);
          return Ok(name);
        }
        OneMoreTried(repo.runtimes, userId, offset, offset + attempt);
      }
      AllTried(repo.runtimes, userId, offset);
      ExhaustionNeedsRows(repo.runtimes, userId);
      return Err(Conflict);
    }
  }
}
