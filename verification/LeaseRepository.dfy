/** The repository methods over the resume leases. */
module LeaseRepository {
  import opened Wrappers
  import opened Leases
  import Calendar

  datatype StoredLease = StoredLease(runtimeId: string, lease: Lease)

  /** No other runtime has an unrevoked lease with the hash. */
  predicate HashFree(leases: Table, runtimeId: string, hash: string) {
    forall o :: o in leases && o != runtimeId && leases[o].leaseHash == hash ==> leases[o].revokedAt.Some?
  }

  lemma HashFreeIff(leases: Table, runtimeId: string, hash: string)
    ensures HashFree(leases, runtimeId, hash) <==> !HashTaken(leases, runtimeId, hash)
  {
    if HashFree(leases, runtimeId, hash) {
      assert forall o :: o in leases && o != runtimeId ==> !Holds(leases, o, hash);
    }
  }

  /** The runtime's lease has the hash, is not revoked, and expires after `at`. */
  predicate IsGood(leases: Table, runtimeId: string, hash: string, at: int) {
    && runtimeId in leases && leases[runtimeId].leaseHash == hash
    && leases[runtimeId].revokedAt.None? && at < leases[runtimeId].expiresAt
  }

  /** A lease without dates is issued now, for 24 hours. */
  function IssueTime(lease: Lease, now: int): int {
    if lease.issuedAt == ZERO_TIME then now else lease.issuedAt
  }

  function ExpiryTime(lease: Lease, now: int): int {
    if lease.expiresAt == ZERO_TIME then IssueTime(lease, now) + 24 * 3600 * 1_000_000_000 else lease.expiresAt
  }

  class Repository {
    var leases: Table

    ghost predicate Valid()
      reads this
    {
      Inv(leases)
    }

    constructor ()
      ensures Valid() && leases == map[]
    {
      leases := map[];
    }

    method CreateRuntimeChannelLease(runtimeId: string, lease: Lease, now: int) returns (r: Result<(), LeaseError>)
      requires Valid()
      modifies this
      ensures Valid() && leases == Next(old(leases), Create(runtimeId, lease, now))
      ensures match CreateLease(old(leases), runtimeId, lease, now) case Ok(_) => r == Ok(()) case Err(e) => r == Err(e)
      ensures r.Ok? <==>
                && runtimeId != "" && lease.userId > 0 && lease.leaseHash != ""
                && IssueTime(lease, now) < ExpiryTime(lease, now)
                && (lease.revokedAt.None? ==> HashFree(old(leases), runtimeId, lease.leaseHash))
      ensures r == Err(ConstraintViolation) <==>
                && runtimeId != "" && lease.userId > 0 && lease.leaseHash != ""
                && IssueTime(lease, now) >= ExpiryTime(lease, now)
      ensures r != Err(NotFound)
      ensures r.Ok? ==>
                leases == old(leases)[runtimeId := lease.(
                  issuedAt := IssueTime(lease, now), expiresAt := ExpiryTime(lease, now),
                  updatedAt := IssueTime(lease, now),
                  createdAt := if runtimeId in old(leases) then old(leases)[runtimeId].createdAt
                               else if lease.createdAt == ZERO_TIME then IssueTime(lease, now)
                               else lease.createdAt)]
      ensures r.Ok? && lease.revokedAt.None? ==> Holds(leases, runtimeId, lease.leaseHash)
    {
      StepKeepsInv(leases, Create(runtimeId, lease, now));
      HashFreeIff(leases, runtimeId, lease.leaseHash);
      if runtimeId == "" || lease.userId <= 0 || lease.leaseHash == "" {
        return Err(Conflict);
      }
      var row := lease;
      if row.issuedAt == ZERO_TIME {
        row := row.(issuedAt := now);
      }
      if row.expiresAt == ZERO_TIME {
        row := row.(expiresAt := row.issuedAt + Calendar.DAY);
      }
      if row.createdAt == ZERO_TIME {
        row := row.(createdAt := row.issuedAt);
      }
      row := row.(updatedAt := row.issuedAt);
      if !RowChecks(runtimeId, row) {
        return Err(ConstraintViolation);
      }
      if row.revokedAt.None? && HashTaken(leases, runtimeId, row.leaseHash) {
        return Err(Conflict);
      }
      if runtimeId in leases {
        row := row.(createdAt := leases[runtimeId].createdAt);
      }
      leases := leases[runtimeId := row];
      return Ok(());
    }

    /** Expiry is not looked at here: the caller decides about it. */
    method GetRuntimeChannelLeaseByHash(leaseHash: string) returns (r: Result<StoredLease, LeaseError>)
      ensures match r
              case Ok(s) => Holds(leases, s.runtimeId, leaseHash) && s.lease == leases[s.runtimeId]
              case Err(e) => e == NotFound && !IsCurrent(leases, leaseHash)
    {
      if !IsCurrent(leases, leaseHash) {
        return Err(NotFound);
      }
      var id :| id in leases && Holds(leases, id, leaseHash);
      return Ok(StoredLease(id, leases[id]));
    }

    method TouchRuntimeChannelLease(runtimeId: string, leaseHash: string, at: int) returns (r: Result<(), LeaseError>)
      requires Valid()
      modifies this
      ensures Valid() && leases == Next(old(leases), Touch(runtimeId, leaseHash, at))
      ensures r == if IsGood(old(leases), runtimeId, leaseHash, at) then Ok(()) else Err(NotFound)
      ensures leases == if r.Ok?
                        then old(leases)[runtimeId := old(leases)[runtimeId].(lastUsedAt := Some(at), updatedAt := at)]
                        else old(leases)
    {
      StepKeepsInv(leases, Touch(runtimeId, leaseHash, at));
      if runtimeId !in leases {
        return Err(NotFound);
      }
      var row := leases[runtimeId];
      if row.leaseHash != leaseHash || row.revokedAt.Some? || row.expiresAt <= at {
        return Err(NotFound);
      }
      leases := leases[runtimeId := row.(lastUsedAt := Some(at), updatedAt := at)];
      return Ok(());
    }

    method RotateRuntimeChannelLease(
      runtimeId: string, oldLeaseHash: string, newLeaseHash: string, expiresAt: int, at: int)
      returns (r: Result<(), LeaseError>)
      requires Valid()
      modifies this
      ensures Valid() && leases == Next(old(leases), Rotate(runtimeId, oldLeaseHash, newLeaseHash, expiresAt, at))
      ensures match RotateLease(old(leases), runtimeId, oldLeaseHash, newLeaseHash, expiresAt, at)
              case Ok(_) => r == Ok(())
              case Err(e) => r == Err(e)
      ensures r.Ok? <==>
                && runtimeId != "" && oldLeaseHash != "" && newLeaseHash != "" && expiresAt != ZERO_TIME
                && IsGood(old(leases), runtimeId, oldLeaseHash, at) && old(leases)[runtimeId].issuedAt < expiresAt
                && HashFree(old(leases), runtimeId, newLeaseHash)
      ensures r == Err(NotFound) <==>
                && runtimeId != "" && oldLeaseHash != "" && newLeaseHash != "" && expiresAt != ZERO_TIME
                && !IsGood(old(leases), runtimeId, oldLeaseHash, at)
      ensures r == Err(ConstraintViolation) <==>
                && runtimeId != "" && oldLeaseHash != "" && newLeaseHash != "" && expiresAt != ZERO_TIME
                && IsGood(old(leases), runtimeId, oldLeaseHash, at) && expiresAt <= old(leases)[runtimeId].issuedAt
      ensures leases == if r.Ok?
                        then old(leases)[runtimeId := old(leases)[runtimeId].(
                               leaseHash := newLeaseHash, expiresAt := expiresAt, lastUsedAt := Some(at),
                               updatedAt := at)]
                        else old(leases)
      ensures r.Ok? ==> Holds(leases, runtimeId, newLeaseHash)
                        && (IsCurrent(leases, oldLeaseHash) <==> oldLeaseHash == newLeaseHash)
    {
      HashFreeIff(leases, runtimeId, newLeaseHash);
      StepKeepsInv(leases, Rotate(runtimeId, oldLeaseHash, newLeaseHash, expiresAt, at));
      if runtimeId == "" || oldLeaseHash == "" || newLeaseHash == "" || expiresAt == ZERO_TIME {
        return Err(Conflict);
      }
      if runtimeId !in leases {
        return Err(NotFound);
      }
      var row := leases[runtimeId];
      if row.leaseHash != oldLeaseHash || row.revokedAt.Some? || row.expiresAt <= at {
        return Err(NotFound);
      }
      if expiresAt <= row.issuedAt {
        return Err(ConstraintViolation);
      }
      if HashTaken(leases, runtimeId, newLeaseHash) {
        return Err(Conflict);
      }
      RotationRetires(leases, runtimeId, oldLeaseHash, newLeaseHash, expiresAt, at);
      leases := leases[runtimeId := row.(
        leaseHash := newLeaseHash, expiresAt := expiresAt, lastUsedAt := Some(at), updatedAt := at)];
      return Ok(());
    }
  }
}
