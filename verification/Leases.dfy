/** The RuntimeChannel resume leases: rows keyed by runtime, and one function per repository method. */
module Leases {
  import opened Wrappers
  import Calendar

  datatype Lease = Lease(
    userId: int,
    credentialKeyId: string,
    leaseHash: string,
    issuedAt: int,
    expiresAt: int,
    lastUsedAt: Option<int>,
    revokedAt: Option<int>,
    createdAt: int,
    updatedAt: int)

  datatype LeaseError = NotFound | Conflict | ConstraintViolation

  type Table = map<string, Lease>

  const ZERO_TIME := Calendar.YearStart(1)

  /** The CHECK constraints of `runtime_channel_leases`, on a row stored under `id`. */
  predicate RowChecks(id: string, l: Lease) {
    id != "" && l.leaseHash != "" && l.expiresAt > l.issuedAt
  }

  /** An unrevoked lease carries the hash: this is the lease the hash looks up. */
  predicate Holds(t: Table, id: string, hash: string) {
    id in t && t[id].leaseHash == hash && t[id].revokedAt.None?
  }

  /** The partial unique index has no room for the hash on runtime `id`. */
  predicate HashTaken(t: Table, id: string, hash: string) {
    exists o :: o in t && o != id && Holds(t, o, hash)
  }

  /** Defaults filled in before writing. */
  function Defaulted(l: Lease, now: int): Lease {
    var issuedAt := if l.issuedAt == ZERO_TIME then now else l.issuedAt;
    l.(issuedAt := issuedAt,
       expiresAt := if l.expiresAt == ZERO_TIME then issuedAt + Calendar.DAY else l.expiresAt,
       createdAt := if l.createdAt == ZERO_TIME then issuedAt else l.createdAt,
       updatedAt := issuedAt)
  }

  /** INSERT ... ON CONFLICT (runtime_id) DO UPDATE: the creation time of an existing row stays. */
  function CreateLease(t: Table, id: string, l: Lease, now: int): Result<Table, LeaseError> {
    if id == "" || l.userId <= 0 || l.leaseHash == "" then Err(Conflict)
    else
      var row := Defaulted(l, now);
      if !RowChecks(id, row) then Err(ConstraintViolation)
      else if row.revokedAt.None? && HashTaken(t, id, row.leaseHash) then Err(Conflict)
      else Ok(t[id := if id in t then row.(createdAt := t[id].createdAt) else row])
  }

  /** The lease may still be used at `at`. */
  predicate Usable(t: Table, id: string, hash: string, at: int) {
    Holds(t, id, hash) && t[id].expiresAt > at
  }

  function TouchLease(t: Table, id: string, hash: string, at: int): Result<Table, LeaseError> {
    if !Usable(t, id, hash, at) then Err(NotFound)
    else Ok(t[id := t[id].(lastUsedAt := Some(at), updatedAt := at)])
  }

  function RotatedRow(l: Lease, newHash: string, expiresAt: int, at: int): Lease {
    l.(leaseHash := newHash, expiresAt := expiresAt, lastUsedAt := Some(at), updatedAt := at)
  }

  /** Compare-and-swap of the lease hash. */
  function RotateLease(t: Table, id: string, oldHash: string, newHash: string, expiresAt: int, at: int)
    : Result<Table, LeaseError>
  {
    if id == "" || oldHash == "" || newHash == "" || expiresAt == ZERO_TIME then Err(Conflict)
    else if !Usable(t, id, oldHash, at) then Err(NotFound)
    else if expiresAt <= t[id].issuedAt then Err(ConstraintViolation)
    else if HashTaken(t, id, newHash) then Err(Conflict)
    else Ok(t[id := RotatedRow(t[id], newHash, expiresAt, at)])
  }

  datatype Step =
    | Create(id: string, lease: Lease, now: int)
    | Touch(id: string, hash: string, at: int)
    | Rotate(id: string, oldHash: string, newHash: string, expiresAt: int, at: int)

  function Apply(t: Table, step: Step): Result<Table, LeaseError> {
    match step
    case Create(id, lease, now) => CreateLease(t, id, lease, now)
    case Touch(id, hash, at) => TouchLease(t, id, hash, at)
    case Rotate(id, oldHash, newHash, expiresAt, at) => RotateLease(t, id, oldHash, newHash, expiresAt, at)
  }

  function Next(t: Table, step: Step): Table {
    var applied := Apply(t, step);
    if applied.Ok? then applied.value else t
  }

  function Run(t: Table, steps: seq<Step>): Table
    decreases |steps|
  {
    if steps == [] then t else Run(Next(t, steps[0]), steps[1..])
  }

  // ---- Invariant ----------------------------------------------------------------------

  ghost predicate Inv(t: Table) {
    && (forall id :: id in t ==> RowChecks(id, t[id]))
    && (forall a, b, hash :: Holds(t, a, hash) && Holds(t, b, hash) ==> a == b)
  }

  lemma StepKeepsInv(t: Table, step: Step)
    requires Inv(t)
    ensures Inv(Next(t, step))
  {
    if Apply(t, step).Ok? {
      var t' := Next(t, step);
      forall a, b, hash | Holds(t', a, hash) && Holds(t', b, hash) ensures a == b {
        HolderIs(t, step, a, hash);
        HolderIs(t, step, b, hash);
      }
    }
  }

  /** After a step, a holder of a hash held it before, or is the row that the step gave it to. */
  lemma HolderIs(t: Table, step: Step, id: string, hash: string)
    requires Apply(t, step).Ok? && Holds(Next(t, step), id, hash)
    ensures Holds(t, id, hash) || (id == step.id && Introduces(step, hash))
    ensures id == step.id ==> !HashTaken(t, id, hash) || Holds(t, id, hash)
  {
  }

  lemma {:induction false} RunKeepsInv(t: Table, steps: seq<Step>)
    requires Inv(t)
    ensures Inv(Run(t, steps))
    decreases |steps|
  {
    if steps != [] {
      StepKeepsInv(t, steps[0]);
      RunKeepsInv(Next(t, steps[0]), steps[1..]);
    }
  }

  // ---- The token chain ----------------------------------------------------------------

  /** Some unrevoked lease carries the hash. */
  predicate IsCurrent(t: Table, hash: string) {
    exists id :: id in t && Holds(t, id, hash)
  }

  /** The step asks for the hash to be stored. Renewing a lease to the hash it has stores nothing new. */
  predicate Introduces(step: Step, hash: string) {
    || (step.Create? && step.lease.leaseHash == hash)
    || (step.Rotate? && step.newHash == hash && step.oldHash != hash)
  }

  function Count(b: bool): nat {
    if b then 1 else 0
  }

  /** A hash no lease carries is refused by touch and by rotation, for every runtime and at any time. */
  lemma NotCurrentIsRefused(t: Table, id: string, hash: string, at: int, newHash: string, expiresAt: int)
    requires !IsCurrent(t, hash)
    ensures TouchLease(t, id, hash, at) == Err(NotFound)
    ensures RotateLease(t, id, hash, newHash, expiresAt, at).Err?
  {
    assert !Holds(t, id, hash) by {
      if Holds(t, id, hash) {
        assert IsCurrent(t, hash);
      }
    }
  }

  /** No method accepts the hash: get finds no lease under it, and touch and rotation refuse it. */
  ghost predicate Refused(t: Table, hash: string) {
    && !IsCurrent(t, hash)
    && (forall id, at :: TouchLease(t, id, hash, at) == Err(NotFound))
    && (forall id, at, newHash, expiresAt :: RotateLease(t, id, hash, newHash, expiresAt, at).Err?)
  }

  lemma NotCurrentIsRefusedByAll(t: Table, hash: string)
    requires !IsCurrent(t, hash)
    ensures Refused(t, hash)
  {
    forall id, at, newHash, expiresAt
      ensures TouchLease(t, id, hash, at) == Err(NotFound)
      ensures RotateLease(t, id, hash, newHash, expiresAt, at).Err?
    {
      NotCurrentIsRefused(t, id, hash, at, newHash, expiresAt);
    }
  }

  /**
   * Rotation retires the hash it replaces, exactly when it replaces it by another: afterwards no
   * lease of any runtime carries the old hash, and the runtime's lease carries the new one.
   */
  lemma RotationRetires(t: Table, id: string, oldHash: string, newHash: string, expiresAt: int, at: int)
    requires Inv(t) && RotateLease(t, id, oldHash, newHash, expiresAt, at).Ok?
    ensures var t' := RotateLease(t, id, oldHash, newHash, expiresAt, at).value;
            && Holds(t', id, newHash) && t'.Keys == t.Keys
            && (IsCurrent(t', oldHash) <==> newHash == oldHash)
            && forall o :: o in t && o != id ==> t'[o] == t[o]
  {
    var t' := RotateLease(t, id, oldHash, newHash, expiresAt, at).value;
    assert Holds(t, id, oldHash);
    if newHash != oldHash {
      forall o | o in t' ensures !Holds(t', o, oldHash) {
        if o != id {
          assert t'[o] == t[o];
          assert Holds(t, o, oldHash) ==> o == id;
        }
      }
    }
  }

  /** Creating a lease anew retires the hash the runtime's lease had, exactly when it stores another or none. */
  lemma ReplacementRetires(t: Table, id: string, l: Lease, now: int, oldHash: string)
    requires Inv(t) && Holds(t, id, oldHash) && CreateLease(t, id, l, now).Ok?
    ensures IsCurrent(CreateLease(t, id, l, now).value, oldHash) <==> l.leaseHash == oldHash && l.revokedAt.None?
  {
    var t' := CreateLease(t, id, l, now).value;
    if l.leaseHash == oldHash && l.revokedAt.None? {
      assert Holds(t', id, oldHash);
    } else {
      forall o | o in t' ensures !Holds(t', o, oldHash) {
        if o != id {
          assert t'[o] == t[o];
          assert Holds(t, o, oldHash) ==> o == id;
        }
      }
    }
  }

  lemma StepKeepsRetired(t: Table, step: Step, hash: string)
    requires !IsCurrent(t, hash) && !(Introduces(step, hash) && Apply(t, step).Ok?)
    ensures !IsCurrent(Next(t, step), hash)
  {
    forall id | id in Next(t, step) ensures !Holds(Next(t, step), id, hash) {
      assert id in t ==> !Holds(t, id, hash);
    }
  }

  /**
   * A hash that no lease carries is accepted again only if a successful step of the run stored it
   * afresh: a rotated-out or replaced hash never comes back by itself.
   */
  lemma {:induction false} ReturnNeedsIntroduction(t: Table, steps: seq<Step>, hash: string) returns (i: nat)
    requires !IsCurrent(t, hash) && IsCurrent(Run(t, steps), hash)
    ensures i < |steps| && Introduces(steps[i], hash) && Apply(Run(t, steps[..i]), steps[i]).Ok?
    decreases |steps|
  {
    if Introduces(steps[0], hash) && Apply(t, steps[0]).Ok? {
      i := 0;
    } else {
      StepKeepsRetired(t, steps[0], hash);
      var k := ReturnNeedsIntroduction(Next(t, steps[0]), steps[1..], hash);
      i := k + 1;
      assert steps[..i][1..] == steps[1..][..k];
    }
  }

  /** The step rotates away from the hash to another one. */
  predicate RotatesAway(t: Table, step: Step, hash: string) {
    step.Rotate? && step.oldHash == hash && step.newHash != hash && Apply(t, step).Ok?
  }

  function Departures(t: Table, steps: seq<Step>, hash: string): nat
    decreases |steps|
  {
    if steps == [] then 0
    else Count(RotatesAway(t, steps[0], hash)) + Departures(Next(t, steps[0]), steps[1..], hash)
  }

  /** How many steps of the run store the hash, other than by renewing a lease that has it. */
  function Introductions(t: Table, steps: seq<Step>, hash: string): nat
    decreases |steps|
  {
    if steps == [] then 0
    else
      Count(Introduces(steps[0], hash) && Apply(t, steps[0]).Ok?)
      + Introductions(Next(t, steps[0]), steps[1..], hash)
  }

  lemma StepSpendsHash(t: Table, step: Step, hash: string)
    requires Inv(t)
    ensures Count(RotatesAway(t, step, hash)) + Count(IsCurrent(Next(t, step), hash))
         <= Count(IsCurrent(t, hash)) + Count(Introduces(step, hash) && Apply(t, step).Ok?)
  {
    if !(Introduces(step, hash) && Apply(t, step).Ok?) {
      if RotatesAway(t, step, hash) {
        assert Holds(t, step.id, hash);
        RotationRetires(t, step.id, hash, step.newHash, step.expiresAt, step.at);
      } else if !IsCurrent(t, hash) {
        StepKeepsRetired(t, step, hash);
      }
    }
  }

  /** Every rotation away from a hash spends one introduction of it, however often it was renewed. */
  lemma {:induction false} RotationsSpendIntroductions(t: Table, steps: seq<Step>, hash: string)
    requires Inv(t)
    ensures Departures(t, steps, hash) + Count(IsCurrent(Run(t, steps), hash))
         <= Count(IsCurrent(t, hash)) + Introductions(t, steps, hash)
    decreases |steps|
  {
    if steps != [] {
      StepSpendsHash(t, steps[0], hash);
      StepKeepsInv(t, steps[0]);
      RotationsSpendIntroductions(Next(t, steps[0]), steps[1..], hash);
    }
  }

  /** With fresh hashes the tokens form a chain: each is rotated out at most once, and then is gone. */
  lemma FreshHashLeavesOnce(t: Table, steps: seq<Step>, hash: string)
    requires Inv(t) && !IsCurrent(t, hash) && Introductions(t, steps, hash) <= 1
    ensures Departures(t, steps, hash) <= 1
    ensures Departures(t, steps, hash) == 1 ==> Refused(Run(t, steps), hash)
  {
    RotationsSpendIntroductions(t, steps, hash);
    if Departures(t, steps, hash) == 1 {
      NotCurrentIsRefusedByAll(Run(t, steps), hash);
    }
  }

  lemma {:induction false} RunsJoin(t: Table, a: seq<Step>, b: seq<Step>, hash: string)
    ensures Run(t, a + b) == Run(Run(t, a), b)
    ensures Introductions(t, a + b, hash) == Introductions(t, a, hash) + Introductions(Run(t, a), b, hash)
    decreases |a|
  {
    if a == [] {
      assert a + b == b;
    } else {
      assert (a + b)[0] == a[0] && (a + b)[1..] == a[1..] + b;
      RunsJoin(Next(t, a[0]), a[1..], b, hash);
    }
  }

  /**
   * A hash that was current and is not any more, whether rotated out, replaced or revoked, is never
   * accepted again, in any run that introduces it only once.
   */
  lemma GoneForGood(t: Table, before: seq<Step>, between: seq<Step>, after: seq<Step>, hash: string)
    requires Inv(t) && !IsCurrent(t, hash) && Introductions(t, before + between + after, hash) <= 1
    requires IsCurrent(Run(t, before), hash) && !IsCurrent(Run(t, before + between), hash)
    ensures Refused(Run(t, before + between + after), hash)
  {
    RunsJoin(t, before + between, after, hash);
    RunsJoin(t, before, between, hash);
    RotationsSpendIntroductions(t, before, hash);
    RunKeepsInv(t, before + between);
    RotationsSpendIntroductions(Run(t, before + between), after, hash);
    NotCurrentIsRefusedByAll(Run(t, before + between + after), hash);
  }

  /** A heartbeat's renewal introduces nothing, and keeps its hash current. */
  lemma RenewalIntroducesNothing(t: Table, id: string, hash: string, expiresAt: int, at: int)
    requires Inv(t) && RotateLease(t, id, hash, hash, expiresAt, at).Ok?
    ensures Introductions(t, [Rotate(id, hash, hash, expiresAt, at)], hash) == 0
    ensures Departures(t, [Rotate(id, hash, hash, expiresAt, at)], hash) == 0
    ensures IsCurrent(Next(t, Rotate(id, hash, hash, expiresAt, at)), hash)
  {
    RotationRetires(t, id, hash, hash, expiresAt, at);
  }
}
