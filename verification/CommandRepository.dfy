/** The repository methods over the command table, in the same database as the runtime registry. */
module CommandRepository {
  import opened Wrappers
  import opened Commands
  import opened CommandLaws
  import RuntimeRepository
  import RegistryState

  /** The connection owner of every registered runtime. */
  function OwnersOf(runtimes: map<string, RegistryState.Runtime>): map<string, string> {
    map id | id in runtimes :: runtimes[id].ownerInstanceId
  }

  /** The row of a new command: as asked for, dated now unless it is dated, and without any progress. */
  predicate IsNew(n: NewCommand, now: int, c: Command) {
    && c.userId == n.userId && c.runtimeId == n.runtimeId && c.idempotencyKey == n.idempotencyKey && c.kind == n.kind
    && n.status in {Unset, Named(c.status)} && (n.status == Unset ==> c.status == Queued)
    && c.deadlineAt == n.deadlineAt && c.failureReason == n.failureReason && c.attemptCount == 0
    && c.sentAt.None? && c.ackedAt.None? && c.startedAt.None? && c.completedAt.None? && c.cancelledAt.None?
    && c.createdAt == (if n.createdAt == ZERO_TIME then now else n.createdAt)
    && c.updatedAt == (if n.updatedAt == ZERO_TIME then c.createdAt else n.updatedAt)
  }

  /** The next command in line is now sent, and one more attempt is on record; the others are as they were. */
  ghost predicate IsHandedOut(
    before: map<string, Command>, after: map<string, Command>, runtimeId: string, id: string, at: int)
  {
    && NextInLine(before, runtimeId, id)
    && after == before[id := before[id].(
         status := Sent, sentAt := Some(at), attemptCount := before[id].attemptCount + 1, updatedAt := at)]
  }

  datatype CommandReply = CommandReply(command: Command, duplicate: bool)

  class Repository {
    const registry: RuntimeRepository.Repository
    var commands: map<string, Command>

    /** The unique index on (runtime_id, idempotency_key). */
    ghost predicate Valid()
      reads this
    {
      KeysUnique(commands)
    }

    function State(): Queue
      reads this, registry
    {
      Queue(commands, OwnersOf(registry.runtimes))
    }

    constructor (registry: RuntimeRepository.Repository)
      ensures Valid() && this.registry == registry && commands == map[] && Inv(commands)
    {
      this.registry := registry;
      commands := map[];
    }

    method CreateRuntimeCommand(command: NewCommand, now: int) returns (r: Result<CommandReply, QueueError>)
      requires Valid()
      modifies this`commands
      ensures Valid() && commands == CommandsAfter(old(State()), Create(command, now))
      ensures match CreateCommand(old(commands), command, now)
              case Ok(c) => r == Ok(CommandReply(commands[c.commandId], c.duplicate))
              case Err(e) => r == Err(e)
      ensures r.Ok? && r.value.duplicate ==> commands == old(commands)
      ensures r.Ok? && !r.value.duplicate <==> Inserts(old(State()), Create(command, now))
      ensures r.Ok? && !r.value.duplicate ==>
                && IsNew(command, now, r.value.command)
                && commands == old(commands)[command.commandId := r.value.command]
      ensures old(Inv(commands)) && CreatesQueued(Create(command, now)) ==> Inv(commands)
    {
      StepKeepsKeys(State(), Create(command, now));
      if Inv(commands) {
        StepKeepsInvIff(State(), Create(command, now));
      }
      InsertedIff(State(), command, now);
      if command.status == Unknown || command.kind == UnknownKind {
        return Err(ConstraintViolation);
      }
      if KeyUsed(commands, command.runtimeId, command.idempotencyKey) {
        var existing :| existing in commands
          && HoldsKey(commands[existing], command.runtimeId, command.idempotencyKey);
        return Ok(CommandReply(commands[existing], true));
      }
      if command.commandId in commands {
        return Err(Conflict);
      }
      commands := commands[command.commandId := NewRow(command, now)];
      return Ok(CommandReply(commands[command.commandId], false));
    }

    /** The row the dispatch query's sub-select picks. */
    method FirstWaiting(runtimeId: string) returns (first: Option<string>)
      ensures match first
              case Some(id) => IsFirst(commands, runtimeId, id)
              case None => forall id :: !IsWaiting(commands, runtimeId, id)
    {
      var waiting := set id | id in commands && IsWaiting(commands, runtimeId, id);
      assert forall id :: IsWaiting(commands, runtimeId, id) <==> id in waiting;
      if waiting == {} {
        return None;
      }
      ghost var least := EarliestExists(commands, waiting);
      var id :| id in waiting && forall o :: o in waiting && o != id ==> Earlier(commands, id, o);
      return Some(id);
    }

    method ClaimNextRuntimeCommand(runtimeId: string, ownerInstanceId: string, at: int, inFlightLimit: int)
      returns (r: Result<Option<Command>, QueueError>)
      requires Valid()
      modifies this`commands
      ensures Valid() && commands == CommandsAfter(old(State()), Claim(runtimeId, ownerInstanceId, at, inFlightLimit))
      ensures r.Err? <==> runtimeId == "" || ownerInstanceId == "" || runtimeId !in registry.runtimes
      ensures r.Err? ==> r.error == NotFound
      ensures r.Ok? && r.value.Some? ==>
                && registry.runtimes[runtimeId].ownerInstanceId == ownerInstanceId
                && |Unfinished(old(commands), runtimeId)| < (if inFlightLimit <= 0 then 1 else inFlightLimit)
                && exists id :: IsHandedOut(old(commands), commands, runtimeId, id, at) && r.value.value == commands[id]
      ensures r.Err? || r.value.None? ==> commands == old(commands)
      ensures match ClaimNext(old(State()), runtimeId, ownerInstanceId, at, inFlightLimit)
              case Ok(c) => r == Ok(if c.commandId.Some? then Some(commands[c.commandId.value]) else None)
              case Err(e) => r == Err(e)
      ensures old(Inv(commands)) ==> Inv(commands)
    {
      hide KeysUnique, RowsSound, NextInLine, Unfinished;
      StepKeepsKeys(State(), Claim(runtimeId, ownerInstanceId, at, inFlightLimit));
      if Inv(commands) {
        StepKeepsInvIff(State(), Claim(runtimeId, ownerInstanceId, at, inFlightLimit));
      }
      if runtimeId == "" || ownerInstanceId == "" {
        return Err(NotFound);
      }
      var limit := if inFlightLimit <= 0 then 1 else inFlightLimit;
      if runtimeId !in registry.runtimes {
        return Err(NotFound);
      }
      if registry.runtimes[runtimeId].ownerInstanceId != ownerInstanceId {
        return Ok(None);
      }
      var inFlight := |InFlight(commands, runtimeId)|;
      if inFlight >= limit {
        return Ok(None);
      }
      var first := FirstWaiting(runtimeId);
      if first.None? {
        return Ok(None);
      }
      DispatchedWhen(State(), runtimeId, ownerInstanceId, at, inFlightLimit, first.value);
      FirstIsNext(commands, runtimeId, first.value);
      InFlightIsUnfinished(commands, runtimeId);
      var c := commands[first.value];
      commands := commands[first.value := c.(
        status := Sent, sentAt := Some(at), attemptCount := c.attemptCount + 1, updatedAt := at)];
      assert IsHandedOut(old(commands), commands, runtimeId, first.value, at);
      return Ok(Some(commands[first.value]));
    }

    method AcknowledgeRuntimeCommand(commandId: string, at: int) returns (r: Result<Command, QueueError>)
      requires Valid()
      modifies this`commands
      ensures Valid() && commands == CommandsAfter(old(State()), Ack(commandId, at))
      ensures r == if Acknowledge(old(commands), commandId, at).Ok? then Ok(commands[commandId]) else Err(NotFound)
      ensures r.Ok? <==> commandId in old(commands) && old(commands)[commandId].status in {Sent, Acked}
      ensures r.Ok? ==>
                var c := old(commands)[commandId];
                r.value == c.(status := Acked, updatedAt := at,
                              ackedAt := if c.ackedAt.Some? then c.ackedAt else Some(at))
      ensures old(Inv(commands)) ==> Inv(commands)
    {
      StepKeepsKeys(State(), Ack(commandId, at));
      if Inv(commands) {
        StepKeepsInvIff(State(), Ack(commandId, at));
      }
      if commandId !in commands || commands[commandId].status !in {Sent, Acked} {
        return Err(NotFound);
      }
      var c := commands[commandId];
      if c.ackedAt.None? {
        c := c.(ackedAt := Some(at));
      }
      commands := commands[commandId := c.(status := Acked, updatedAt := at)];
      return Ok(commands[commandId]);
    }

    method MarkRuntimeCommandRunning(commandId: string, at: int) returns (r: Result<Command, QueueError>)
      requires Valid()
      modifies this`commands
      ensures Valid() && commands == CommandsAfter(old(State()), Start(commandId, at))
      ensures r == if MarkRunning(old(commands), commandId, at).Ok? then Ok(commands[commandId]) else Err(NotFound)
      ensures r.Ok? <==> commandId in old(commands) && old(commands)[commandId].status in {Sent, Acked, Running}
      ensures r.Ok? ==>
                var c := old(commands)[commandId];
                r.value == c.(status := Running, updatedAt := at,
                              startedAt := if c.startedAt.Some? then c.startedAt else Some(at))
      ensures old(Inv(commands)) ==> Inv(commands)
    {
      StepKeepsKeys(State(), Start(commandId, at));
      if Inv(commands) {
        StepKeepsInvIff(State(), Start(commandId, at));
      }
      if commandId !in commands || commands[commandId].status !in {Sent, Acked, Running} {
        return Err(NotFound);
      }
      var c := commands[commandId];
      if c.startedAt.None? {
        c := c.(startedAt := Some(at));
      }
      commands := commands[commandId := c.(status := Running, updatedAt := at)];
      return Ok(commands[commandId]);
    }

    method CompleteRuntimeCommand(commandId: string, status: CommandStatus, failureReason: string, at: int)
      returns (r: Result<Command, QueueError>)
      requires Valid()
      modifies this`commands
      ensures Valid() && commands == CommandsAfter(old(State()), Finish(commandId, status, failureReason, at))
      ensures r == Err(Conflict) <==> Rank(status) != 4
      ensures r.Err? ==> r.error in {Conflict, NotFound}
      ensures r.Ok? <==> Rank(status) == 4 && commandId in old(commands) && Rank(old(commands)[commandId].status) != 4
      ensures r.Ok? && old(RowSound(commands[commandId])) ==>
                r.value == old(commands)[commandId].(
                  status := status, failureReason := failureReason, updatedAt := at,
                  completedAt := if status == Cancelled then None else Some(at),
                  cancelledAt := if status == Cancelled then Some(at) else None)
      ensures match Complete(old(commands), commandId, status, failureReason, at)
              case Ok(_) => r == Ok(commands[commandId])
              case Err(e) => r == Err(e)
      ensures old(Inv(commands)) ==> Inv(commands)
    {
      StepKeepsKeys(State(), Finish(commandId, status, failureReason, at));
      if Inv(commands) {
        StepKeepsInvIff(State(), Finish(commandId, status, failureReason, at));
      }
      Phases(status);
      if !IsTerminal(status) {
        return Err(Conflict);
      }
      if commandId in commands {
        Phases(commands[commandId].status);
      }
      if commandId !in commands || IsTerminal(commands[commandId].status) {
        return Err(NotFound);
      }
      var c := commands[commandId].(status := status, failureReason := failureReason, updatedAt := at);
      if status == Cancelled {
        if c.cancelledAt.None? {
          c := c.(cancelledAt := Some(at));
        }
      } else if c.completedAt.None? {
        c := c.(completedAt := Some(at));
      }
      commands := commands[commandId := c];
      return Ok(c);
    }

    /** Returns the ids of the commands it ended. */
    method TimeoutRuntimeCommands(at: int, failureReason: string) returns (ended: set<string>)
      requires Valid()
      modifies this`commands
      ensures Valid() && commands == CommandsAfter(old(State()), Expire(at, failureReason))
      ensures forall id :: id in ended <==> id in old(commands) && IsOverdue(old(commands)[id], at)
      ensures old(Inv(commands)) ==> Inv(commands)
    {
      StepKeepsKeys(State(), Expire(at, failureReason));
      if Inv(commands) {
        StepKeepsInvIff(State(), Expire(at, failureReason));
      }
      ended := set id | id in commands && IsOverdue(commands[id], at);
      assert forall id :: id in ended <==> id in commands && IsOverdue(commands[id], at);
      commands := Timeout(commands, at, failureReason);
    }
  }
}
