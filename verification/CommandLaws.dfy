/** What the command queue guarantees over whole runs. */
module CommandLaws {
  import opened Sets
  import opened Wrappers
  import opened Text
  import opened Commands

  // ---- The invariant ------------------------------------------------------------------

  /** Which timestamps a row carries in which status; one dispatch at most is on record. */
  predicate RowSound(c: Command) {
    && c.attemptCount == (if c.sentAt.Some? then 1 else 0)
    && (c.status == Queued ==> c.sentAt.None?)
    && (IsInFlight(c.status) ==> c.sentAt.Some?)
    && (c.status == Acked ==> c.ackedAt.Some?)
    && (c.status == Running ==> c.startedAt.Some?)
    && (c.ackedAt.Some? || c.startedAt.Some? ==> c.sentAt.Some?)
    && (c.completedAt.Some? <==> IsTerminal(c.status) && c.status != Cancelled)
    && (c.cancelledAt.Some? <==> c.status == Cancelled)
  }

  ghost predicate RowsSound(commands: map<string, Command>) {
    forall id :: id in commands ==> RowSound(commands[id])
  }

  /** No runtime has two commands under one idempotency key. */
  ghost predicate KeysUnique(commands: map<string, Command>) {
    forall a, b | a in commands && b in commands && commands[a].idempotencyKey != "" ::
      HoldsKey(commands[b], commands[a].runtimeId, commands[a].idempotencyKey) ==> a == b
  }

  ghost predicate Inv(commands: map<string, Command>) {
    RowsSound(commands) && KeysUnique(commands)
  }

  // ---- What one step does to one row --------------------------------------------------

  function Rank(status: CommandStatus): nat {
    match status
    case Queued => 0
    case Sent => 1
    case Acked => 2
    case Running => 3
    case _ => 4
  }

  /** A command waits, is in flight, or is finished, and never two of these. */
  lemma Phases(status: CommandStatus)
    ensures status == Queued <==> Rank(status) == 0
    ensures IsInFlight(status) <==> 0 < Rank(status) < 4
    ensures IsTerminal(status) <==> Rank(status) == 4
  {
    match status
    case Queued =>
    case Sent =>
    case Acked =>
    case Running =>
    case Succeeded =>
    case Failed =>
    case TimedOut =>
    case Cancelled =>
  }

  /** The columns no step writes after creation. */
  predicate SameCommand(c: Command, c': Command) {
    && c'.userId == c.userId
    && c'.runtimeId == c.runtimeId
    && c'.idempotencyKey == c.idempotencyKey
    && c'.kind == c.kind
    && c'.deadlineAt == c.deadlineAt
    && c'.createdAt == c.createdAt
  }

  /** A recorded time of progress stays as first written. */
  predicate TimesKept(c: Command, c': Command) {
    && (c.ackedAt.Some? ==> c'.ackedAt == c.ackedAt)
    && (c.startedAt.Some? ==> c'.startedAt == c.startedAt)
    && (c.completedAt.Some? ==> c'.completedAt == c.completedAt)
    && (c.cancelledAt.Some? ==> c'.cancelledAt == c.cancelledAt)
  }

  /** The command a step hands to the connection owner, if any. */
  ghost function Dispatched(q: Queue, step: Step): Option<string> {
    match step
    case Claim(runtimeId, owner, at, limit) =>
      (match ClaimNext(q, runtimeId, owner, at, limit) case Ok(c) => c.commandId case Err(_) => None)
    case _ => None
  }

  function Count(b: bool): nat {
    if b then 1 else 0
  }

  /** The row moves forward or stays, terminal rows stay as they are, and only dispatch counts an attempt. */
  predicate Follows(c: Command, c': Command, dispatched: bool) {
    && SameCommand(c, c') && TimesKept(c, c')
    && Rank(c.status) <= Rank(c'.status)
    && (IsTerminal(c.status) ==> c' == c)
    && (RowSound(c) ==> RowSound(c'))
    && c'.attemptCount == c.attemptCount + Count(dispatched)
    && (dispatched ==> c.status == Queued && c'.status == Sent)
    && (!dispatched ==> c'.sentAt == c.sentAt)
    && (IsInFlight(c'.status) && !dispatched ==> IsInFlight(c.status))
  }

  lemma StepFollows(q: Queue, step: Step, id: string)
    requires id in q.commands
    ensures id in CommandsAfter(q, step)
    ensures Follows(q.commands[id], CommandsAfter(q, step)[id], Dispatched(q, step) == Some(id))
  {
  }

  /** A row that was not there before is the one just created, as its creation describes it. */
  lemma StepAdds(q: Queue, step: Step, id: string)
    requires id !in q.commands && id in CommandsAfter(q, step)
    ensures step.Create? && step.command.commandId == id && step.command.status != Unknown
    ensures CommandsAfter(q, step) == q.commands[id := NewRow(step.command, step.now)]
    ensures !KeyUsed(q.commands, step.command.runtimeId, step.command.idempotencyKey)
  {
  }

  /** A command is created queued: the caller left the status open or asked for "queued". */
  predicate CreatesQueued(step: Step) {
    step.Create? ==> step.command.status in {Unset, Named(Queued)}
  }

  ghost predicate AllCreateQueued(steps: seq<Step>) {
    forall i :: 0 <= i < |steps| ==> CreatesQueued(steps[i])
  }

  /** The command has no idempotency key, or one that no command of its runtime has. */
  predicate KeyFree(commands: map<string, Command>, n: NewCommand) {
    n.idempotencyKey != "" ==>
      forall id :: id in commands && commands[id].runtimeId == n.runtimeId ==>
                     commands[id].idempotencyKey != n.idempotencyKey
  }

  lemma KeyFreeIff(commands: map<string, Command>, n: NewCommand)
    ensures KeyFree(commands, n) <==> !KeyUsed(commands, n.runtimeId, n.idempotencyKey)
  {
    if KeyFree(commands, n) {
      assert forall id :: id in commands ==> n.idempotencyKey != "" ==>
                            !HoldsKey(commands[id], n.runtimeId, n.idempotencyKey);
    }
  }

  /** The step inserts a row: the command is well-formed, and neither its key nor its id is taken. */
  predicate Inserts(q: Queue, step: Step) {
    && step.Create? && step.command.status != Unknown && step.command.kind != UnknownKind
    && KeyFree(q.commands, step.command)
    && step.command.commandId !in q.commands
  }

  lemma StepKeepsKeys(q: Queue, step: Step)
    requires KeysUnique(q.commands)
    ensures KeysUnique(CommandsAfter(q, step))
  {
    var after := CommandsAfter(q, step);
    forall a, b | a in after && b in after && after[a].idempotencyKey != ""
                  && HoldsKey(after[b], after[a].runtimeId, after[a].idempotencyKey)
      ensures a == b
    {
      KeyCarries(q, step, a);
      KeyCarries(q, step, b);
    }
  }

  /** A row's runtime and key are those it had, or those of a creation that found the key free. */
  lemma KeyCarries(q: Queue, step: Step, id: string)
    requires id in CommandsAfter(q, step)
    ensures id in q.commands ==> SameCommand(q.commands[id], CommandsAfter(q, step)[id])
    ensures id !in q.commands ==>
              && step.Create? && id == step.command.commandId
              && HoldsKey(CommandsAfter(q, step)[id], step.command.runtimeId, step.command.idempotencyKey)
              && !KeyUsed(q.commands, step.command.runtimeId, step.command.idempotencyKey)
  {
    if id in q.commands {
      StepFollows(q, step, id);
    } else {
      StepAdds(q, step, id);
    }
  }

  /**
   * A step keeps the queue sound exactly when it does not insert a command in a status of the
   * caller's own choosing other than "queued".
   */
  lemma StepKeepsInvIff(q: Queue, step: Step)
    requires Inv(q.commands)
    ensures Inv(CommandsAfter(q, step)) <==> CreatesQueued(step) || !Inserts(q, step)
  {
    StepKeepsKeys(q, step);
    if step.Create? {
      KeyFreeIff(q.commands, step.command);
    }
    var after := CommandsAfter(q, step);
    if CreatesQueued(step) {
      forall id | id in after ensures RowSound(after[id]) {
        if id in q.commands {
          StepFollows(q, step, id);
        } else {
          StepAdds(q, step, id);
        }
      }
    } else if Inserts(q, step) {
      assert after[step.command.commandId] == NewRow(step.command, step.now);
      assert !RowSound(after[step.command.commandId]);
    } else {
      assert after == q.commands;
    }
  }

  lemma {:induction false} RunKeepsInv(q: Queue, steps: seq<Step>)
    requires Inv(q.commands) && AllCreateQueued(steps)
    ensures Inv(Run(q, steps).commands)
    decreases |steps|
  {
    if steps != [] {
      StepKeepsInvIff(q, steps[0]);
      assert CreatesQueued(steps[0]);
      TailCreatesQueued(steps);
      RunKeepsInv(Next(q, steps[0]), steps[1..]);
    }
  }

  lemma TailCreatesQueued(steps: seq<Step>)
    requires steps != [] && AllCreateQueued(steps)
    ensures AllCreateQueued(steps[1..])
  {
    forall i | 0 <= i < |steps[1..]| ensures CreatesQueued(steps[1..][i]) {
      assert steps[1..][i] == steps[i + 1];
    }
  }

  // ---- Status only moves forward ------------------------------------------------------

  /** Over any run, a command's status never goes back, and a terminal row is never touched again. */
  lemma {:induction false} StatusNeverGoesBack(q: Queue, steps: seq<Step>, id: string)
    requires id in q.commands
    ensures id in Run(q, steps).commands
    ensures var c, c' := q.commands[id], Run(q, steps).commands[id];
            && SameCommand(c, c') && TimesKept(c, c')
            && Rank(c.status) <= Rank(c'.status) && (IsTerminal(c.status) ==> c' == c)
    decreases |steps|
  {
    if steps != [] {
      StepFollows(q, steps[0], id);
      StatusNeverGoesBack(Next(q, steps[0]), steps[1..], id);
    }
  }

  // ---- At most one dispatch -----------------------------------------------------------

  function Attempts(q: Queue, id: string): int {
    if id in q.commands then q.commands[id].attemptCount else 0
  }

  /** How many steps of the run hand the command to an owner. */
  ghost function Dispatches(q: Queue, steps: seq<Step>, id: string): nat
    decreases |steps|
  {
    if steps == [] then 0
    else Count(Dispatched(q, steps[0]) == Some(id)) + Dispatches(Next(q, steps[0]), steps[1..], id)
  }

  /** The attempt counter counts dispatches. */
  lemma {:induction false} AttemptsCountDispatches(q: Queue, steps: seq<Step>, id: string)
    ensures Attempts(Run(q, steps), id) == Attempts(q, id) + Dispatches(q, steps, id)
    decreases |steps|
  {
    if steps != [] {
      StepCountsDispatch(q, steps[0], id);
      AttemptsCountDispatches(Next(q, steps[0]), steps[1..], id);
    }
  }

  lemma StepCountsDispatch(q: Queue, step: Step, id: string)
    ensures Attempts(Next(q, step), id) == Attempts(q, id) + Count(Dispatched(q, step) == Some(id))
  {
    if id in q.commands {
      StepFollows(q, step, id);
    } else if id in CommandsAfter(q, step) {
      StepAdds(q, step, id);
    }
  }

  /** No command is handed out twice, in any run; one already sent is never handed out again. */
  lemma AtMostOneDispatch(q: Queue, steps: seq<Step>, id: string)
    requires Inv(q.commands) && AllCreateQueued(steps)
    ensures Dispatches(q, steps, id) <= 1
    ensures id in q.commands && q.commands[id].sentAt.Some? ==> Dispatches(q, steps, id) == 0
    ensures id in Run(q, steps).commands ==>
              (Run(q, steps).commands[id].sentAt.Some?
               <==> (id in q.commands && q.commands[id].sentAt.Some?) || Dispatches(q, steps, id) == 1)
  {
    AttemptsCountDispatches(q, steps, id);
    RunKeepsInv(q, steps);
    if id in q.commands {
      StatusNeverGoesBack(q, steps, id);
      assert RowSound(q.commands[id]) && RowSound(Run(q, steps).commands[id]);
    }
    if id in Run(q, steps).commands {
      assert RowSound(Run(q, steps).commands[id]);
    }
  }

  /** Once a command has been sent, the time it was sent stays as recorded, in any run. */
  lemma {:induction false} SentTimeIsFinal(q: Queue, steps: seq<Step>, id: string)
    requires Inv(q.commands) && AllCreateQueued(steps)
    requires id in q.commands && q.commands[id].sentAt.Some?
    ensures id in Run(q, steps).commands && Run(q, steps).commands[id].sentAt == q.commands[id].sentAt
    decreases |steps|
  {
    if steps != [] {
      assert RowSound(q.commands[id]) && CreatesQueued(steps[0]);
      StepFollows(q, steps[0], id);
      StepKeepsInvIff(q, steps[0]);
      TailCreatesQueued(steps);
      SentTimeIsFinal(Next(q, steps[0]), steps[1..], id);
    }
  }

  // ---- Who is given a command, and when -----------------------------------------------

  /** The commands of the runtime that are past waiting and not finished. */
  ghost function Unfinished(commands: map<string, Command>, runtimeId: string): set<string> {
    set id | id in commands && commands[id].runtimeId == runtimeId && 0 < Rank(commands[id].status) < 4
  }

  /** The command waits, and was created before any other of the runtime that waits; ties go by id. */
  ghost predicate NextInLine(commands: map<string, Command>, runtimeId: string, id: string) {
    && id in commands && commands[id].runtimeId == runtimeId && commands[id].status == Queued
    && forall o :: o in commands && o != id && commands[o].runtimeId == runtimeId && commands[o].status == Queued ==>
         || commands[id].createdAt < commands[o].createdAt
         || (commands[id].createdAt == commands[o].createdAt && Less(id, o))
  }

  lemma InFlightIsUnfinished(commands: map<string, Command>, runtimeId: string)
    ensures InFlight(commands, runtimeId) == Unfinished(commands, runtimeId)
  {
    forall id | id in commands ensures IsInFlight(commands[id].status) <==> 0 < Rank(commands[id].status) < 4 {
      Phases(commands[id].status);
    }
  }

  lemma FirstIsNext(commands: map<string, Command>, runtimeId: string, id: string)
    ensures IsFirst(commands, runtimeId, id) <==> NextInLine(commands, runtimeId, id)
  {
    if NextInLine(commands, runtimeId, id) {
      forall o | IsWaiting(commands, runtimeId, o) && o != id ensures Earlier(commands, id, o) {
      }
    }
    if IsFirst(commands, runtimeId, id) {
      forall o | o in commands && o != id && commands[o].runtimeId == runtimeId && commands[o].status == Queued
        ensures || commands[id].createdAt < commands[o].createdAt
                || (commands[id].createdAt == commands[o].createdAt && Less(id, o))
      {
        assert IsWaiting(commands, runtimeId, o);
      }
    }
  }

  lemma DispatchedWhen(q: Queue, runtimeId: string, owner: string, at: int, limit: int, id: string)
    ensures Dispatched(q, Claim(runtimeId, owner, at, limit)) == Some(id)
            <==> runtimeId != "" && owner != "" && MayClaim(q, runtimeId, owner, limit)
                 && IsFirst(q.commands, runtimeId, id)
  {
    if IsFirst(q.commands, runtimeId, id) {
      forall o | IsFirst(q.commands, runtimeId, o) ensures o == id {
        FirstUnique(q.commands, runtimeId, o, id);
      }
    }
  }

  /**
   * A command is handed out exactly when the claimant is the recorded owner of the runtime's
   * connection, fewer than the limit are unfinished, and it is the next in line. A limit that is not
   * positive counts as one.
   */
  lemma DispatchedIff(q: Queue, runtimeId: string, owner: string, at: int, limit: int, id: string)
    ensures Dispatched(q, Claim(runtimeId, owner, at, limit)) == Some(id)
            <==>
            && runtimeId != "" && owner != "" && runtimeId in q.owners && q.owners[runtimeId] == owner
            && |Unfinished(q.commands, runtimeId)| < (if limit <= 0 then 1 else limit)
            && NextInLine(q.commands, runtimeId, id)
  {
    DispatchedWhen(q, runtimeId, owner, at, limit, id);
    InFlightIsUnfinished(q.commands, runtimeId);
    FirstIsNext(q.commands, runtimeId, id);
  }

  /** An owner with room is never turned away while a command waits. */
  lemma RoomMeansDispatch(q: Queue, runtimeId: string, owner: string, at: int, limit: int, waiting: string)
    requires runtimeId != "" && owner != "" && runtimeId in q.owners && q.owners[runtimeId] == owner
    requires |Unfinished(q.commands, runtimeId)| < (if limit <= 0 then 1 else limit)
    requires waiting in q.commands && q.commands[waiting].runtimeId == runtimeId
    requires q.commands[waiting].status == Queued
    ensures Dispatched(q, Claim(runtimeId, owner, at, limit)).Some?
  {
    var first := FirstExists(q.commands, runtimeId, waiting);
    FirstIsNext(q.commands, runtimeId, first);
    DispatchedIff(q, runtimeId, owner, at, limit, first);
  }

  /** While `a` waits, `b` behind it in the same line has not been sent. */
  predicate InLine(q: Queue, a: string, b: string) {
    && a in q.commands && b in q.commands
    && q.commands[a].runtimeId == q.commands[b].runtimeId
    && (|| q.commands[a].createdAt < q.commands[b].createdAt
        || (q.commands[a].createdAt == q.commands[b].createdAt && Less(a, b)))
    && (q.commands[a].status == Queued ==> q.commands[b].sentAt.None?)
  }

  lemma StepKeepsLine(q: Queue, step: Step, a: string, b: string)
    requires Inv(q.commands) && CreatesQueued(step) && InLine(q, a, b)
    ensures InLine(Next(q, step), a, b)
  {
    StepFollows(q, step, a);
    StepFollows(q, step, b);
    StepKeepsInvIff(q, step);
    assert RowSound(q.commands[a]) && RowSound(q.commands[b]);
    assert RowSound(Next(q, step).commands[a]) && RowSound(Next(q, step).commands[b]);
    if Dispatched(q, step) == Some(b) && q.commands[a].status == Queued {
      DispatchedIff(q, step.runtimeId, step.owner, step.at, step.limit, b);
      LessTotal(a, b);
    }
  }

  /**
   * First come, first served: of two commands of one runtime queued together, the later one is
   * never sent, in any run, while the earlier one still waits.
   */
  lemma {:induction false} FirstInFirstOut(q: Queue, steps: seq<Step>, a: string, b: string)
    requires Inv(q.commands) && AllCreateQueued(steps) && InLine(q, a, b)
    ensures InLine(Run(q, steps), a, b)
    decreases |steps|
  {
    if steps != [] {
      assert CreatesQueued(steps[0]);
      StepKeepsLine(q, steps[0], a, b);
      StepKeepsInvIff(q, steps[0]);
      TailCreatesQueued(steps);
      FirstInFirstOut(Next(q, steps[0]), steps[1..], a, b);
    }
  }

  // ---- The in-flight bound ------------------------------------------------------------

  lemma {:induction false} SubsetCount(a: set<string>, b: set<string>)
    requires a <= b
    ensures |a| <= |b|
    decreases a
  {
    if a != {} {
      var x := Member(a);
      SubsetCount(a - {x}, b - {x});
    }
  }

  /** Every claim on the runtime asks for at most `bound` commands in flight. */
  ghost predicate ClaimsWithin(steps: seq<Step>, runtimeId: string, bound: int) {
    forall i :: 0 <= i < |steps| ==> ClaimWithin(steps[i], runtimeId, bound)
  }

  predicate ClaimWithin(step: Step, runtimeId: string, bound: int) {
    step.Claim? && step.runtimeId == runtimeId ==> step.limit <= bound
  }

  lemma StepKeepsBound(q: Queue, step: Step, runtimeId: string, bound: int)
    requires CreatesQueued(step) && ClaimWithin(step, runtimeId, bound) && bound >= 1
    requires |Unfinished(q.commands, runtimeId)| <= bound
    ensures |Unfinished(CommandsAfter(q, step), runtimeId)| <= bound
  {
    var before, after := InFlight(q.commands, runtimeId), InFlight(CommandsAfter(q, step), runtimeId);
    InFlightIsUnfinished(q.commands, runtimeId);
    InFlightIsUnfinished(CommandsAfter(q, step), runtimeId);
    var extra := if step.Claim? && step.runtimeId == runtimeId && Dispatched(q, step).Some?
                 then {Dispatched(q, step).value} else {};
    forall id | id in after ensures id in before + extra {
      NewlyInFlight(q, step, runtimeId, id);
    }
    SubsetCount(after, before + extra);
    if extra != {} {
      DispatchedWhen(q, step.runtimeId, step.owner, step.at, step.limit, Dispatched(q, step).value);
    }
  }

  /** Only dispatch puts a command in flight. */
  lemma NewlyInFlight(q: Queue, step: Step, runtimeId: string, id: string)
    requires CreatesQueued(step) && id in InFlight(CommandsAfter(q, step), runtimeId)
    ensures id in InFlight(q.commands, runtimeId)
            || (step.Claim? && step.runtimeId == runtimeId && Dispatched(q, step) == Some(id))
  {
    if id in q.commands {
      StepFollows(q, step, id);
      if Dispatched(q, step) == Some(id) {
        DispatchedWhen(q, step.runtimeId, step.owner, step.at, step.limit, id);
      }
    } else {
      StepAdds(q, step, id);
    }
  }

  /** With claims serialised and limits at most `bound`, no run leaves more than `bound` unfinished. */
  lemma {:induction false} InFlightBounded(q: Queue, steps: seq<Step>, runtimeId: string, bound: int)
    requires AllCreateQueued(steps) && ClaimsWithin(steps, runtimeId, bound) && bound >= 1
    requires |Unfinished(q.commands, runtimeId)| <= bound
    ensures |Unfinished(Run(q, steps).commands, runtimeId)| <= bound
    decreases |steps|
  {
    if steps != [] {
      assert CreatesQueued(steps[0]) && ClaimWithin(steps[0], runtimeId, bound);
      StepKeepsBound(q, steps[0], runtimeId, bound);
      TailCreatesQueued(steps);
      forall i | 0 <= i < |steps[1..]| ensures ClaimWithin(steps[1..][i], runtimeId, bound) {
        assert steps[1..][i] == steps[i + 1];
      }
      InFlightBounded(Next(q, steps[0]), steps[1..], runtimeId, bound);
    }
  }

  // ---- Idempotency and deadlines ------------------------------------------------------

  /**
   * However long after and whatever happened since, creating a command again under the key of an
   * existing one returns the existing one and leaves the table alone.
   */
  lemma RepeatedKeyReturnsOriginal(q: Queue, steps: seq<Step>, id: string, n: NewCommand, now: int)
    requires Inv(q.commands) && AllCreateQueued(steps) && id in q.commands
    requires n.idempotencyKey != "" && HoldsKey(q.commands[id], n.runtimeId, n.idempotencyKey)
    requires n.status != Unknown && n.kind != UnknownKind
    ensures CreateCommand(Run(q, steps).commands, n, now) == Ok(Created(Run(q, steps).commands, id, true))
  {
    RunKeepsInv(q, steps);
    StatusNeverGoesBack(q, steps, id);
    var commands := Run(q, steps).commands;
    assert HoldsKey(commands[id], n.runtimeId, n.idempotencyKey);
    forall o | o in commands && HoldsKey(commands[o], n.runtimeId, n.idempotencyKey) ensures o == id {
    }
  }

  /** What creation reports as new is exactly what it inserts; a conflict is a taken id under a free key. */
  lemma InsertedIff(q: Queue, n: NewCommand, now: int)
    ensures (CreateCommand(q.commands, n, now).Ok? && !CreateCommand(q.commands, n, now).value.duplicate)
            <==> Inserts(q, Create(n, now))
    ensures CreateCommand(q.commands, n, now) == Err(Conflict)
            <==> && n.status != Unknown && n.kind != UnknownKind
                 && KeyFree(q.commands, n) && n.commandId in q.commands
    ensures CreateCommand(q.commands, n, now) == Err(ConstraintViolation)
            <==> n.status == Unknown || n.kind == UnknownKind
  {
    KeyFreeIff(q.commands, n);
  }

  /** After an expiry sweep, no unfinished command is past its deadline, and only overdue ones ended. */
  lemma ExpiryIsExact(commands: map<string, Command>, at: int, reason: string, id: string)
    requires RowsSound(commands) && id in commands
    ensures var c, after := commands[id], Timeout(commands, at, reason);
            && id in after && (Rank(after[id].status) == 4 || after[id].deadlineAt > at)
            && after[id] ==
                 if Rank(c.status) == 4 || c.deadlineAt > at then c
                 else c.(status := TimedOut, failureReason := reason, completedAt := Some(at), updatedAt := at)
  {
    assert RowSound(commands[id]);
    Phases(commands[id].status);
  }
}
