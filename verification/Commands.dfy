/** The durable command queue: its rows, and one function per repository method. */
module Commands {
  import opened Sets
  import opened Wrappers
  import opened Text
  import Calendar

  datatype CommandStatus = Queued | Sent | Acked | Running | Succeeded | Failed | TimedOut | Cancelled
  datatype CommandKind = StartSession | StopSession | FinishSession | ShutdownRuntime | StatusPatch | UnknownKind

  datatype Command = Command(
    userId: int,
    runtimeId: string,
    idempotencyKey: string,
    kind: CommandKind,
    status: CommandStatus,
    deadlineAt: int,
    sentAt: Option<int>,
    ackedAt: Option<int>,
    startedAt: Option<int>,
    completedAt: Option<int>,
    cancelledAt: Option<int>,
    attemptCount: int,
    failureReason: string,
    createdAt: int,
    updatedAt: int)

  /** The status a caller asks for; the empty string means "queued". */
  datatype StatusText = Unset | Named(status: CommandStatus) | Unknown

  datatype NewCommand = NewCommand(
    commandId: string,
    userId: int,
    runtimeId: string,
    idempotencyKey: string,
    kind: CommandKind,
    status: StatusText,
    deadlineAt: int,
    failureReason: string,
    createdAt: int,
    updatedAt: int)

  /** The command table by command id, and the connection owner of each registered runtime. */
  datatype Queue = Queue(commands: map<string, Command>, owners: map<string, string>)

  datatype QueueError = NotFound | Conflict | ConstraintViolation

  const ZERO_TIME := Calendar.YearStart(1)

  predicate IsTerminal(status: CommandStatus) {
    status in {Succeeded, Failed, TimedOut, Cancelled}
  }

  predicate IsInFlight(status: CommandStatus) {
    status in {Sent, Acked, Running}
  }

  // ---- Creation -----------------------------------------------------------------------

  function NormalizedCreatedAt(n: NewCommand, now: int): int {
    if n.createdAt == ZERO_TIME then now else n.createdAt
  }

  /** The row an insertion writes: the columns it does not name keep their defaults. */
  function NewRow(n: NewCommand, now: int): Command
    requires n.status != Unknown
  {
    var createdAt := NormalizedCreatedAt(n, now);
    Command(
      n.userId, n.runtimeId, n.idempotencyKey, n.kind,
      if n.status == Unset then Queued else n.status.status,
      n.deadlineAt, None, None, None, None, None, 0, n.failureReason, createdAt,
      if n.updatedAt == ZERO_TIME then createdAt else n.updatedAt)
  }

  predicate HoldsKey(c: Command, runtimeId: string, key: string) {
    c.runtimeId == runtimeId && c.idempotencyKey == key
  }

  predicate KeyUsed(commands: map<string, Command>, runtimeId: string, key: string) {
    key != "" && exists id :: id in commands && HoldsKey(commands[id], runtimeId, key)
  }

  datatype Created = Created(commands: map<string, Command>, commandId: string, duplicate: bool)

  /** INSERT ... ON CONFLICT (runtime_id, idempotency_key) DO NOTHING, then a look at what was there. */
  ghost function CreateCommand(commands: map<string, Command>, n: NewCommand, now: int): Result<Created, QueueError> {
    if n.status == Unknown || n.kind == UnknownKind then Err(ConstraintViolation)
    else if KeyUsed(commands, n.runtimeId, n.idempotencyKey) then
      var id :| id in commands && HoldsKey(commands[id], n.runtimeId, n.idempotencyKey);
      Ok(Created(commands, id, true))
    else if n.commandId in commands then Err(Conflict)
    else Ok(Created(commands[n.commandId := NewRow(n, now)], n.commandId, false))
  }

  // ---- Dispatch -----------------------------------------------------------------------

  function InFlight(commands: map<string, Command>, runtimeId: string): set<string> {
    set id | id in commands && commands[id].runtimeId == runtimeId && IsInFlight(commands[id].status)
  }

  predicate IsWaiting(commands: map<string, Command>, runtimeId: string, id: string) {
    id in commands && commands[id].runtimeId == runtimeId && commands[id].status == Queued
  }

  /** ORDER BY created_at ASC, command_id ASC. */
  predicate Earlier(commands: map<string, Command>, a: string, b: string)
    requires a in commands && b in commands
  {
    commands[a].createdAt < commands[b].createdAt || (commands[a].createdAt == commands[b].createdAt && Less(a, b))
  }

  ghost predicate IsFirst(commands: map<string, Command>, runtimeId: string, id: string) {
    && IsWaiting(commands, runtimeId, id)
    && forall o :: IsWaiting(commands, runtimeId, o) && o != id ==> Earlier(commands, id, o)
  }

  function EffectiveLimit(limit: int): nat {
    if limit <= 0 then 1 else limit
  }

  function SentRow(c: Command, at: int): Command {
    c.(status := Sent, sentAt := Some(at), attemptCount := c.attemptCount + 1, updatedAt := at)
  }

  datatype Claimed = Claimed(commands: map<string, Command>, commandId: Option<string>)

  /** `owner` may be given a command now: it holds the connection, and the runtime has room. */
  predicate MayClaim(q: Queue, runtimeId: string, owner: string, limit: int) {
    && runtimeId in q.owners && q.owners[runtimeId] == owner
    && |InFlight(q.commands, runtimeId)| < EffectiveLimit(limit)
  }

  ghost function ClaimNext(q: Queue, runtimeId: string, owner: string, at: int, limit: int)
    : Result<Claimed, QueueError>
  {
    if runtimeId == "" || owner == "" || runtimeId !in q.owners then Err(NotFound)
    else if !MayClaim(q, runtimeId, owner, limit) then Ok(Claimed(q.commands, None))
    else if exists id :: IsFirst(q.commands, runtimeId, id) then
      var id :| IsFirst(q.commands, runtimeId, id);
      Ok(Claimed(q.commands[id := SentRow(q.commands[id], at)], Some(id)))
    else Ok(Claimed(q.commands, None))
  }

  /** At most one command is first in line. */
  lemma FirstUnique(commands: map<string, Command>, runtimeId: string, a: string, b: string)
    requires IsFirst(commands, runtimeId, a) && IsFirst(commands, runtimeId, b)
    ensures a == b
  {
    LessTotal(a, b);
  }

  lemma EarlierTotal(commands: map<string, Command>, a: string, b: string)
    requires a in commands && b in commands
    ensures a == b || Earlier(commands, a, b) || Earlier(commands, b, a)
    ensures !(Earlier(commands, a, b) && Earlier(commands, b, a))
  {
    LessTotal(a, b);
  }

  lemma EarlierTransitive(commands: map<string, Command>, a: string, b: string, c: string)
    requires a in commands && b in commands && c in commands
    requires Earlier(commands, a, b) && Earlier(commands, b, c)
    ensures Earlier(commands, a, c)
  {
    if commands[a].createdAt == commands[b].createdAt == commands[c].createdAt {
      LessTransitive(a, b, c);
    }
  }

  /** A non-empty set of rows has an earliest one. */
  lemma {:induction false} EarliestExists(commands: map<string, Command>, s: set<string>) returns (first: string)
    requires s != {} && forall id :: id in s ==> id in commands
    ensures first in s
    ensures forall id :: id in s && id != first ==> Earlier(commands, first, id)
    decreases |s|
  {
    var some := Member(s);
    first := some;
    var others := s - {some};
    assert forall id :: id in s ==> id == some || id in others;
    if others != {} {
      var other := EarliestExists(commands, others);
      EarlierTotal(commands, some, other);
      first := if Earlier(commands, some, other) then some else other;
      forall id | id in s && id != first ensures Earlier(commands, first, id) {
        if id != some && id != other && first == some {
          EarlierTransitive(commands, some, other, id);
        }
      }
    }
  }

  /** Whenever a command waits, one is first in line. */
  lemma FirstExists(commands: map<string, Command>, runtimeId: string, waiting: string) returns (first: string)
    requires IsWaiting(commands, runtimeId, waiting)
    ensures IsFirst(commands, runtimeId, first)
  {
    var s := set id | id in commands && IsWaiting(commands, runtimeId, id);
    assert waiting in s;
    first := EarliestExists(commands, s);
  }

  // ---- Progress -----------------------------------------------------------------------

  function OrElse(t: Option<int>, at: int): Option<int> {
    if t.Some? then t else Some(at)
  }

  type Moved = Result<map<string, Command>, QueueError>

  function Acknowledge(commands: map<string, Command>, id: string, at: int): Moved {
    if id !in commands || commands[id].status !in {Sent, Acked} then Err(NotFound)
    else Ok(commands[id := commands[id].(
              status := Acked, ackedAt := OrElse(commands[id].ackedAt, at), updatedAt := at)])
  }

  function MarkRunning(commands: map<string, Command>, id: string, at: int): Moved {
    if id !in commands || !IsInFlight(commands[id].status) then Err(NotFound)
    else Ok(commands[id := commands[id].(
              status := Running, startedAt := OrElse(commands[id].startedAt, at), updatedAt := at)])
  }

  function FinishedRow(c: Command, status: CommandStatus, reason: string, at: int): Command {
    c.(status := status,
       failureReason := reason,
       completedAt := if status != Cancelled then OrElse(c.completedAt, at) else c.completedAt,
       cancelledAt := if status == Cancelled then OrElse(c.cancelledAt, at) else c.cancelledAt,
       updatedAt := at)
  }

  function Complete(commands: map<string, Command>, id: string, status: CommandStatus, reason: string, at: int): Moved {
    if !IsTerminal(status) then Err(Conflict)
    else if id !in commands || IsTerminal(commands[id].status) then Err(NotFound)
    else Ok(commands[id := FinishedRow(commands[id], status, reason, at)])
  }

  predicate IsOverdue(c: Command, at: int) {
    c.deadlineAt <= at && c.status in {Queued, Sent, Acked, Running}
  }

  function Timeout(commands: map<string, Command>, at: int, reason: string): map<string, Command> {
    map id | id in commands ::
      if IsOverdue(commands[id], at) then FinishedRow(commands[id], TimedOut, reason, at) else commands[id]
  }

  // ---- Runs ---------------------------------------------------------------------------

  datatype Step =
    | Create(command: NewCommand, now: int)
    | Claim(runtimeId: string, owner: string, at: int, limit: int)
    | Ack(id: string, at: int)
    | Start(id: string, at: int)
    | Finish(id: string, status: CommandStatus, reason: string, at: int)
    | Expire(at: int, reason: string)
    | ChangeOwners(owners: map<string, string>)  // whatever the registry does to connection owners

  function Kept(commands: map<string, Command>, moved: Moved): map<string, Command> {
    if moved.Ok? then moved.value else commands
  }

  ghost function CommandsAfter(q: Queue, step: Step): map<string, Command> {
    match step
    case Create(n, now) =>
      (match CreateCommand(q.commands, n, now) case Ok(c) => c.commands case Err(_) => q.commands)
    case Claim(runtimeId, owner, at, limit) =>
      (match ClaimNext(q, runtimeId, owner, at, limit) case Ok(c) => c.commands case Err(_) => q.commands)
    case Ack(id, at) => Kept(q.commands, Acknowledge(q.commands, id, at))
    case Start(id, at) => Kept(q.commands, MarkRunning(q.commands, id, at))
    case Finish(id, status, reason, at) => Kept(q.commands, Complete(q.commands, id, status, reason, at))
    case Expire(at, reason) => Timeout(q.commands, at, reason)
    case ChangeOwners(_) => q.commands
  }

  ghost function Next(q: Queue, step: Step): Queue {
    Queue(CommandsAfter(q, step), if step.ChangeOwners? then step.owners else q.owners)
  }

  ghost function Run(q: Queue, steps: seq<Step>): Queue
    decreases |steps|
  {
    if steps == [] then q else Run(Next(q, steps[0]), steps[1..])
  }
}
