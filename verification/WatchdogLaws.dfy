/** The heartbeat watchdog: what one reap does, and what it can never do. */
module WatchdogLaws {
  import opened Wrappers
  import opened RegistryState
  import opened RegistryInvariant
  import opened AdmissionLaws
  import opened RegistryLaws

  /** The three grace periods the watchdog is configured with. */
  datatype Graces = Graces(heartbeat: int, death: int, bareDeath: int)

  /** One reap at service time `now`; the two updates read the database clock at `t1` and `t2`. */
  function Reap(s: Registry, g: Graces, now: int, t1: int, t2: int): Registry {
    var s1 := Settled(s, MarkStale(s, now - g.heartbeat, t1));
    Settled(s1, EndDead(s1, now - g.death, now - g.bareDeath, StaleHeartbeat, now, t2))
  }

  function DeathGrace(g: Graces, r: Runtime): int {
    if r.source == Bare then g.bareDeath else g.death
  }

  predicate Waiting(r: Runtime) {
    r.status in {Active, Starting, Paired}
  }

  predicate Silent(r: Runtime, now: int, grace: int) {
    LastSeen(r) < now - grace
  }

  /** The row is already unhealthy, and silent beyond its own source's death grace. */
  predicate DiesUnhealthy(r: Runtime, g: Graces, now: int) {
    r.status == Unhealthy && Silent(r, now, DeathGrace(g, r))
  }

  /**
   * The row goes stale in this very reap and is silent beyond its death grace too. A row without a
   * heartbeat is dated by its last update, which going stale has just refreshed to `t1`.
   */
  predicate DiesAtOnce(r: Runtime, g: Graces, now: int, t1: int) {
    && Waiting(r) && Silent(r, now, g.heartbeat)
    && (if r.heartbeatAt.Some? then r.heartbeatAt.value else t1) < now - DeathGrace(g, r)
  }

  /** The two steps of a reap, as steps of a run. */
  function ReapSteps(g: Graces, now: int, t1: int, t2: int): seq<Step> {
    [MarkStaleStep(now - g.heartbeat, t1),
     EndDeadStep(now - g.death, now - g.bareDeath, StaleHeartbeat, now, t2)]
  }

  lemma ReapIsRun(s: Registry, g: Graces, now: int, t1: int, t2: int)
    ensures Run(s, ReapSteps(g, now, t1, t2)) == Reap(s, g, now, t1, t2)
  {
    var a, b := ReapSteps(g, now, t1, t2)[0], ReapSteps(g, now, t1, t2)[1];
    assert ReapSteps(g, now, t1, t2)[1..] == [b] && [b][1..] == [];
    assert Run(Next(s, a), [b]) == Next(Next(s, a), b);
  }

  lemma {:induction false} RunAppend(s: Registry, a: seq<Step>, b: seq<Step>)
    ensures Run(s, a + b) == Run(Run(s, a), b)
    decreases |a|
  {
    if a == [] {
      assert a + b == b;
    } else {
      assert (a + b)[0] == a[0] && (a + b)[1..] == a[1..] + b;
      RunAppend(Next(s, a[0]), a[1..], b);
    }
  }

  /** The rows a reap marks, as its first update leaves them. */
  ghost predicate IsMarked(s: Registry, g: Graces, now: int, t1: int, stale: map<string, Runtime>) {
    && (forall id :: id in stale <==>
                       id in s.runtimes && Waiting(s.runtimes[id]) && Silent(s.runtimes[id], now, g.heartbeat))
    && (forall id :: id in stale ==> stale[id] == s.runtimes[id].(status := Unhealthy, updatedAt := t1))
  }

  /** Exactly the rows a reap ends: those already unhealthy, and those it has just marked. */
  ghost predicate IsEnded(s: Registry, g: Graces, now: int, t1: int, ended: map<string, Runtime>) {
    forall id :: id in ended <==>
      id in s.runtimes && (DiesUnhealthy(s.runtimes[id], g, now) || DiesAtOnce(s.runtimes[id], g, now, t1))
  }

  /** `stale` reports the rows that one marking update, from `s` to `s1`, has marked. */
  ghost predicate MarksStale(s: Registry, s1: Registry, cutoff: int, t1: int, stale: map<string, Runtime>) {
    && s1 == Settled(s, MarkStale(s, cutoff, t1))
    && (forall id :: id in stale <==> id in s.runtimes && GoesStale(s.runtimes[id], cutoff))
    && (forall id :: id in stale ==> id in s1.runtimes && stale[id] == s1.runtimes[id])
  }

  /** `ended` reports the rows that one ending update, from `s1` to `s2`, has ended. */
  ghost predicate EndsDead(
    s1: Registry, s2: Registry, defaultCutoff: int, bareCutoff: int, reason: EndedReason, endedAt: int, t2: int,
    ended: map<string, Runtime>)
  {
    && s2 == Settled(s1, EndDead(s1, defaultCutoff, bareCutoff, reason, endedAt, t2))
    && (forall id :: id in ended <==> id in s1.runtimes && GoesDead(s1.runtimes[id], defaultCutoff, bareCutoff))
    && (forall id :: id in ended ==> id in s2.runtimes && ended[id] == s2.runtimes[id])
  }

  /** The rows that go dead, as they stand in `after`. */
  function DeadRows(s: Registry, defaultCutoff: int, bareCutoff: int, after: map<string, Runtime>)
    : map<string, Runtime>
  {
    map id | id in s.runtimes && id in after && GoesDead(s.runtimes[id], defaultCutoff, bareCutoff) :: after[id]
  }

  lemma EndDeadRefusal(
    s: Registry, defaultCutoff: int, bareCutoff: int, reason: EndedReason, endedAt: int, t2: int)
    requires AnyDead(s, defaultCutoff, bareCutoff) && reason == NoReason
    ensures EndDead(s, defaultCutoff, bareCutoff, reason, endedAt, t2) == Err(ConstraintViolation)
  {
  }

  lemma DeadRowsAreReported(
    s: Registry, defaultCutoff: int, bareCutoff: int, reason: EndedReason, endedAt: int, t2: int)
    requires !(AnyDead(s, defaultCutoff, bareCutoff) && reason == NoReason)
    ensures EndDead(s, defaultCutoff, bareCutoff, reason, endedAt, t2).Ok?
    ensures var s' := EndDead(s, defaultCutoff, bareCutoff, reason, endedAt, t2).value;
            && s' == Registry(s'.runtimes, s.credentials)
            && s' == Settled(s, EndDead(s, defaultCutoff, bareCutoff, reason, endedAt, t2))
            && EndsDead(s, s', defaultCutoff, bareCutoff, reason, endedAt, t2,
                        DeadRows(s, defaultCutoff, bareCutoff, s'.runtimes))
  {
  }

  /** `stale` and `ended` report what one reap, from `s` to `s2`, has marked and ended. */
  ghost predicate Reaps(
    s: Registry, s2: Registry, g: Graces, now: int, t1: int, t2: int, stale: map<string, Runtime>,
    ended: map<string, Runtime>)
  {
    && s2 == Reap(s, g, now, t1, t2)
    && IsMarked(s, g, now, t1, stale)
    && IsEnded(s, g, now, t1, ended)
    && forall id :: id in ended ==> id in s2.runtimes && ended[id] == s2.runtimes[id]
  }

  lemma ReapReports(
    s: Registry, s1: Registry, s2: Registry, g: Graces, now: int, t1: int, t2: int, stale: map<string, Runtime>,
    ended: map<string, Runtime>)
    requires MarksStale(s, s1, now - g.heartbeat, t1, stale)
    requires EndsDead(s1, s2, now - g.death, now - g.bareDeath, StaleHeartbeat, now, t2, ended)
    ensures Reaps(s, s2, g, now, t1, t2, stale, ended)
  {
    ReapInSteps(s, s1, s2, g, now, t1, t2);
    MarkedAreReported(s, s1, g, now, t1, stale);
    EndedAreReported(s, s1, g, now, t1, ended);
  }

  lemma ReapInSteps(s: Registry, s1: Registry, s2: Registry, g: Graces, now: int, t1: int, t2: int)
    requires s1 == Settled(s, MarkStale(s, now - g.heartbeat, t1))
    requires s2 == Settled(s1, EndDead(s1, now - g.death, now - g.bareDeath, StaleHeartbeat, now, t2))
    ensures s2 == Reap(s, g, now, t1, t2)
  {
  }

  lemma MarkedAreReported(
    s: Registry, s1: Registry, g: Graces, now: int, t1: int, stale: map<string, Runtime>)
    requires MarksStale(s, s1, now - g.heartbeat, t1, stale)
    ensures IsMarked(s, g, now, t1, stale)
  {
    MarkedRows(s, s1, now - g.heartbeat, t1);
  }

  lemma EndedAreReported(
    s: Registry, s1: Registry, g: Graces, now: int, t1: int, ended: map<string, Runtime>)
    requires s1 == Settled(s, MarkStale(s, now - g.heartbeat, t1))
    requires forall id :: id in ended <==>
                            id in s1.runtimes && GoesDead(s1.runtimes[id], now - g.death, now - g.bareDeath)
    ensures IsEnded(s, g, now, t1, ended)
  {
    MarkedRows(s, s1, now - g.heartbeat, t1);
    forall id | id in s.runtimes
      ensures GoesDead(s1.runtimes[id], now - g.death, now - g.bareDeath)
              <==> DiesUnhealthy(s.runtimes[id], g, now) || DiesAtOnce(s.runtimes[id], g, now, t1)
    {
      assert s1.runtimes[id] == (if GoesStale(s.runtimes[id], now - g.heartbeat)
                                 then s.runtimes[id].(status := Unhealthy, updatedAt := t1) else s.runtimes[id]);
    }
  }

  lemma MarkedRows(s: Registry, s1: Registry, cutoff: int, t1: int)
    requires s1 == Settled(s, MarkStale(s, cutoff, t1))
    ensures s1.runtimes.Keys == s.runtimes.Keys
    ensures forall id :: id in s.runtimes ==>
              (s1.runtimes[id] == if GoesStale(s.runtimes[id], cutoff)
                                  then s.runtimes[id].(status := Unhealthy, updatedAt := t1) else s.runtimes[id])
  {
  }

  /** Exactly what a reap does to each row. */
  lemma ReapOutcome(s: Registry, g: Graces, now: int, t1: int, t2: int, id: string)
    requires id in s.runtimes
    ensures var r, s' := s.runtimes[id], Reap(s, g, now, t1, t2);
            && id in s'.runtimes
            && s'.runtimes[id] ==
                 (if DiesUnhealthy(r, g, now) || DiesAtOnce(r, g, now, t1)
                  then r.(status := HeartbeatStale, endedAt := Some(now), endedReason := StaleHeartbeat,
                          updatedAt := t2)
                  else if Waiting(r) && Silent(r, now, g.heartbeat) then r.(status := Unhealthy, updatedAt := t1)
                  else r)
            && s'.credentials == s.credentials && s'.runtimes.Keys == s.runtimes.Keys
  {
    var s1 := Settled(s, MarkStale(s, now - g.heartbeat, t1));
    assert s1.runtimes[id] ==
      (if GoesStale(s.runtimes[id], now - g.heartbeat)
       then s.runtimes[id].(status := Unhealthy, updatedAt := t1) else s.runtimes[id]);
  }

  /** After a reap, no runtime still counted as healthy was silent beyond the heartbeat grace. */
  lemma NoStaleAfterReap(s: Registry, g: Graces, now: int, t1: int, t2: int, id: string)
    requires id in Reap(s, g, now, t1, t2).runtimes
    ensures var r := Reap(s, g, now, t1, t2).runtimes[id];
            Waiting(r) ==> LastSeen(r) >= now - g.heartbeat
  {
    ReapDomain(s, g, now, t1, t2);
    ReapOutcome(s, g, now, t1, t2, id);
  }

  lemma ReapDomain(s: Registry, g: Graces, now: int, t1: int, t2: int)
    ensures Reap(s, g, now, t1, t2).runtimes.Keys == s.runtimes.Keys
  {
    var s1 := Settled(s, MarkStale(s, now - g.heartbeat, t1));
    assert s1.runtimes.Keys == s.runtimes.Keys;
    var s2 := Reap(s, g, now, t1, t2);
    assert s2.runtimes.Keys == s1.runtimes.Keys;
  }

  // ---- Safety over runs ---------------------------------------------------------------

  /** At every stale check of the run, the runtime, if it waits, has been seen since the check's cutoff. */
  ghost predicate SeenAtChecks(s: Registry, steps: seq<Step>, id: string)
    decreases |steps|
  {
    steps != [] ==>
      && (steps[0].MarkStaleStep? && id in s.runtimes && Waiting(s.runtimes[id]) ==>
            LastSeen(s.runtimes[id]) >= steps[0].cutoff)
      && SeenAtChecks(Next(s, steps[0]), steps[1..], id)
  }

  /** No admission in the run presents an unhealthy row. */
  predicate AdmitsHealthy(step: Step) {
    IsAdmission(step) ==> step.rt.status != Unhealthy
  }

  /** A runtime seen within the grace at every check is never unhealthy, at any point of any run. */
  lemma {:induction false} SeenRuntimeStaysHealthy(s: Registry, steps: seq<Step>, id: string)
    requires Inv(s) && id in s.runtimes && s.runtimes[id].status != Unhealthy
    requires SeenAtChecks(s, steps, id) && forall i :: 0 <= i < |steps| ==> AdmitsHealthy(steps[i])
    ensures id in Run(s, steps).runtimes && Run(s, steps).runtimes[id].status != Unhealthy
    decreases |steps|
  {
    if steps != [] {
      StepKeepsInv(s, steps[0]);
      StepKeepsRow(s, steps[0], id);
      StepKeepsHealthy(s, steps[0], id);
      forall i | 0 <= i < |steps[1..]| ensures AdmitsHealthy(steps[1..][i]) {
        assert steps[1..][i] == steps[i + 1];
      }
      SeenRuntimeStaysHealthy(Next(s, steps[0]), steps[1..], id);
    }
  }

  lemma StepKeepsHealthy(s: Registry, step: Step, id: string)
    requires Inv(s) && id in s.runtimes && s.runtimes[id].status != Unhealthy && AdmitsHealthy(step)
    requires step.MarkStaleStep? && Waiting(s.runtimes[id]) ==> LastSeen(s.runtimes[id]) >= step.cutoff
    ensures id in Next(s, step).runtimes && Next(s, step).runtimes[id].status != Unhealthy
  {
    if IsRowUpdate(step) {
      UpdateKeepsHealthy(s, step, id);
    } else if IsAdmission(step) {
      if Apply(s, step).Ok? {
        AdmissionWrites(s, step);
        WrittenRow(s.runtimes, Presented(step));
      }
    } else {
      CredentialStepKeepsInv(s, step);
    }
  }

  lemma UpdateKeepsHealthy(s: Registry, step: Step, id: string)
    requires IsRowUpdate(step) && id in s.runtimes && s.runtimes[id].status != Unhealthy
    requires step.MarkStaleStep? && Waiting(s.runtimes[id]) ==> LastSeen(s.runtimes[id]) >= step.cutoff
    ensures id in Next(s, step).runtimes && Next(s, step).runtimes[id].status != Unhealthy
  {
  }
}
