/** The watchdog over whole runs: who it leaves alone, and who it ends. */
module WatchdogRuns {
  import opened Wrappers
  import opened RegistryState
  import opened RegistryInvariant
  import opened AdmissionLaws
  import opened WatchdogLaws

  // ---- Safety under a clock -----------------------------------------------------------

  predicate Beats(step: Step, id: string) {
    step.HeartbeatStep? && step.id == id
  }

  /** The step reads the clock at `t`: checks look back by the grace, and `id` is seen at `t`. */
  predicate ClockedStep(step: Step, t: int, id: string, grace: int) {
    && (step.MarkStaleStep? ==> step.cutoff == t - grace)
    && (Beats(step, id) ==> step.at == t)
    && (IsAdmission(step) && step.rt.runtimeId == id ==> step.rt.heartbeatAt == Some(t))
  }

  /** Every step reads a clock that starts at `start` and never goes back. */
  ghost predicate Clocked(steps: seq<Step>, times: seq<int>, id: string, grace: int, start: int) {
    && |times| == |steps|
    && (forall i :: 0 <= i < |steps| ==> start <= times[i] && ClockedStep(steps[i], times[i], id, grace))
    && (forall i, j :: 0 <= i < j < |times| ==> times[i] <= times[j])
  }

  /** At every check, the latest heartbeat (the last before the run was at `last`) is within the grace. */
  ghost predicate Paced(steps: seq<Step>, times: seq<int>, id: string, grace: int, last: int)
    requires |times| == |steps|
  {
    forall i :: 0 <= i < |steps| && steps[i].MarkStaleStep? ==>
      times[i] - last <= grace || BeatWithin(steps, times, id, grace, i)
  }

  ghost predicate BeatWithin(steps: seq<Step>, times: seq<int>, id: string, grace: int, i: nat)
    requires |times| == |steps| && i < |steps|
  {
    exists j :: 0 <= j < i && Beats(steps[j], id) && times[i] - times[j] <= grace
  }

  /** If it is live at all, the runtime has sent a heartbeat, the latest not before `last`. */
  predicate SeenSince(s: Registry, id: string, last: int) {
    id in s.runtimes && (Live(s.runtimes[id]) ==>
      s.runtimes[id].heartbeatAt.Some? && s.runtimes[id].heartbeatAt.value >= last)
  }

  lemma UpdateKeepsSeen(s: Registry, step: Step, t: int, id: string, grace: int, last: int)
    requires IsRowUpdate(step) && SeenSince(s, id, last) && ClockedStep(step, t, id, grace) && last <= t
    ensures SeenSince(Next(s, step), id, if Beats(step, id) then t else last)
  {
  }

  lemma AdmissionKeepsSeen(s: Registry, step: Step, t: int, id: string, grace: int, last: int)
    requires Inv(s) && IsAdmission(step) && Apply(s, step).Ok?
    requires SeenSince(s, id, last) && ClockedStep(step, t, id, grace) && last <= t
    ensures SeenSince(Next(s, step), id, last)
  {
    AdmissionWrites(s, step);
    WrittenRow(s.runtimes, Presented(step));
  }

  lemma StepKeepsSeen(s: Registry, step: Step, t: int, id: string, grace: int, last: int)
    requires Inv(s) && SeenSince(s, id, last) && ClockedStep(step, t, id, grace) && last <= t
    ensures SeenSince(Next(s, step), id, if Beats(step, id) then t else last)
  {
    if IsRowUpdate(step) {
      UpdateKeepsSeen(s, step, t, id, grace, last);
    } else if IsAdmission(step) {
      if Apply(s, step).Ok? {
        AdmissionKeepsSeen(s, step, t, id, grace, last);
      }
    } else {
      CredentialStepKeepsInv(s, step);
    }
  }

  lemma TailClocked(steps: seq<Step>, times: seq<int>, id: string, grace: int, start: int)
    requires steps != [] && Clocked(steps, times, id, grace, start)
    ensures Clocked(steps[1..], times[1..], id, grace, times[0])
  {
    forall i | 0 <= i < |steps[1..]|
      ensures times[0] <= times[1..][i] && ClockedStep(steps[1..][i], times[1..][i], id, grace)
    {
      assert steps[1..][i] == steps[i + 1] && times[1..][i] == times[i + 1];
    }
  }

  lemma TailPaced(steps: seq<Step>, times: seq<int>, id: string, grace: int, last: int)
    requires steps != [] && Clocked(steps, times, id, grace, last) && Paced(steps, times, id, grace, last)
    ensures Paced(steps[1..], times[1..], id, grace, if Beats(steps[0], id) then times[0] else last)
  {
    var last' := if Beats(steps[0], id) then times[0] else last;
    var steps', times' := steps[1..], times[1..];
    forall i | 0 <= i < |steps'| && steps'[i].MarkStaleStep?
      ensures times'[i] - last' <= grace || BeatWithin(steps', times', id, grace, i)
    {
      assert steps'[i] == steps[i + 1] && times'[i] == times[i + 1];
      if times[i + 1] - last > grace {
        assert BeatWithin(steps, times, id, grace, i + 1);
        var j :| 0 <= j < i + 1 && Beats(steps[j], id) && times[i + 1] - times[j] <= grace;
        if j > 0 {
          assert steps'[j - 1] == steps[j] && times'[j - 1] == times[j];
        }
      }
    }
  }

  /** A runtime whose heartbeats keep pace has been seen since the cutoff at every check of the run. */
  lemma {:induction false} PacedIsSeen(
    s: Registry, steps: seq<Step>, times: seq<int>, id: string, grace: int, last: int, start: int)
    requires Inv(s) && SeenSince(s, id, last) && last <= start
    requires Clocked(steps, times, id, grace, start) && Paced(steps, times, id, grace, last)
    ensures SeenAtChecks(s, steps, id)
    decreases |steps|
  {
    if steps != [] {
      var last' := if Beats(steps[0], id) then times[0] else last;
      assert last <= times[0] && ClockedStep(steps[0], times[0], id, grace);
      if steps[0].MarkStaleStep? {
        assert !BeatWithin(steps, times, id, grace, 0);
      }
      StepKeepsSeen(s, steps[0], times[0], id, grace, last);
      StepKeepsInv(s, steps[0]);
      assert Clocked(steps, times, id, grace, last);
      TailClocked(steps, times, id, grace, start);
      TailPaced(steps, times, id, grace, last);
      PacedIsSeen(Next(s, steps[0]), steps[1..], times[1..], id, grace, last', times[0]);
    }
  }

  /**
   * Under a clock that never goes back, a runtime that beats at least once in every grace period
   * is never marked unhealthy, whatever else happens in the run.
   */
  lemma BeatingRuntimeStaysHealthy(
    s: Registry, steps: seq<Step>, times: seq<int>, id: string, grace: int, last: int)
    requires Inv(s) && SeenSince(s, id, last) && s.runtimes[id].status != Unhealthy
    requires Clocked(steps, times, id, grace, last) && Paced(steps, times, id, grace, last)
    requires forall i :: 0 <= i < |steps| ==> AdmitsHealthy(steps[i])
    ensures id in Run(s, steps).runtimes && Run(s, steps).runtimes[id].status != Unhealthy
  {
    PacedIsSeen(s, steps, times, id, grace, last, last);
    SeenRuntimeStaysHealthy(s, steps, id);
  }

  // ---- Progress for a runtime that has sent a heartbeat --------------------------------

  /** The step can make `id` look alive again. */
  predicate Wakes(step: Step, id: string) {
    Beats(step, id) || (IsAdmission(step) && step.rt.runtimeId == id)
  }

  ghost predicate NeverWoken(steps: seq<Step>, id: string) {
    forall i :: 0 <= i < |steps| ==> !Wakes(steps[i], id)
  }

  lemma TailNeverWoken(steps: seq<Step>, id: string)
    requires steps != [] && NeverWoken(steps, id)
    ensures !Wakes(steps[0], id) && NeverWoken(steps[1..], id)
  {
    forall i | 0 <= i < |steps[1..]| ensures !Wakes(steps[1..][i], id) {
      assert steps[1..][i] == steps[i + 1];
    }
  }

  /** What an unwoken row keeps: its heartbeat, its source, and being ended or unhealthy. */
  predicate Sleeps(r: Runtime, r': Runtime) {
    && r'.heartbeatAt == r.heartbeatAt && r'.source == r.source
    && (!Live(r) ==> !Live(r'))
    && (r.status == Unhealthy ==> r'.status == Unhealthy || !Live(r'))
  }

  lemma UpdateKeepsAsleep(s: Registry, step: Step, id: string)
    requires IsRowUpdate(step) && id in s.runtimes && !Wakes(step, id)
    ensures id in Next(s, step).runtimes && Sleeps(s.runtimes[id], Next(s, step).runtimes[id])
  {
  }

  lemma StepKeepsAsleep(s: Registry, step: Step, id: string)
    requires Inv(s) && id in s.runtimes && !Wakes(step, id)
    ensures id in Next(s, step).runtimes && Sleeps(s.runtimes[id], Next(s, step).runtimes[id])
  {
    if IsRowUpdate(step) {
      UpdateKeepsAsleep(s, step, id);
    } else if IsAdmission(step) {
      if Apply(s, step).Ok? {
        AdmissionWrites(s, step);
        WrittenRow(s.runtimes, Presented(step));
        assert Next(s, step).runtimes[id] == s.runtimes[id];
      }
    } else {
      CredentialStepKeepsInv(s, step);
    }
  }

  lemma {:induction false} RunKeepsAsleep(s: Registry, steps: seq<Step>, id: string)
    requires Inv(s) && id in s.runtimes && NeverWoken(steps, id)
    ensures id in Run(s, steps).runtimes && Sleeps(s.runtimes[id], Run(s, steps).runtimes[id])
    decreases |steps|
  {
    if steps != [] {
      TailNeverWoken(steps, id);
      StepKeepsAsleep(s, steps[0], id);
      StepKeepsInv(s, steps[0]);
      RunKeepsAsleep(Next(s, steps[0]), steps[1..], id);
    }
  }

  /**
   * A runtime last heard of at `beat` is ended by the first reap that comes later than both graces,
   * whatever happened in between, unless it was heard of or admitted again. If nothing else had
   * ended it, it ends as heartbeat-stale at the time of that reap.
   */
  lemma SilentRuntimeEnds(
    s: Registry, steps: seq<Step>, id: string, beat: int, g: Graces, now: int, t1: int, t2: int)
    requires Inv(s) && id in s.runtimes && s.runtimes[id].heartbeatAt == Some(beat) && NeverWoken(steps, id)
    requires beat < now - g.heartbeat && beat < now - DeathGrace(g, s.runtimes[id])
    ensures var s1, s2 := Run(s, steps), Run(s, steps + ReapSteps(g, now, t1, t2));
            && id in s1.runtimes && id in s2.runtimes && !Live(s2.runtimes[id])
            && (Live(s1.runtimes[id]) ==>
                  s2.runtimes[id].status == HeartbeatStale && s2.runtimes[id].endedAt == Some(now))
  {
    RunKeepsAsleep(s, steps, id);
    RunAppend(s, steps, ReapSteps(g, now, t1, t2));
    ReapIsRun(Run(s, steps), g, now, t1, t2);
    ReapEndsSilent(Run(s, steps), id, beat, g, now, t1, t2);
  }

  lemma ReapEndsSilent(s: Registry, id: string, beat: int, g: Graces, now: int, t1: int, t2: int)
    requires id in s.runtimes && s.runtimes[id].heartbeatAt == Some(beat)
    requires beat < now - g.heartbeat && beat < now - DeathGrace(g, s.runtimes[id])
    ensures var s' := Reap(s, g, now, t1, t2);
            && id in s'.runtimes
            && (if Live(s.runtimes[id])
                then s'.runtimes[id].status == HeartbeatStale && s'.runtimes[id].endedAt == Some(now)
                else s'.runtimes[id] == s.runtimes[id])
  {
    ReapOutcome(s, g, now, t1, t2, id);
    WaitingOrUnhealthy(s.runtimes[id]);
  }

  lemma WaitingOrUnhealthy(r: Runtime)
    ensures Live(r) <==> Waiting(r) || r.status == Unhealthy
  {
    LiveStatuses(r.status);
  }

  // ---- Progress for a runtime that never sent one --------------------------------------

  /** Whatever the step does to keep `id` up to date, it does no later than `until`. */
  predicate TouchesBy(step: Step, id: string, until: int) {
    && (step.RecordOwnerStep? && step.id == id ==> step.now <= until)
    && (step.ClearOwnerStep? && step.id == id ==> step.now <= until)
    && (step.TouchRowStep? && step.id == id ==> step.now <= until)
  }

  /** A stale check that might mark `id` runs no later than `until`. */
  predicate ChecksBy(step: Step, until: int) {
    step.MarkStaleStep? ==> step.now <= until
  }

  ghost predicate AllTouchBy(steps: seq<Step>, id: string, until: int) {
    forall i :: 0 <= i < |steps| ==> TouchesBy(steps[i], id, until)
  }

  ghost predicate AllCheckBy(steps: seq<Step>, until: int) {
    forall i :: 0 <= i < |steps| ==> ChecksBy(steps[i], until)
  }

  lemma TailQuiet(steps: seq<Step>, id: string, until: int)
    requires steps != []
    ensures AllTouchBy(steps, id, until) ==> TouchesBy(steps[0], id, until) && AllTouchBy(steps[1..], id, until)
    ensures AllCheckBy(steps, until) ==> ChecksBy(steps[0], until) && AllCheckBy(steps[1..], until)
  {
    forall i | 0 <= i < |steps[1..]| ensures steps[1..][i] == steps[i + 1] {
    }
  }

  /** If it is live at all, the runtime has no heartbeat and was last written by `until`. */
  predicate QuietSince(r: Runtime, until: int) {
    r.heartbeatAt.None? && (Live(r) ==> r.updatedAt <= until)
  }

  lemma UpdateKeepsQuiet(s: Registry, step: Step, id: string, until: int)
    requires IsRowUpdate(step) && id in s.runtimes && !Wakes(step, id) && QuietSince(s.runtimes[id], until)
    requires TouchesBy(step, id, until) && (ChecksBy(step, until) || !Waiting(s.runtimes[id]))
    ensures id in Next(s, step).runtimes && QuietSince(Next(s, step).runtimes[id], until)
  {
  }

  lemma StepKeepsQuiet(s: Registry, step: Step, id: string, until: int)
    requires Inv(s) && id in s.runtimes && !Wakes(step, id) && QuietSince(s.runtimes[id], until)
    requires TouchesBy(step, id, until) && (ChecksBy(step, until) || !Waiting(s.runtimes[id]))
    ensures id in Next(s, step).runtimes && QuietSince(Next(s, step).runtimes[id], until)
  {
    if IsRowUpdate(step) {
      UpdateKeepsQuiet(s, step, id, until);
    } else if IsAdmission(step) {
      if Apply(s, step).Ok? {
        AdmissionWrites(s, step);
        WrittenRow(s.runtimes, Presented(step));
        assert Next(s, step).runtimes[id] == s.runtimes[id];
      }
    } else {
      CredentialStepKeepsInv(s, step);
    }
  }

  /** Stale checks date a waiting row anew, so they count until the row is marked, and not after. */
  lemma {:induction false} RunKeepsQuiet(s: Registry, steps: seq<Step>, id: string, until: int)
    requires Inv(s) && id in s.runtimes && NeverWoken(steps, id) && QuietSince(s.runtimes[id], until)
    requires AllTouchBy(steps, id, until) && (AllCheckBy(steps, until) || !Waiting(s.runtimes[id]))
    ensures id in Run(s, steps).runtimes && QuietSince(Run(s, steps).runtimes[id], until)
    decreases |steps|
  {
    if steps != [] {
      TailNeverWoken(steps, id);
      TailQuiet(steps, id, until);
      StepKeepsQuiet(s, steps[0], id, until);
      StepKeepsAsleep(s, steps[0], id);
      WaitingOrUnhealthy(s.runtimes[id]);
      WaitingOrUnhealthy(Next(s, steps[0]).runtimes[id]);
      StepKeepsInv(s, steps[0]);
      RunKeepsQuiet(Next(s, steps[0]), steps[1..], id, until);
    }
  }

  /** A reap marks the quiet runtime, if nothing had, and dates it by that mark. */
  lemma ReapMarksQuiet(s: Registry, id: string, until: int, g: Graces, now: int, t1: int, t2: int)
    requires id in s.runtimes && QuietSince(s.runtimes[id], until) && until < now - g.heartbeat && until <= t1
    ensures var s' := Reap(s, g, now, t1, t2);
            id in s'.runtimes && QuietSince(s'.runtimes[id], t1) && !Waiting(s'.runtimes[id])
  {
    ReapOutcome(s, g, now, t1, t2, id);
    WaitingOrUnhealthy(s.runtimes[id]);
  }

  /** A reap ends a marked runtime exactly when it is silent beyond its death grace. */
  lemma UnhealthyEndsWhenSilent(s: Registry, g: Graces, now: int, t1: int, t2: int, id: string)
    requires id in s.runtimes && s.runtimes[id].status == Unhealthy
    ensures var s' := Reap(s, g, now, t1, t2);
            && id in s'.runtimes
            && (!Live(s'.runtimes[id]) <==> Silent(s.runtimes[id], now, DeathGrace(g, s.runtimes[id])))
  {
    ReapOutcome(s, g, now, t1, t2, id);
  }

  /** The phases of the life of a runtime that never sends a heartbeat: until marked, and until ended. */
  ghost predicate NeverSeen(
    s: Registry, waiting: seq<Step>, until: int, t1: int, marked: seq<Step>, until': int, id: string)
  {
    && Inv(s) && id in s.runtimes && QuietSince(s.runtimes[id], until)
    && NeverWoken(waiting, id) && AllTouchBy(waiting, id, until) && AllCheckBy(waiting, until)
    && NeverWoken(marked, id) && AllTouchBy(marked, id, until')
    && until <= t1 <= until'
  }

  lemma MarkedByFirstReap(
    s: Registry, waiting: seq<Step>, until: int, g: Graces, now: int, t1: int, t2: int, marked: seq<Step>,
    until': int, id: string)
    requires NeverSeen(s, waiting, until, t1, marked, until', id) && until < now - g.heartbeat
    ensures var s1 := Reap(Run(s, waiting), g, now, t1, t2);
            && Inv(s1) && id in s1.runtimes && QuietSince(s1.runtimes[id], until') && !Waiting(s1.runtimes[id])
            && s1.runtimes[id].source == s.runtimes[id].source
  {
    RunKeepsInv(s, waiting);
    RunKeepsQuiet(s, waiting, id, until);
    RunKeepsAsleep(s, waiting, id);
    var s0 := Run(s, waiting);
    ReapMarksQuiet(s0, id, until, g, now, t1, t2);
    ReapOutcome(s0, g, now, t1, t2, id);
    ReapIsRun(s0, g, now, t1, t2);
    RunKeepsInv(s0, ReapSteps(g, now, t1, t2));
  }

  /**
   * A runtime that never sends a heartbeat is dated by the last write to its row. The first reap
   * later than the heartbeat grace leaves it marked or ended; and the first reap later than its
   * death grace, counted from that mark and from any write since, leaves it ended, whatever else
   * happened before, between and since.
   */
  lemma NeverSeenRuntimeEnds(
    s: Registry, waiting: seq<Step>, until: int, g: Graces, now: int, t1: int, t2: int,
    marked: seq<Step>, until': int, now': int, t1': int, t2': int, id: string)
    requires NeverSeen(s, waiting, until, t1, marked, until', id)
    requires until < now - g.heartbeat && until' < now' - DeathGrace(g, s.runtimes[id])
    ensures var run := waiting + ReapSteps(g, now, t1, t2) + marked + ReapSteps(g, now', t1', t2');
            id in Run(s, run).runtimes && !Live(Run(s, run).runtimes[id])
  {
    MarkedByFirstReap(s, waiting, until, g, now, t1, t2, marked, until', id);
    var s1 := Reap(Run(s, waiting), g, now, t1, t2);
    RunKeepsQuiet(s1, marked, id, until');
    RunKeepsAsleep(s1, marked, id);
    var s2 := Run(s1, marked);
    WaitingOrUnhealthy(s1.runtimes[id]);
    ReapEndsMarked(s2, id, until', g, now', t1', t2');
    FourParts(s, waiting, g, now, t1, t2, marked, now', t1', t2');
  }

  lemma ReapEndsMarked(s: Registry, id: string, until: int, g: Graces, now: int, t1: int, t2: int)
    requires id in s.runtimes && QuietSince(s.runtimes[id], until)
    requires s.runtimes[id].status == Unhealthy || !Live(s.runtimes[id])
    requires until < now - DeathGrace(g, s.runtimes[id])
    ensures id in Reap(s, g, now, t1, t2).runtimes && !Live(Reap(s, g, now, t1, t2).runtimes[id])
  {
    ReapOutcome(s, g, now, t1, t2, id);
  }

  lemma FourParts(
    s: Registry, a: seq<Step>, g: Graces, now: int, t1: int, t2: int, b: seq<Step>, now': int, t1': int, t2': int)
    ensures Run(s, a + ReapSteps(g, now, t1, t2) + b + ReapSteps(g, now', t1', t2'))
         == Reap(Run(Reap(Run(s, a), g, now, t1, t2), b), g, now', t1', t2')
  {
    var r, r' := ReapSteps(g, now, t1, t2), ReapSteps(g, now', t1', t2');
    RunAppend(s, a + r + b, r');
    RunAppend(s, a + r, b);
    RunAppend(s, a, r);
    ReapIsRun(Run(s, a), g, now, t1, t2);
    ReapIsRun(Run(s, a + r + b), g, now', t1', t2');
  }
}
