/** A concrete run of the command queue beside the registry. */
module CommandExamples {
  import opened Text
  import opened Wrappers
  import opened Commands
  import opened CommandLaws
  import opened CommandRepository
  import opened RegistryExamples
  import R = RegistryState
  import I = RegistryInvariant

  /** Ending a runtime takes no connection owner away. */
  lemma EndingKeepsOwners(s: R.Registry, id: string, reason: R.EndedReason, endedAt: int, now: int)
    ensures OwnersOf(R.Next(s, R.EndStep(id, reason, endedAt, now)).runtimes) == OwnersOf(s.runtimes)
  {
  }

  /** A command for runtime "r1", left for the queue to number and date. */
  function Stop(): NewCommand {
    NewCommand("c1", 7, "r1", "", StopSession, Unset, 100, "", 3, 3)
  }

  /** The runtime is admitted, connected to instance "cp1", and ended. */
  ghost function EndedRegistry(): R.Registry {
    R.Next(ConnectedRegistry(), R.EndStep("r1", R.UserCancelled, 3, 3))
  }

  ghost function ConnectedRegistry(): R.Registry {
    R.Run(I.EMPTY, [R.AdmitBareStep(Hello("r1", "", "bare-r1", R.Bare, 1), 1), R.RecordOwnerStep("r1", "cp1", 2, 2)])
  }

  lemma Connected()
    ensures "r1" in ConnectedRegistry().runtimes && R.Live(ConnectedRegistry().runtimes["r1"])
    ensures ConnectedRegistry().runtimes["r1"].ownerInstanceId == "cp1"
  {
    var hello := Hello("r1", "", "bare-r1", R.Bare, 1);
    var a, o := R.AdmitBareStep(hello, 1), R.RecordOwnerStep("r1", "cp1", 2, 2);
    NameIsStorable("bare-r1");
    NotBlank();
    RunTwo(I.EMPTY, a, o);
    assert R.Next(I.EMPTY, a).runtimes == map["r1" := hello];
  }

  lemma NotBlank()
    ensures TrimSpace("r1") != "" && TrimSpace("cp1") != ""
  {
    assert !IsSpace("r1"[0]) && !IsSpace("r1"[1]) && !IsSpace("cp1"[0]) && !IsSpace("cp1"[2]);
  }

  /** A command created after the runtime has ended is still handed to its recorded owner. */
  lemma EndedRuntimeIsStillServed()
    ensures var s := EndedRegistry();
            var q := Next(Queue(map[], OwnersOf(s.runtimes)), Create(Stop(), 3));
            && "r1" in s.runtimes && !R.Live(s.runtimes["r1"])
            && Dispatched(q, Claim("r1", "cp1", 4, 1)) == Some("c1")
  {
    hide Next, Dispatched, Stop, R.Next, R.Run;
    Connected();
    EndingKeepsOwners(ConnectedRegistry(), "r1", R.UserCancelled, 3, 3);
    EndingEnds(ConnectedRegistry(), "r1", R.UserCancelled, 3, 3);
    OnlyCommandIsFirst(OwnersOf(EndedRegistry().runtimes));
  }

  lemma EndingEnds(s: R.Registry, id: string, reason: R.EndedReason, endedAt: int, now: int)
    requires id in s.runtimes && reason != R.NoReason
    ensures var s' := R.Next(s, R.EndStep(id, reason, endedAt, now));
            id in s'.runtimes && !R.Live(s'.runtimes[id])
  {
  }

  lemma OnlyCommandIsFirst(owners: map<string, string>)
    requires "r1" in owners && owners["r1"] == "cp1"
    ensures Dispatched(Next(Queue(map[], owners), Create(Stop(), 3)), Claim("r1", "cp1", 4, 1)) == Some("c1")
  {
    var q := Next(Queue(map[], owners), Create(Stop(), 3));
    assert q == Queue(map["c1" := NewRow(Stop(), 3)], owners);
    assert InFlight(q.commands, "r1") == {};
    assert IsFirst(q.commands, "r1", "c1");
    DispatchedWhen(q, "r1", "cp1", 4, 1, "c1");
  }
}
