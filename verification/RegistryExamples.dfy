/** Concrete runs that show where the conditions of the registry's laws are needed. */
module RegistryExamples {
  import opened Wrappers
  import opened Text
  import opened RegistryState
  import opened RegistryInvariant
  import opened RevocationLaws

  /** A runtime as the runtime channel admits it at time `at`. */
  function Hello(id: string, key: string, name: string, source: Source, at: int): Runtime {
    Runtime(id, key, 7, name, source, Executor, Active, Some(at), Some(at), None, NoReason, Some(at), "", None, None,
            at, at)
  }

  lemma NameIsStorable(name: string)
    requires name == "bare-r1" || name == "mine"
    ensures NameChecks(name)
  {
    assert forall i :: 0 <= i < |name| ==> IsAlnum(name[i]) || name[i] == '-';
  }

  /** An ended bare runtime is live again after it says hello once more. */
  lemma EndedBareRuntimeRevives()
    ensures var first, again := Hello("r1", "", "bare-r1", Bare, 1), Hello("r1", "", "bare-r1", Bare, 3);
            var steps := [AdmitBareStep(first, 1), EndStep("r1", UserCancelled, 2, 2), AdmitBareStep(again, 3)];
            && "r1" in Run(EMPTY, steps[..2]).runtimes && Run(EMPTY, steps[..2]).runtimes["r1"].status == Cancelled
            && "r1" in Run(EMPTY, steps).runtimes && Run(EMPTY, steps).runtimes["r1"].status == Active
  {
    var first, again := Hello("r1", "", "bare-r1", Bare, 1), Hello("r1", "", "bare-r1", Bare, 3);
    var a, e, b := AdmitBareStep(first, 1), EndStep("r1", UserCancelled, 2, 2), AdmitBareStep(again, 3);
    NameIsStorable("bare-r1");
    var s1 := Next(EMPTY, a);
    assert s1.runtimes == map["r1" := first];
    var s2 := Next(s1, e);
    assert s2.runtimes["r1"].status == Cancelled;
    var s3 := Next(s2, b);
    assert s3.runtimes["r1"].status == Active;
    RunTwo(EMPTY, a, e);
    assert [a, e, b][..2] == [a, e] && [a, e, b][1..] == [e, b] && [e, b][1..] == [b];
    RunTwo(s1, e, b);
  }

  lemma RunTwo(s: Registry, a: Step, b: Step)
    ensures Run(s, [a, b]) == Next(Next(s, a), b)
  {
    assert [a, b][1..] == [b] && [b][1..] == [];
    assert Run(Next(s, a), [b]) == Next(Next(s, a), b);
  }

  lemma TrimPadded()
    ensures TrimSpace(" k1") == "k1"
  {
    assert " k1"[1..] == "k1" && !IsSpace('k') && !IsSpace('1') && IsSpace(' ');
  }

  function Unused(): Credential {
    Credential(7, Executor, Issued, None, None, "", None, None, None, false)
  }

  function PaddedHello(): Runtime {
    Hello("r1", " k1", "mine", SelfHosted, 1)
  }

  lemma PaddedIsAdmitted()
    ensures var s := Registry(map[], map["k1" := Unused()]);
            AdmitSelfHosted(s, PaddedHello(), 1)
            == Ok(Registry(map["r1" := PaddedHello()],
                           map["k1" := Unused().(status := Consumed, consumedAt := Some(1), consumedRuntimeId := "r1",
                                                 lastUsedAt := Some(1))]))
  {
    TrimPadded();
    NameIsStorable("mine");
    assert Upsert(map[], PaddedHello()) == Ok(map["r1" := PaddedHello()]);
    var spent := Unused().(status := Consumed, consumedAt := Some(1), consumedRuntimeId := "r1", lastUsedAt := Some(1));
    assert map["k1" := Unused()]["k1" := spent] == map["k1" := spent];
    assert Consume(map["k1" := Unused()], PaddedHello(), 1) == Ok(map["k1" := spent]);
  }

  lemma PaddedSurvives(s: Registry)
    requires s.runtimes == map["r1" := PaddedHello()] && "k1" in s.credentials && s.credentials["k1"].userId == 7
    requires s.credentials["k1"].status == Consumed
    ensures var s' := RevokeAndEnd(s, "k1", 7, 2, 2);
            && "k1" in s'.credentials && s'.credentials["k1"].status == Revoked
            && "r1" in s'.runtimes && s'.runtimes["r1"] == PaddedHello()
  {
    assert " k1"[0] != "k1"[0];
    RevokedAndEnded(s, "k1", 7, 2, 2);
  }

  /**
   * Called directly with a padded key, which the service never does, the repository admits the
   * runtime on the credential but does not end it when the credential is revoked.
   */
  lemma PaddedRowOutlivesRevocation()
    ensures var s := Run(EMPTY, [Issue("k1", Unused()), AdmitSelfHostedStep(PaddedHello(), 1)]);
            var s' := RevokeAndEnd(s, "k1", 7, 2, 2);
            && "k1" in s'.credentials && s'.credentials["k1"].status == Revoked
            && "r1" in s'.runtimes && Live(s'.runtimes["r1"]) && KeyOf(s'.runtimes["r1"]) == "k1"
  {
    var i, a := Issue("k1", Unused()), AdmitSelfHostedStep(PaddedHello(), 1);
    var s1 := Next(EMPTY, i);
    assert s1 == Registry(map[], map["k1" := Unused()]);
    PaddedIsAdmitted();
    RunTwo(EMPTY, i, a);
    PaddedSurvives(Next(s1, a));
    TrimPadded();
  }
}
