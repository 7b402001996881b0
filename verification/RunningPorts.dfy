/** Host ports of what runs after a round. A rejection only keeps an application from being started: one that
    runs the wanted version already goes on, and with it its host ports. */
module RunningPorts {
  import opened Model
  import opened AppLists
  import opened Reconcile
  import opened InitRound
  import opened Round
  import opened RoundRefines
  import opened Ports
  import opened PortExclusion
  import opened PortSurvival

  // a core round that nothing fails in
  ghost predicate CleanRound(running: Running, desire: seq<AppInfo>, listed: seq<AppInfo>, report: seq<AppInfo>,
                             delete: bool, env: Surroundings, stats: map<string, AppStats>, trace: Trace) {
    && WellFormed(env) && Collected(report, listed, desire, trace.order, running)
    && RoundGoes(PlanOf(Core, desire, report), Filtered(Core, desire), delete, env, stats, true, trace)
    && forall i :: 0 <= i < |trace.log| ==> trace.log[i].outcome == Done
  }

  // the applications the port check of the round rejects
  ghost function Rejected(desire: seq<AppInfo>, env: Surroundings, stats: map<string, AppStats>, trace: Trace):
    set<string>
    requires env.appData.Some?
  {
    Checked(Filtered(Core, desire), env.appData.value, stats, trace.ports).del
  }

  /** A managed desired application runs its wanted version after a clean core round exactly when it was not rejected
      or ran it before. */
  lemma {:induction false} RunsRightExactly(running: Running, desire: seq<AppInfo>, listed: seq<AppInfo>,
                                            report: seq<AppInfo>, delete: bool, env: Surroundings,
                                            stats: map<string, AppStats>, trace: Trace, n: string)
    requires CleanRound(running, desire, listed, report, delete, env, stats, trace)
    requires Managed(Core, n) && n in Wanted(desire)
    ensures Agree(Replay(running, trace.log), Wanted(desire), n) <==>
            n !in Rejected(desire, env, stats, trace) || Agree(running, Wanted(desire), n)
  {
    PlannedStartExactly(running, desire, listed, report, delete, env, stats, trace, n);
    var log := trace.log;
    var i := ReplayAt(running, log, n);
    if Covers(log, n) {
      assert log[i].op.Start? && n in trace.plan.start;
    }
  }

  // what the round plans for such an application, and that it carries the plan out
  lemma {:induction false} PlannedStartExactly(running: Running, desire: seq<AppInfo>, listed: seq<AppInfo>,
                                               report: seq<AppInfo>, delete: bool, env: Surroundings,
                                               stats: map<string, AppStats>, trace: Trace, n: string)
    requires CleanRound(running, desire, listed, report, delete, env, stats, trace)
    requires Managed(Core, n) && n in Wanted(desire)
    ensures n !in trace.plan.stop
    ensures n in trace.plan.start <==>
            !Agree(running, Wanted(desire), n) && n !in Rejected(desire, env, stats, trace)
    ensures n in trace.plan.start ==> trace.plan.start[n] == Wanted(desire)[n] && Covers(trace.log, n)
  {
    CollectedIsAccurate(report, listed, desire, trace.order, running);
    CorePlanExactly(desire, report, running, n);
  }

  // a managed desired application whose wanted version claims the port
  ghost predicate Claims(desire: seq<AppInfo>, env: Surroundings, n: string, p: int)
    requires env.appData.Some?
  {
    && Managed(Core, n) && n in Wanted(desire)
    && n in env.appData.value && p in HostPorts(env.appData.value[n].services)
  }

  /** Exactly when two applications that claim one host port both run their wanted versions after the round: every
      rejected one of them ran it before. At least one of them is rejected. */
  lemma {:induction false} PortSharedExactly(running: Running, desire: seq<AppInfo>, listed: seq<AppInfo>,
                                             report: seq<AppInfo>, delete: bool, env: Surroundings,
                                             stats: map<string, AppStats>, trace: Trace, n: string, m: string, p: int)
    requires CleanRound(running, desire, listed, report, delete, env, stats, trace)
    requires n != m && Claims(desire, env, n, p) && Claims(desire, env, m, p)
    ensures var after, wanted, rejected := Replay(running, trace.log), Wanted(desire), Rejected(desire, env, stats, trace);
            && (n in rejected || m in rejected)
            && (Agree(after, wanted, n) && Agree(after, wanted, m) <==>
                  (n in rejected ==> Agree(running, wanted, n)) && (m in rejected ==> Agree(running, wanted, m)))
  {
    RunsRightExactly(running, desire, listed, report, delete, env, stats, trace, n);
    RunsRightExactly(running, desire, listed, report, delete, env, stats, trace, m);
    ClaimIsListed(desire, env, n, p);
    ClaimIsListed(desire, env, m, p);
    if n !in Rejected(desire, env, stats, trace) && m !in Rejected(desire, env, stats, trace) {
      Exclusive(Filtered(Core, desire), env.appData.value, stats, trace.ports, n, m, p);
    }
  }

  lemma {:induction false} ClaimIsListed(desire: seq<AppInfo>, env: Surroundings, n: string, p: int)
    requires env.appData.Some? && Claims(desire, env, n, p)
    ensures Listed(Filtered(Core, desire), env.appData.value, n)
  {
    NotLikeByName(desire, n);
    var list := Filtered(Core, desire);
    assert Named(list, n);
  }

  // who is rejected on stable inputs, known before the round
  ghost predicate WillBeRejected(desire: seq<AppInfo>, apps: map<string, Application>, stats: map<string, AppStats>,
                                 n: string) {
    var infos := Filtered(Core, desire);
    Overreplicated(infos, apps, n) || exists p :: Loses(EnrollAll(infos, apps, stats).ports, stats, p, n)
  }

  /** On stable inputs that is decided before the round: the two share the port afterwards exactly when each of them
      that loses a port, or is replicated, runs its wanted version already. */
  lemma {:induction false} PortSharedForeseen(running: Running, desire: seq<AppInfo>, listed: seq<AppInfo>,
                                              report: seq<AppInfo>, delete: bool, env: Surroundings,
                                              stats: map<string, AppStats>, trace: Trace, n: string, m: string, p: int)
    requires CleanRound(running, desire, listed, report, delete, env, stats, trace)
    requires n != m && Claims(desire, env, n, p) && Claims(desire, env, m, p)
    requires Stable(EnrollAll(Filtered(Core, desire), env.appData.value, stats).ports, stats)
    ensures var after, wanted, apps := Replay(running, trace.log), Wanted(desire), env.appData.value;
            && (WillBeRejected(desire, apps, stats, n) || WillBeRejected(desire, apps, stats, m))
            && (Agree(after, wanted, n) && Agree(after, wanted, m) <==>
                  (WillBeRejected(desire, apps, stats, n) ==> Agree(running, wanted, n)) &&
                  (WillBeRejected(desire, apps, stats, m) ==> Agree(running, wanted, m)))
  {
    PortSharedExactly(running, desire, listed, report, delete, env, stats, trace, n, m, p);
    StableOutcome(Filtered(Core, desire), env.appData.value, stats, trace.ports, n);
    StableOutcome(Filtered(Core, desire), env.appData.value, stats, trace.ports, m);
  }

  // ----- a concrete case -----

  // statistics as a cluster reports them: the instance of a is known by the name of its pod
  const STATS := map["a" := AppStats(AppInfo("a", "1"), Status.Running, [],
                                     map["a-pod" := InstanceStats("", "a", Status.Running, [])])]

  const DESIRE := [AppInfo("b", "1"), AppInfo("a", "1")]

  /** a runs and is desired, b is desired too and comes first in the list, both claim port 1: a is rejected, b is
      started, and a goes on running. */
  lemma {:induction false} PortSharedAfterRound(listed: seq<AppInfo>, report: seq<AppInfo>, delete: bool,
                                                env: Surroundings, trace: Trace)
    requires env.appData == Some(map["a" := PortApp("a", [1]), "b" := PortApp("b", [1])])
    requires CleanRound(map["a" := "1"], DESIRE, listed, report, delete, env, STATS, trace)
    ensures "a" in Rejected(DESIRE, env, STATS, trace) && "b" !in Rejected(DESIRE, env, STATS, trace)
    ensures Claims(DESIRE, env, "a", 1) && Claims(DESIRE, env, "b", 1)
    ensures var after := Replay(map["a" := "1"], trace.log);
            Agree(after, Wanted(DESIRE), "a") && Agree(after, Wanted(DESIRE), "b")
  {
    var running: Running, apps := map["a" := "1"], env.appData.value;
    CaseDesired();
    CaseEnrolled(apps);
    CaseWinner(EnrollAll(DESIRE, apps, STATS).ports);
    StableOutcome(DESIRE, apps, STATS, trace.ports, "a");
    StableOutcome(DESIRE, apps, STATS, trace.ports, "b");
    PortAppPorts("a");
    PortAppPorts("b");
    RunsRightExactly(running, DESIRE, listed, report, delete, env, STATS, trace, "a");
    RunsRightExactly(running, DESIRE, listed, report, delete, env, STATS, trace, "b");
  }

  lemma {:induction false} PortAppPorts(name: string)
    ensures HostPorts(PortApp(name, [1]).services) == [1]
  {
    var services := PortApp(name, [1]).services;
    assert services[..0] == [] && [1][..0] == [];
    assert NonZero([1]) == [1];
  }

  lemma {:induction false} CaseDesired()
    ensures Managed(Core, "a") && Managed(Core, "b") && Filtered(Core, DESIRE) == DESIRE
    ensures Wanted(DESIRE) == map["a" := "1", "b" := "1"]
  {
    assert DESIRE[..1] == [AppInfo("b", "1")] && DESIRE[..1][..0] == [];
    assert !MatchesAny("a", [CORE]) && !MatchesAny("b", [CORE]) by {
      assert !Contains("a", CORE) && !Contains("b", CORE);
    }
    assert NotLike(DESIRE[..1], [CORE]) == [AppInfo("b", "1")];
    assert ByName(DESIRE) == map["b" := AppInfo("b", "1"), "a" := AppInfo("a", "1")];
  }

  lemma {:induction false} CaseEnrolled(apps: map<string, Application>)
    requires apps == map["a" := PortApp("a", [1]), "b" := PortApp("b", [1])]
    ensures EnrollAll(DESIRE, apps, STATS) == Book(map[1 := ["b", "a"]], STATS, {})
  {
    CaseClaims();
    assert DESIRE[..1] == [AppInfo("b", "1")] && DESIRE[..1][..0] == [];
    EnrollNext(DESIRE[..1], apps, STATS, [1]);
    EnrollNext(DESIRE, apps, STATS, [1]);
  }

  lemma {:induction false} CaseClaims()
    ensures Claim(map[], [1], "b") == map[1 := ["b"]] && Claim(map[1 := ["b"]], [1], "a") == map[1 := ["b", "a"]]
  {
    ClaimOne(map[], 1, "b");
    ClaimOne(map[1 := ["b"]], 1, "a");
    assert [] + ["b"] == ["b"] && ["b"] + ["a"] == ["b", "a"];
  }

  lemma {:induction false} CaseWinner(ports: map<int, seq<string>>)
    requires ports == map[1 := ["b", "a"]]
    ensures Stable(ports, STATS) && Loses(ports, STATS, 1, "a") && forall p :: !Loses(ports, STATS, p, "b")
  {
    var names := Claimants(ports, 1);
    assert names[0] == "b" && names[1] == "a" && "a" in names && "b" in names;
    assert names[1..] == ["a"] && names[1..][1..] == [];
    assert Winner(ports, STATS, 1) == "b";
    assert Contested(ports, 1);
  }
}
