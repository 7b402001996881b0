/** Several failure-free rounds of the init process in a row: which cores it reaches the desire with, and when. */
module InitRuns {
  import opened Model
  import opened AppLists
  import opened Reconcile
  import opened InitRound

  // one failure-free round, from any report of what runs
  ghost predicate InitStep(desire: seq<AppInfo>, running: Running, after: Running) {
    exists raw, order, report ::
      Collected(report, raw, desire, order, running) && after == AfterPlan(running, PlanOf(Init, desire, report))
  }

  function AfterPlan(running: Running, plan: Plan): Running {
    running - plan.stop + plan.start
  }

  ghost predicate IsInitRun(desire: seq<AppInfo>, states: seq<Running>) {
    forall i :: 0 < i < |states| ==> InitStep(desire, states[i - 1], states[i])
  }

  // every core application is as desired
  ghost predicate CoreSettled(desire: seq<AppInfo>, running: Running) {
    forall n :: Managed(Init, n) ==> Agree(running, Wanted(desire), n)
  }

  // ----- one round -----

  // with no core application desired, a round takes away one stray
  lemma {:induction false} StrayStep(desire: seq<AppInfo>, running: Running, after: Running)
    requires InitStep(desire, running, after) && FirstCore(desire) == []
    ensures |Strays(desire, after)| == if Strays(desire, running) == {} then 0 else |Strays(desire, running)| - 1
  {
    var raw, order, report :| Collected(report, raw, desire, order, running) &&
        after == AfterPlan(running, PlanOf(Init, desire, report));
    var r, before := FirstCore(report), Strays(desire, running);
    NoCoreNamed(desire);
    forall n ensures n in Strays(desire, after) <==> n in before && (r == [] || n != r[0].name) {
      AfterInit(report, raw, desire, order, running, n);
    }
    FirstIsStray(report, raw, desire, order, running);
    if r == [] {
      assert Strays(desire, after) == {};
    } else {
      assert Strays(desire, after) == before - {r[0].name};
    }
  }

  lemma {:induction false} FirstIsStray(report: seq<AppInfo>, raw: seq<AppInfo>, desire: seq<AppInfo>,
                                        order: seq<string>, running: Running)
    requires Collected(report, raw, desire, order, running) && FirstCore(desire) == []
    ensures if FirstCore(report) == [] then Strays(desire, running) == {}
            else FirstCore(report)[0].name in Strays(desire, running)
  {
    NoCoreNamed(desire);
    FirstRuns(report, raw, desire, order, running);
    if n :| n in Strays(desire, running) {
      ReportsSome(report, raw, desire, order, running, n);
    }
  }

  lemma {:induction false} NoCoreNamed(desire: seq<AppInfo>)
    requires FirstCore(desire) == []
    ensures forall n :: Contains(n, CORE) ==> !Named(desire, n)
  {
    FirstLikeExactly(desire, CORE);
  }

  lemma {:induction false} ReportsSome(report: seq<AppInfo>, raw: seq<AppInfo>, desire: seq<AppInfo>,
                                       order: seq<string>, running: Running, n: string)
    requires Collected(report, raw, desire, order, running) && n in running && Contains(n, CORE)
    ensures FirstCore(report) != []
  {
    CollectedIsAccurate(report, raw, desire, order, running);
    NamedInReport(report, running, n);
    var j :| 0 <= j < |report| && report[j].name == n;
    var i := FirstIsEarliest(report, j);
  }

  // once the first desired core application runs as listed, rounds change no core application any more
  lemma {:induction false} SettledStep(desire: seq<AppInfo>, running: Running, after: Running, n: string)
    requires InitStep(desire, running, after) && FirstCore(desire) != [] && Managed(Init, n)
    requires var d := FirstCore(desire)[0]; d.name in running && running[d.name] == d.version
    ensures Agree(after, running, n)
  {
    var raw, order, report :| Collected(report, raw, desire, order, running) &&
        after == AfterPlan(running, PlanOf(Init, desire, report));
    AfterInit(report, raw, desire, order, running, n);
  }

  lemma {:induction false} FirstStep(desire: seq<AppInfo>, running: Running, after: Running)
    requires InitStep(desire, running, after)
    ensures FirstCore(desire) != [] ==> var d := FirstCore(desire)[0]; d.name in after && after[d.name] == d.version
    ensures CoreSettled(desire, after) <==> WithinReach(desire, running)
  {
    var raw, order, report :| Collected(report, raw, desire, order, running) &&
        after == AfterPlan(running, PlanOf(Init, desire, report));
    InitConvergesExactly(report, raw, desire, order, running);
    if FirstCore(desire) != [] {
      AfterInit(report, raw, desire, order, running, FirstCore(desire)[0].name);
    }
  }

  // ----- many rounds -----

  lemma {:induction false} StraysLeft(desire: seq<AppInfo>, states: seq<Running>, k: nat)
    requires IsInitRun(desire, states) && k < |states| && FirstCore(desire) == []
    ensures var strays := |Strays(desire, states[0])|;
            |Strays(desire, states[k])| == if strays <= k then 0 else strays - k
  {
    if k > 0 {
      StraysLeft(desire, states, k - 1);
      StrayStep(desire, states[k - 1], states[k]);
    }
  }

  lemma {:induction false} StaysAfterFirst(desire: seq<AppInfo>, states: seq<Running>, k: nat, n: string)
    requires IsInitRun(desire, states) && 0 < k < |states| && FirstCore(desire) != [] && Managed(Init, n)
    ensures Agree(states[k], states[1], n)
  {
    if k > 1 {
      StaysAfterFirst(desire, states, k - 1, n);
      var d := FirstCore(desire)[0];
      FirstContains(desire);
      FirstStep(desire, states[k - 2], states[k - 1]);
      SettledStep(desire, states[k - 1], states[k], n);
    }
  }

  /** Exactly when k failure-free rounds reach the desire, whatever the reports: with no core application desired they
      take away one stray each; otherwise only the first round matters, and what it leaves wrong stays wrong. */
  lemma {:induction false} RoundsConvergeExactly(desire: seq<AppInfo>, states: seq<Running>, k: nat)
    requires IsInitRun(desire, states) && 0 < k < |states|
    ensures CoreSettled(desire, states[k]) <==>
            if FirstCore(desire) == [] then |Strays(desire, states[0])| <= k else WithinReach(desire, states[0])
  {
    if FirstCore(desire) == [] {
      StraysLeft(desire, states, k);
      SettledWithoutStrays(desire, states[k]);
    } else {
      assert InitStep(desire, states[1 - 1], states[1]);
      FirstStep(desire, states[0], states[1]);
      forall n | Managed(Init, n) ensures Agree(states[k], states[1], n) {
        StaysAfterFirst(desire, states, k, n);
      }
      SameSettled(desire, states[k], states[1]);
    }
  }

  lemma {:induction false} SameSettled(desire: seq<AppInfo>, s: Running, t: Running)
    requires forall n :: Managed(Init, n) ==> Agree(s, t, n)
    ensures CoreSettled(desire, s) <==> CoreSettled(desire, t)
  {
  }

  lemma {:induction false} SettledWithoutStrays(desire: seq<AppInfo>, running: Running)
    requires FirstCore(desire) == []
    ensures CoreSettled(desire, running) <==> |Strays(desire, running)| == 0
  {
    NoCoreNamed(desire);
    if CoreSettled(desire, running) {
      forall n ensures n !in Strays(desire, running) {
        assert Managed(Init, n) ==> Agree(running, Wanted(desire), n);
      }
    } else {
      var n :| Managed(Init, n) && !Agree(running, Wanted(desire), n);
      assert n in Strays(desire, running);
    }
  }
}
