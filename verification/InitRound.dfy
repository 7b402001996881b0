/** What the init process plans. filterAppLike keeps only the first matching entry of each list
    (the break at engine/engine.go:656), so init relies on alignApps to list desired applications first. */
module InitRound {
  import opened Model
  import opened AppLists
  import opened Quiescence
  import opened Reconcile

  function FirstCore(list: seq<AppInfo>): (r: seq<AppInfo>)
    ensures |r| <= 1
  {
    Single(list, CORE);
    FirstLike(list, CORE)
  }

  lemma {:induction false} Single(list: seq<AppInfo>, part: string)
    ensures |FirstLike(list, part)| <= 1
  {
    if list != [] {
      Single(list[1..], part);
    }
  }

  // the report as collected: accurate, then aligned with the desire
  ghost predicate Collected(report: seq<AppInfo>, raw: seq<AppInfo>, desire: seq<AppInfo>, order: seq<string>,
                            running: Running) {
    Accurate(raw, running) && IsOrder(order, Leftover(raw, desire).Keys) && report == Aligned(raw, desire, order)
  }

  lemma {:induction false} CollectedIsAccurate(report: seq<AppInfo>, raw: seq<AppInfo>, desire: seq<AppInfo>,
                                               order: seq<string>, running: Running)
    requires Collected(report, raw, desire, order, running)
    ensures Accurate(report, running)
  {
    forall x ensures x in report <==> x in raw { AlignedExactly(raw, desire, order, x); }
    AlignedExactly(raw, desire, order, AppInfo("", ""));
  }

  lemma {:induction false} InitPlanIs(desire: seq<AppInfo>, report: seq<AppInfo>)
    ensures var plan, d, r := PlanOf(Init, desire, report), FirstCore(desire), FirstCore(report);
            && plan.stop == (if r == [] || (d != [] && d[0].name == r[0].name) then {} else {r[0].name})
            && plan.start == (if d == [] || d == r then map[] else map[d[0].name := d[0].version])
  {
    LikeOne(desire, CORE);
    LikeOne(report, CORE);
    DifferenceOfFew(FirstCore(desire), FirstCore(report));
  }

  lemma {:induction false} DifferenceOfFew(d: seq<AppInfo>, r: seq<AppInfo>)
    requires |d| <= 1 && |r| <= 1
    ensures Difference(d, r).stop == if r == [] || (d != [] && d[0].name == r[0].name) then {} else {r[0].name}
    ensures Difference(d, r).start == if d == [] || d == r then map[] else map[d[0].name := d[0].version]
  {
  }

  lemma {:induction false} MatchedFirst(m: map<string, AppInfo>, de: seq<AppInfo>, tail: seq<AppInfo>)
    requires forall n :: n in m ==> m[n].name == n
    requires FirstLike(de, CORE) != [] && FirstLike(de, CORE)[0].name in m
    ensures FirstLike(Matched(m, de) + tail, CORE) == [m[FirstLike(de, CORE)[0].name]]
  {
    var head := de[0].name;
    if !Contains(head, CORE) {
      var d := FirstLike(de[1..], CORE)[0];
      FirstContains(de[1..]);
      var left := if head in m then m - {head} else m;
      MatchedFirst(left, de[1..], tail);
      if head in m {
        var rest := Matched(left, de[1..]) + tail;
        assert Matched(m, de) + tail == [m[head]] + rest;
      }
    } else {
      assert Matched(m, de) + tail == [m[head]] + (Matched(m - {head}, de[1..]) + tail);
    }
  }

  lemma {:induction false} FirstContains(list: seq<AppInfo>)
    ensures FirstLike(list, CORE) != [] ==>
        FirstLike(list, CORE)[0] in list && Contains(FirstLike(list, CORE)[0].name, CORE)
  {
    if list != [] {
      FirstContains(list[1..]);
    }
  }

  /** Alignment pays off: when the first desired core application runs, it is the first one reported too. */
  lemma {:induction false} FirstDesiredIsFirstReported(report: seq<AppInfo>, raw: seq<AppInfo>, desire: seq<AppInfo>,
                                                       order: seq<string>, running: Running)
    requires Collected(report, raw, desire, order, running)
    requires FirstCore(desire) != [] && FirstCore(desire)[0].name in running
    ensures var n := FirstCore(desire)[0].name; FirstCore(report) == [AppInfo(n, running[n])]
  {
    var n := FirstCore(desire)[0].name;
    var x := AppInfo(n, running[n]);
    assert x in raw;
    FirstContains(desire);
    ByNameOfDistinct(raw, x);
    MatchedFirst(ByName(raw), desire, InOrder(Leftover(raw, desire), order));
  }

  // some desired core application other than the first is running
  ghost predicate LaterOneRuns(desire: seq<AppInfo>, running: Running) {
    exists i :: 0 <= i < |desire| && Contains(desire[i].name, CORE) && desire[i].name in running
  }

  lemma {:induction false} FirstIsEarliest(list: seq<AppInfo>, j: nat) returns (i: nat)
    requires j < |list| && Contains(list[j].name, CORE)
    ensures i <= j && FirstLike(list, CORE) == [list[i]]
  {
    FirstLikeExactly(list, CORE);
    i :| 0 <= i < |list| && FirstLike(list, CORE) == [list[i]] && Contains(list[i].name, CORE) &&
      forall k :: 0 <= k < i ==> !Contains(list[k].name, CORE);
  }

  lemma {:induction false} FirstReportedIsDesired(report: seq<AppInfo>, raw: seq<AppInfo>, desire: seq<AppInfo>,
                                                  order: seq<string>, running: Running)
    requires Collected(report, raw, desire, order, running) && LaterOneRuns(desire, running)
    ensures FirstCore(report) != [] && Named(desire, FirstCore(report)[0].name)
  {
    var e :| 0 <= e < |desire| && Contains(desire[e].name, CORE) && desire[e].name in running;
    var x := AppInfo(desire[e].name, running[desire[e].name]);
    assert x in raw;
    AlignedExactly(raw, desire, order, x);
    var j :| 0 <= j < |report| && report[j] == x;
    var i := FirstIsEarliest(report, j);
    assert Named(desire, report[j].name);
  }

  /** Exactly when init stops an application that is desired: the first desired core application does not
      run and another desired one does. */
  lemma {:induction false} InitStopsDesiredExactly(report: seq<AppInfo>, raw: seq<AppInfo>, desire: seq<AppInfo>,
                                                   order: seq<string>, running: Running)
    requires Collected(report, raw, desire, order, running)
    ensures (exists n :: n in PlanOf(Init, desire, report).stop && n in Wanted(desire)) <==>
            FirstCore(desire) != [] && FirstCore(desire)[0].name !in running && LaterOneRuns(desire, running)
  {
    var plan, d, r := PlanOf(Init, desire, report), FirstCore(desire), FirstCore(report);
    InitPlanIs(desire, report);
    CollectedIsAccurate(report, raw, desire, order, running);
    FirstContains(report);
    if d != [] && d[0].name in running {
      FirstDesiredIsFirstReported(report, raw, desire, order, running);
    } else if LaterOneRuns(desire, running) {
      FirstReportedIsDesired(report, raw, desire, order, running);
      var e :| 0 <= e < |desire| && Contains(desire[e].name, CORE) && desire[e].name in running;
      var i := FirstIsEarliest(desire, e);
      assert r[0].name in running;
      assert r[0].name in plan.stop && r[0].name in Wanted(desire);
    }
  }

  /** The condition under which every operation init plans is justified: it stops no desired application, and
      does not start a version that a later entry of the same name supersedes. */
  ghost predicate InitSafe(desire: seq<AppInfo>, running: Running) {
    FirstCore(desire) == [] ||
    var d := FirstCore(desire)[0];
    && (d.name in running || !LaterOneRuns(desire, running))
    && (Superseded(desire) ==> d.name in running && running[d.name] == d.version)
  }

  // the first desired core application is listed again at another version, which is the one wanted
  ghost predicate Superseded(desire: seq<AppInfo>) {
    FirstCore(desire) != [] &&
    var d := FirstCore(desire)[0]; d.name in ByName(desire) && ByName(desire)[d.name] != d
  }

  /** Exactly when the plan of init is justified, for any desired list. */
  lemma {:induction false} InitPlanJustified(report: seq<AppInfo>, raw: seq<AppInfo>, desire: seq<AppInfo>,
                                             order: seq<string>, running: Running)
    requires Collected(report, raw, desire, order, running)
    ensures Justified(PlanOf(Init, desire, report), running, Wanted(desire)) <==> InitSafe(desire, running)
  {
    var plan, wanted := PlanOf(Init, desire, report), Wanted(desire);
    var d, r := FirstCore(desire), FirstCore(report);
    assert plan.stop <= running.Keys by {
      InitPlanIs(desire, report);
      FirstRuns(report, raw, desire, order, running);
    }
    InitStopsDesiredExactly(report, raw, desire, order, running);
    InitStartIs(report, raw, desire, order, running);
    FewJustified(plan, running, wanted, d);
  }

  lemma {:induction false} FewJustified(plan: Plan, running: Running, wanted: Running, d: seq<AppInfo>)
    requires |d| <= 1 && plan.stop <= running.Keys
    requires plan.start == if d == [] || (d[0].name in running && running[d[0].name] == d[0].version) then map[]
                           else map[d[0].name := d[0].version]
    ensures Justified(plan, running, wanted) <==>
            !(exists n :: n in plan.stop && n in wanted) &&
            (plan.start == map[] || (d[0].name in wanted && wanted[d[0].name] == d[0].version))
  {
    if plan.start != map[] {
      assert d[0].name in plan.start;
    }
  }

  lemma {:induction false} InitStartIs(report: seq<AppInfo>, raw: seq<AppInfo>, desire: seq<AppInfo>,
                                       order: seq<string>, running: Running)
    requires Collected(report, raw, desire, order, running)
    ensures var plan, d := PlanOf(Init, desire, report), FirstCore(desire);
            plan.start == if d == [] || (d[0].name in running && running[d[0].name] == d[0].version) then map[]
                          else map[d[0].name := d[0].version]
    ensures FirstCore(desire) != [] ==>
              var d := FirstCore(desire)[0];
              d.name in Wanted(desire) && (Superseded(desire) <==> Wanted(desire)[d.name] != d.version)
  {
    InitPlanIs(desire, report);
    FirstIsNamed(desire);
    if FirstCore(desire) != [] {
      FirstStartsExactly(report, raw, desire, order, running);
    }
  }

  // init starts the first desired core application exactly when it does not run at that version
  lemma {:induction false} FirstStartsExactly(report: seq<AppInfo>, raw: seq<AppInfo>, desire: seq<AppInfo>,
                                              order: seq<string>, running: Running)
    requires Collected(report, raw, desire, order, running) && FirstCore(desire) != []
    ensures var d := FirstCore(desire)[0];
            FirstCore(desire) == FirstCore(report) <==> d.name in running && running[d.name] == d.version
  {
    FirstRuns(report, raw, desire, order, running);
    if FirstCore(desire)[0].name in running {
      FirstDesiredIsFirstReported(report, raw, desire, order, running);
    }
  }

  /** Whatever the lists, init plans only operations on names it manages. */
  lemma {:induction false} InitPlanWithin(desire: seq<AppInfo>, report: seq<AppInfo>)
    ensures Within(PlanOf(Init, desire, report), Init)
  {
    InitPlanIs(desire, report);
    FirstContains(desire);
    FirstContains(report);
  }

  // at most one core application is desired
  ghost predicate OneCore(desire: seq<AppInfo>) {
    forall i :: 0 <= i < |desire| && Contains(desire[i].name, CORE) ==> FirstCore(desire) == [desire[i]]
  }

  lemma {:induction false} OneCoreIsSafe(desire: seq<AppInfo>, running: Running)
    requires OneCore(desire)
    ensures InitSafe(desire, running)
  {
    var d := FirstCore(desire);
    if d != [] {
      FirstIsNamed(desire);
      FirstContains(desire);
      var i :| 0 <= i < |desire| && desire[i] == ByName(desire)[d[0].name];
    }
  }

  // core applications that run but are not desired
  function Strays(desire: seq<AppInfo>, running: Running): set<string> {
    set n | n in running && Contains(n, CORE) && !Named(desire, n)
  }

  ghost predicate InitConverges(desire: seq<AppInfo>, report: seq<AppInfo>, running: Running) {
    var plan := PlanOf(Init, desire, report);
    forall n :: Managed(Init, n) ==> Agree(running - plan.stop + plan.start, Wanted(desire), n)
  }

  // core applications at the wrong version, or there or missing wrongly, besides the first desired one
  function OthersWrong(desire: seq<AppInfo>, running: Running): set<string> {
    set n | n in Mismatch(running, Wanted(desire)) && Contains(n, CORE) &&
            (FirstCore(desire) == [] || n != FirstCore(desire)[0].name)
  }

  /** What init can mend in one round: the first desired core application, and one stray while it is missing. */
  ghost predicate WithinReach(desire: seq<AppInfo>, running: Running) {
    && !Superseded(desire)
    && (if FirstCore(desire) != [] && FirstCore(desire)[0].name in running then OthersWrong(desire, running) == {}
        else OthersWrong(desire, running) <= Strays(desire, running) && |OthersWrong(desire, running)| <= 1 &&
             !LaterOneRuns(desire, running))
  }

  /** Exactly when a failure-free init round reaches the desire, for any desired list. */
  lemma {:induction false} InitConvergesExactly(report: seq<AppInfo>, raw: seq<AppInfo>, desire: seq<AppInfo>,
                                                order: seq<string>, running: Running)
    requires Collected(report, raw, desire, order, running)
    ensures InitConverges(desire, report, running) <==> WithinReach(desire, running)
  {
    var plan := PlanOf(Init, desire, report);
    if InitConverges(desire, report, running) {
      ConvergingIsWithinReach(report, raw, desire, order, running);
    }
    if WithinReach(desire, running) {
      forall n | Managed(Init, n) ensures Agree(running - plan.stop + plan.start, Wanted(desire), n) {
        WithinReachAgrees(report, raw, desire, order, running, n);
      }
    }
  }

  lemma {:induction false} FirstIsNamed(list: seq<AppInfo>)
    ensures FirstCore(list) != [] ==> Named(list, FirstCore(list)[0].name)
  {
    FirstContains(list);
  }

  lemma {:induction false} FirstRuns(report: seq<AppInfo>, raw: seq<AppInfo>, desire: seq<AppInfo>,
                                     order: seq<string>, running: Running)
    requires Collected(report, raw, desire, order, running)
    ensures FirstCore(report) != [] ==>
              var r := FirstCore(report)[0];
              r.name in running && running[r.name] == r.version && Contains(r.name, CORE)
  {
    CollectedIsAccurate(report, raw, desire, order, running);
    FirstContains(report);
  }

  // what a failure-free init round leaves
  lemma {:induction false} AfterInit(report: seq<AppInfo>, raw: seq<AppInfo>, desire: seq<AppInfo>,
                                     order: seq<string>, running: Running, n: string)
    requires Collected(report, raw, desire, order, running)
    ensures var plan, d, r := PlanOf(Init, desire, report), FirstCore(desire), FirstCore(report);
            var after := running - plan.stop + plan.start;
            if d != [] && n == d[0].name then n in after && after[n] == d[0].version
            else if r != [] && n == r[0].name && (d == [] || d[0].name !in running) then n !in after
            else Agree(after, running, n)
  {
    InitPlanIs(desire, report);
    FirstRuns(report, raw, desire, order, running);
    if FirstCore(desire) != [] {
      FirstStartsExactly(report, raw, desire, order, running);
      if FirstCore(desire)[0].name in running {
        FirstDesiredIsFirstReported(report, raw, desire, order, running);
      }
    }
  }

  lemma {:induction false} ConvergingIsWithinReach(report: seq<AppInfo>, raw: seq<AppInfo>, desire: seq<AppInfo>,
                                                   order: seq<string>, running: Running)
    requires Collected(report, raw, desire, order, running) && InitConverges(desire, report, running)
    ensures WithinReach(desire, running)
  {
    var d, r, others := FirstCore(desire), FirstCore(report), OthersWrong(desire, running);
    FirstIsNamed(desire);
    FirstContains(desire);
    FirstRuns(report, raw, desire, order, running);
    if d != [] {
      assert Managed(Init, d[0].name);
      AfterInit(report, raw, desire, order, running, d[0].name);
    }
    forall n | n in others ensures r != [] && n == r[0].name && (d == [] || d[0].name !in running) &&
      n !in Wanted(desire) {
      assert Managed(Init, n);
      AfterInit(report, raw, desire, order, running, n);
    }
    if others != {} {
      assert others == {r[0].name};
    }
    if LaterOneRuns(desire, running) && (d == [] || d[0].name !in running) {
      FirstReportedIsDesired(report, raw, desire, order, running);
      assert Managed(Init, r[0].name);
      AfterInit(report, raw, desire, order, running, r[0].name);
    }
  }

  lemma {:induction false} WithinReachAgrees(report: seq<AppInfo>, raw: seq<AppInfo>, desire: seq<AppInfo>,
                                             order: seq<string>, running: Running, n: string)
    requires Collected(report, raw, desire, order, running) && WithinReach(desire, running) && Managed(Init, n)
    ensures var plan := PlanOf(Init, desire, report); Agree(running - plan.stop + plan.start, Wanted(desire), n)
  {
    var d, r, others := FirstCore(desire), FirstCore(report), OthersWrong(desire, running);
    AfterInit(report, raw, desire, order, running, n);
    FirstIsNamed(desire);
    FirstRuns(report, raw, desire, order, running);
    assert n in others <==> !Agree(running, Wanted(desire), n) && (d == [] || n != d[0].name);
    if (d == [] || d[0].name !in running) && n in running {
      OnlyStray(report, raw, desire, order, running, n);
    }
  }

  // with none of the desired core applications running, the one stray within reach is the one reported first
  lemma {:induction false} OnlyStray(report: seq<AppInfo>, raw: seq<AppInfo>, desire: seq<AppInfo>,
                                     order: seq<string>, running: Running, n: string)
    requires Collected(report, raw, desire, order, running) && WithinReach(desire, running) && Managed(Init, n)
    requires n in running && (FirstCore(desire) == [] || FirstCore(desire)[0].name !in running)
    ensures FirstCore(report) != [] && FirstCore(report)[0].name == n && n !in Wanted(desire)
  {
    var others, r := OthersWrong(desire, running), FirstCore(report);
    CollectedIsAccurate(report, raw, desire, order, running);
    FirstRuns(report, raw, desire, order, running);
    var x := AppInfo(n, running[n]);
    assert x in report;
    var j :| 0 <= j < |report| && report[j] == x;
    var i := FirstIsEarliest(report, j);
    forall m | m in running && Contains(m, CORE) ensures m in others && m !in Wanted(desire) {
      if e :| 0 <= e < |desire| && desire[e].name == m {
        assert LaterOneRuns(desire, running);
      }
    }
    assert n in others && |others - {n}| == 0;
    assert r[0].name in others;
  }

  /** A round that could not collect what runs (an empty report) stops nothing and starts the first desired core
      application, right or wrong. */
  lemma {:induction false} BlindInitRound(desire: seq<AppInfo>)
    ensures var plan, d := PlanOf(Init, desire, []), FirstCore(desire);
            plan == Plan({}, if d == [] then map[] else map[d[0].name := d[0].version])
  {
    InitPlanIs(desire, []);
  }

  // ----- concrete cases -----

  const FIRST := CORE + "-1"
  const LATER := CORE + "-2"

  lemma {:induction false} CaseNames()
    ensures Contains(FIRST, CORE) && Contains(LATER, CORE) && FIRST != LATER
  {
    assert FIRST[0..] == FIRST && LATER[0..] == LATER && CORE <= FIRST && CORE <= LATER;
    assert FIRST[|CORE| + 1] == '1' && LATER[|CORE| + 1] == '2';
  }

  // a report of what runs
  lemma {:induction false} SomeReport(desire: seq<AppInfo>, raw: seq<AppInfo>, running: Running)
    returns (report: seq<AppInfo>, order: seq<string>)
    requires Accurate(raw, running)
    ensures Collected(report, raw, desire, order, running)
  {
    order := SomeOrder(Leftover(raw, desire).Keys);
    report := Aligned(raw, desire, order);
  }

  /** Two core applications are desired and the second runs: init plans to stop it. */
  lemma {:induction false} InitStopsDesired(desire: seq<AppInfo>, raw: seq<AppInfo>, running: Running)
    requires desire == [AppInfo(FIRST, "1"), AppInfo(LATER, "1")]
    requires raw == [AppInfo(LATER, "1")] && running == map[LATER := "1"]
    ensures exists report, order :: Collected(report, raw, desire, order, running) &&
                                    exists n :: n in PlanOf(Init, desire, report).stop && n in Wanted(desire)
  {
    CaseNames();
    assert raw[0] in raw;
    var report, order := SomeReport(desire, raw, running);
    assert FirstCore(desire) == [desire[0]];
    assert desire[1].name in running;
    InitStopsDesiredExactly(report, raw, desire, order, running);
  }

  /** Nothing is desired and two core applications run: one of them is still there after the round. */
  lemma {:induction false} InitLeavesStray(raw: seq<AppInfo>, running: Running)
    requires raw == [AppInfo(FIRST, "1"), AppInfo(LATER, "1")] && running == map[FIRST := "1", LATER := "1"]
    ensures exists report, order :: Collected(report, raw, [], order, running) && !InitConverges([], report, running)
  {
    CaseNames();
    assert raw[0] in raw && raw[1] in raw;
    var report, order := SomeReport([], raw, running);
    assert FirstCore([]) == [];
    var others := OthersWrong([], running);
    assert FIRST in others && LATER in others;
    assert others == {FIRST, LATER};
    InitConvergesExactly(report, raw, [], order, running);
  }
}
