/** One reconcile round as a plan, and the two processes that run rounds on one node
    (engine/engine.go reportAndApply, applyApps).

    The application runtime is abstract: a successful start runs the given version, a failed start leaves
    the application as it was or absent, a successful stop removes it, a failed stop changes nothing. */
module Reconcile {
  import opened Model
  import opened AppLists

  const CORE := "baetyl-core"

  // names that run, with their versions
  type Running = map<string, string>

  datatype Role = Core | Init
  datatype Op = Stop(name: string) | Start(name: string, version: string)
  datatype Outcome = Done | KeptOld | LeftAbsent

  // what a round intends to do
  datatype Plan = Plan(stop: set<string>, start: Running)

  const NOTHING := Plan({}, map[])

  predicate Managed(role: Role, name: string) {
    match role
    case Core => !Contains(name, CORE)
    case Init => Contains(name, CORE)
  }

  function Filtered(role: Role, list: seq<AppInfo>): seq<AppInfo> {
    match role
    case Core => NotLike(list, [CORE])
    case Init => Like(list, [CORE])
  }

  function Versions(m: map<string, AppInfo>): Running {
    map n | n in m :: m[n].version
  }

  function Wanted(desire: seq<AppInfo>): Running {
    Versions(ByName(desire))
  }

  function Difference(d: seq<AppInfo>, r: seq<AppInfo>): Plan {
    Plan(NamesOf(r) - NamesOf(d), Versions(map n | n in ByName(d) && ByName(d)[n] !in r :: ByName(d)[n]))
  }

  function PlanOf(role: Role, desire: seq<AppInfo>, report: seq<AppInfo>): Plan {
    Difference(Filtered(role, desire), Filtered(role, report))
  }

  function Perform(running: Running, op: Op, outcome: Outcome): Running {
    match op
    case Stop(n) => if outcome == Done then running - {n} else running
    case Start(n, v) =>
      match outcome
      case Done => running[n := v]
      case KeptOld => running
      case LeftAbsent => running - {n}
  }

  predicate Agree(a: Running, b: Running, n: string) {
    (n in a <==> n in b) && (n in a ==> a[n] == b[n])
  }

  // names whose running version is not the wanted one
  function Mismatch(running: Running, wanted: Running): set<string> {
    set n | n in running.Keys + wanted.Keys && !Agree(running, wanted, n)
  }

  // report lists exactly what runs
  ghost predicate Accurate(report: seq<AppInfo>, running: Running) {
    && DistinctNames(report)
    && forall x :: x in report <==> x.name in running && running[x.name] == x.version
  }

  // every intended operation concerns a name that is wrong, and mends it
  ghost predicate Justified(plan: Plan, running: Running, wanted: Running) {
    && (forall n :: n in plan.stop ==> n in running && n !in wanted)
    && (forall n :: n in plan.start ==> n in wanted && wanted[n] == plan.start[n] && !Agree(running, wanted, n))
  }

  ghost predicate Within(plan: Plan, role: Role) {
    && (forall n :: n in plan.stop ==> Managed(role, n))
    && (forall n :: n in plan.start ==> Managed(role, n))
  }

  ghost predicate Inside(plan: Plan, whole: Plan) {
    && plan.stop <= whole.stop
    && (forall n :: n in plan.start ==> n in whole.start && plan.start[n] == whole.start[n])
  }

  /** The two processes divide the names by whether they contain baetyl-core; the main one plans over every other
      entry, the init one over the first such entry alone. */
  lemma {:induction false} DividedByName(list: seq<AppInfo>, x: AppInfo)
    ensures Managed(Init, x.name) <==> exists a, b :: x.name == a + "baetyl-core" + b
    ensures Managed(Core, x.name) <==> !exists a, b :: x.name == a + "baetyl-core" + b
    ensures x in Filtered(Core, list) <==> x in list && Managed(Core, x.name)
    ensures Filtered(Init, list) == [] <==> forall i :: 0 <= i < |list| ==> Managed(Core, list[i].name)
    ensures Filtered(Init, list) == [x] <==>
            exists i :: 0 <= i < |list| && list[i] == x && Managed(Init, x.name) &&
                        forall j :: 0 <= j < i ==> Managed(Core, list[j].name)
  {
    ContainsExactly(x.name, "baetyl-core");
    NotLikeExactly(list, [CORE], x);
    assert MatchesAny(x.name, [CORE]) <==> Contains(x.name, CORE) by {
      assert [CORE][0] == CORE;
    }
    LikeOne(list, CORE);
    FirstLikeExactly(list, CORE);
  }

  // no name is wrong exactly when what runs is what is wanted
  lemma {:induction false} NothingWrong(running: Running, wanted: Running)
    ensures Mismatch(running, wanted) == {} <==> running == wanted
  {
    if Mismatch(running, wanted) == {} {
      forall n | n in running.Keys + wanted.Keys ensures Agree(running, wanted, n) {
        assert n !in Mismatch(running, wanted);
      }
    }
  }

  lemma {:induction false} NotLikeByName(list: seq<AppInfo>, n: string)
    ensures var kept := NotLike(list, [CORE]);
            && (n in ByName(kept) <==> n in ByName(list) && Managed(Core, n))
            && (n in ByName(kept) ==> ByName(kept)[n] == ByName(list)[n])
  {
    if list != [] {
      var front, last := list[..|list| - 1], list[|list| - 1];
      NotLikeByName(front, n);
      assert MatchesAny(last.name, [CORE]) <==> Contains(last.name, CORE) by {
        assert [CORE][0] == CORE;
      }
      var kept := NotLike(front, [CORE]);
      assert (kept + [last])[..|kept|] == kept;
    }
  }

  lemma {:induction false} NamedInReport(report: seq<AppInfo>, running: Running, n: string)
    requires Accurate(report, running)
    ensures Named(report, n) <==> n in running
  {
    if n in running {
      var x := AppInfo(n, running[n]);
      assert x in report;
    }
    if i :| 0 <= i < |report| && report[i].name == n {
      assert report[i] in report;
    }
  }

  /** The core process plans exactly the mismatches among the names it manages, for any desired list. */
  lemma {:induction false} CorePlanExactly(desire: seq<AppInfo>, report: seq<AppInfo>, running: Running, n: string)
    requires Accurate(report, running)
    ensures var plan, wanted := PlanOf(Core, desire, report), Wanted(desire);
            && (n in plan.stop <==> Managed(Core, n) && n in running && n !in wanted)
            && (n in plan.start <==> Managed(Core, n) && n in wanted && (n in running ==> running[n] != wanted[n]))
            && (n in plan.start ==> plan.start[n] == wanted[n])
  {
    var d, r := NotLike(desire, [CORE]), NotLike(report, [CORE]);
    NotLikeByName(desire, n);
    NotLikeByName(report, n);
    NamedInReport(report, running, n);
    if n in ByName(d) {
      var x := ByName(d)[n];
      NotLikeExactly(report, [CORE], x);
      assert MatchesAny(x.name, [CORE]) <==> Contains(x.name, CORE) by {
        assert [CORE][0] == CORE;
      }
    }
  }

  /** A failure-free core round brings every name it manages to the wanted version. */
  lemma {:induction false} CoreRoundConverges(desire: seq<AppInfo>, report: seq<AppInfo>, running: Running, n: string)
    requires Accurate(report, running) && Managed(Core, n)
    ensures var plan := PlanOf(Core, desire, report);
            Agree(running - plan.stop + plan.start, Wanted(desire), n)
  {
    CorePlanExactly(desire, report, running, n);
  }

  /** Starting the wanted version of n adds a mismatch exactly when it breaks an application that was right. */
  lemma {:induction false} StartHarmsExactly(running: Running, wanted: Running, n: string, outcome: Outcome)
    requires n in wanted
    ensures var after := Perform(running, Start(n, wanted[n]), outcome);
            Mismatch(after, wanted) <= Mismatch(running, wanted) <==>
              !(outcome == LeftAbsent && Agree(running, wanted, n))
  {
    var after := Perform(running, Start(n, wanted[n]), outcome);
    forall m | m != n ensures Agree(after, wanted, m) <==> Agree(running, wanted, m) {}
    assert n in Mismatch(after, wanted) <==> !Agree(after, wanted, n);
    assert n in Mismatch(running, wanted) <==> !Agree(running, wanted, n);
  }

  /** A round that could not collect what runs (an empty report) stops nothing and starts everything it
      manages, right or wrong. */
  lemma {:induction false} BlindRound(desire: seq<AppInfo>, n: string)
    ensures var plan, wanted := PlanOf(Core, desire, []), Wanted(desire);
            && n !in plan.stop
            && (n in plan.start <==> Managed(Core, n) && n in wanted)
            && (n in plan.start ==> plan.start[n] == wanted[n])
  {
    CorePlanExactly(desire, [], map[], n);
  }
}
