/** The core and the init process share one node. Each plans rounds from what it collects and performs them
    one operation at a time; the operations interleave freely and may fail. */
module TwoProcesses {
  import opened Model
  import opened Reconcile
  import opened InitRound

  // core and init: what the round in progress has left to do
  datatype System = System(running: Running, core: Plan, init: Plan) {
    function Pending(role: Role): Plan {
      match role case Core => core case Init => init
    }

    function With(role: Role, plan: Plan): System {
      match role case Core => this.(core := plan) case Init => this.(init := plan)
    }
  }

  datatype Event =
    | Begin(role: Role, plan: Plan, blind: bool)
    | Act(role: Role, op: Op, outcome: Outcome)
    | Abandon(role: Role)

  // a round may plan less than the difference: delete may be off, ports may be refused; a blind round could
  // not collect what runs and takes the report to be empty
  ghost predicate Planned(role: Role, plan: Plan, blind: bool, desire: seq<AppInfo>, running: Running) {
    if blind then Inside(plan, PlanOf(role, desire, []))
    else exists raw, order, report ::
           Collected(report, raw, desire, order, running) && Inside(plan, PlanOf(role, desire, report))
  }

  // starts wait for the stops; a stop either works or changes nothing
  predicate Offers(plan: Plan, op: Op, outcome: Outcome) {
    match op
    case Stop(n) => n in plan.stop && outcome != LeftAbsent
    case Start(n, v) => plan.stop == {} && n in plan.start && plan.start[n] == v
  }

  ghost predicate Enabled(desire: seq<AppInfo>, s: System, e: Event) {
    match e
    case Begin(role, plan, blind) => s.Pending(role) == NOTHING && Planned(role, plan, blind, desire, s.running)
    case Act(role, op, outcome) => Offers(s.Pending(role), op, outcome)
    case Abandon(_) => true
  }

  // a failed stop ends the round, a failed start does not
  function Rest(plan: Plan, op: Op, outcome: Outcome): Plan {
    match op
    case Stop(n) => if outcome == Done then plan.(stop := plan.stop - {n}) else NOTHING
    case Start(n, _) => plan.(start := plan.start - {n})
  }

  function After(s: System, e: Event): System {
    match e
    case Begin(role, plan, _) => s.With(role, plan)
    case Act(role, op, outcome) =>
      s.(running := Perform(s.running, op, outcome)).With(role, Rest(s.Pending(role), op, outcome))
    case Abandon(role) => s.With(role, NOTHING)
  }

  function End(s: System, events: seq<Event>): System {
    if events == [] then s else After(End(s, events[..|events| - 1]), events[|events| - 1])
  }

  ghost predicate IsRun(desire: seq<AppInfo>, s: System, events: seq<Event>) {
    events == [] ||
    (IsRun(desire, s, events[..|events| - 1]) && Enabled(desire, End(s, events[..|events| - 1]), events[|events| - 1]))
  }

  predicate Succeeds(e: Event) {
    e.Act? && e.outcome == Done
  }

  function Successes(events: seq<Event>): nat {
    if events == [] then 0
    else Successes(events[..|events| - 1]) + if Succeeds(events[|events| - 1]) then 1 else 0
  }

  ghost predicate Inv(s: System, wanted: Running) {
    forall role :: Justified(s.Pending(role), s.running, wanted) && Within(s.Pending(role), role)
  }

  lemma {:induction false} PlannedIsJustified(role: Role, plan: Plan, desire: seq<AppInfo>, running: Running)
    requires Planned(role, plan, false, desire, running)
    requires role == Init ==> InitSafe(desire, running)
    ensures Justified(plan, running, Wanted(desire))
  {
    var raw, order, report :| Collected(report, raw, desire, order, running) &&
        Inside(plan, PlanOf(role, desire, report));
    if role == Init {
      InitPlanJustified(report, raw, desire, order, running);
    } else {
      CollectedIsAccurate(report, raw, desire, order, running);
      forall n | n in plan.stop ensures n in running && n !in Wanted(desire) {
        CorePlanExactly(desire, report, running, n);
      }
      forall n | n in plan.start
        ensures n in Wanted(desire) && Wanted(desire)[n] == plan.start[n] && !Agree(running, Wanted(desire), n)
      {
        CorePlanExactly(desire, report, running, n);
      }
    }
  }

  lemma {:induction false} PlannedIsWithin(role: Role, plan: Plan, blind: bool, desire: seq<AppInfo>, running: Running)
    requires Planned(role, plan, blind, desire, running)
    ensures Within(plan, role)
  {
    var raw, order, report, seen := [], [], [], map[];
    if !blind {
      raw, order, report :| Collected(report, raw, desire, order, running) &&
        Inside(plan, PlanOf(role, desire, report));
      CollectedIsAccurate(report, raw, desire, order, running);
      seen := running;
    }
    if role == Init {
      InitPlanWithin(desire, report);
    } else {
      forall n | n in plan.stop || n in plan.start ensures Managed(Core, n) {
        CorePlanExactly(desire, report, seen, n);
      }
    }
  }

  /** One operation mends exactly its own name when it succeeds, and never harms when it fails. */
  lemma {:induction false} ActMends(running: Running, wanted: Running, plan: Plan, op: Op, outcome: Outcome)
    requires Justified(plan, running, wanted) && Offers(plan, op, outcome)
    ensures op.name in Mismatch(running, wanted)
    ensures Mismatch(Perform(running, op, outcome), wanted) ==
            Mismatch(running, wanted) - (if outcome == Done then {op.name} else {})
    ensures Justified(Rest(plan, op, outcome), Perform(running, op, outcome), wanted)
  {
  }

  lemma {:induction false} ActSpares(running: Running, wanted: Running, plan: Plan, op: Op, outcome: Outcome)
    requires Justified(plan, running, wanted) && op.name !in plan.stop && op.name !in plan.start
    ensures Justified(plan, Perform(running, op, outcome), wanted)
  {
  }

  lemma {:induction false} ActKeepsInv(s: System, role: Role, op: Op, outcome: Outcome, wanted: Running)
    requires Inv(s, wanted) && Offers(s.Pending(role), op, outcome)
    ensures Inv(After(s, Act(role, op, outcome)), wanted)
  {
    var t := After(s, Act(role, op, outcome));
    assert Within(s.Pending(role), role);
    forall r ensures Justified(t.Pending(r), t.running, wanted) && Within(t.Pending(r), r) {
      assert Justified(s.Pending(r), s.running, wanted) && Within(s.Pending(r), r);
      if r == role {
        ActMends(s.running, wanted, s.Pending(r), op, outcome);
      } else {
        ActSpares(s.running, wanted, s.Pending(r), op, outcome);
      }
    }
  }

  // no round is blind
  predicate Sighted(events: seq<Event>) {
    forall i :: 0 <= i < |events| && events[i].Begin? ==> !events[i].blind
  }

  /** Init never begins a round whose plan is not justified, and no round is blind. */
  ghost predicate SafeRun(desire: seq<AppInfo>, s: System, events: seq<Event>) {
    Sighted(events) && CarefulRun(desire, s, events)
  }

  // init begins no round whose plan is not justified, except blindly
  ghost predicate CarefulRun(desire: seq<AppInfo>, s: System, events: seq<Event>) {
    events == [] ||
    (CarefulRun(desire, s, events[..|events| - 1]) &&
     (events[|events| - 1].Begin? && events[|events| - 1].role == Init && !events[|events| - 1].blind ==>
        InitSafe(desire, End(s, events[..|events| - 1]).running)))
  }

  /** With at most one core application desired, init is always careful. */
  lemma {:induction false} OneCoreRunsSafe(desire: seq<AppInfo>, s: System, events: seq<Event>)
    requires OneCore(desire)
    ensures CarefulRun(desire, s, events)
  {
    if events != [] {
      OneCoreRunsSafe(desire, s, events[..|events| - 1]);
      OneCoreIsSafe(desire, End(s, events[..|events| - 1]).running);
    }
  }

  /** Every node starts out with no round in progress. */
  lemma {:induction false} StartsClean(running: Running, wanted: Running)
    ensures Inv(System(running, NOTHING, NOTHING), wanted) && Separated(System(running, NOTHING, NOTHING))
  {
  }

  /** Over any interleaving of the two processes' rounds, with any failures, the number of names that run
      the wrong version falls by exactly one for each operation that succeeds. */
  lemma {:induction false} MismatchConserved(desire: seq<AppInfo>, s: System, events: seq<Event>)
    requires SafeRun(desire, s, events)
    requires Inv(s, Wanted(desire)) && IsRun(desire, s, events)
    ensures Inv(End(s, events), Wanted(desire))
    ensures |Mismatch(End(s, events).running, Wanted(desire))| + Successes(events) ==
            |Mismatch(s.running, Wanted(desire))|
  {
    if events != [] {
      var front, e := events[..|events| - 1], events[|events| - 1];
      MismatchConserved(desire, s, front);
      EventConserves(desire, End(s, front), e);
    }
  }

  lemma {:induction false} EventConserves(desire: seq<AppInfo>, s: System, e: Event)
    requires e.Begin? ==> !e.blind && (e.role == Init ==> InitSafe(desire, s.running))
    requires Inv(s, Wanted(desire)) && Enabled(desire, s, e)
    ensures var wanted := Wanted(desire);
            && Inv(After(s, e), wanted)
            && |Mismatch(After(s, e).running, wanted)| + (if Succeeds(e) then 1 else 0) == |Mismatch(s.running, wanted)|
  {
    var wanted := Wanted(desire);
    match e {
      case Begin(role, plan, blind) =>
        PlannedIsJustified(role, plan, desire, s.running);
        PlannedIsWithin(role, plan, blind, desire, s.running);
        BeginKeeps(s, role, plan, wanted);
      case Abandon(role) =>
        BeginKeeps(s, role, NOTHING, wanted);
      case Act(role, op, outcome) =>
        ActKeepsInv(s, role, op, outcome, wanted);
        assert Justified(s.Pending(role), s.running, wanted);
        ActMends(s.running, wanted, s.Pending(role), op, outcome);
        OneLess(Mismatch(s.running, wanted), op.name);
    }
  }

  lemma {:induction false} OneLess(s: set<string>, n: string)
    requires n in s
    ensures |s - {n}| + 1 == |s|
  {
  }

  lemma {:induction false} BeginKeeps(s: System, role: Role, plan: Plan, wanted: Running)
    requires Inv(s, wanted) && Justified(plan, s.running, wanted) && Within(plan, role)
    ensures Inv(s.With(role, plan), wanted)
  {
    forall r ensures Justified(s.With(role, plan).Pending(r), s.running, wanted) &&
      Within(s.With(role, plan).Pending(r), r) {
      assert Justified(s.Pending(r), s.running, wanted) && Within(s.Pending(r), r);
    }
  }

  // each process has in hand only operations on names it manages
  ghost predicate Separated(s: System) {
    Within(s.core, Core) && Within(s.init, Init)
  }

  lemma {:induction false} StaysSeparated(desire: seq<AppInfo>, s: System, events: seq<Event>)
    requires Separated(s) && IsRun(desire, s, events)
    ensures Separated(End(s, events))
  {
    if events != [] {
      var front, e := events[..|events| - 1], events[|events| - 1];
      StaysSeparated(desire, s, front);
      if e.Begin? {
        PlannedIsWithin(e.role, e.plan, e.blind, desire, End(s, front).running);
      }
    }
  }

  /** Non-interference: in every run, for any desired list, each process touches only the names it manages. */
  lemma {:induction false} EachKeepsToItsOwn(desire: seq<AppInfo>, s: System, events: seq<Event>, i: nat)
    requires Separated(s) && IsRun(desire, s, events)
    requires i < |events| && events[i].Act?
    ensures Managed(events[i].role, events[i].op.name)
  {
    var front, e := events[..|events| - 1], events[|events| - 1];
    if i < |front| {
      EachKeepsToItsOwn(desire, s, front, i);
    } else {
      StaysSeparated(desire, s, front);
      assert Offers(End(s, front).Pending(e.role), e.op, e.outcome);
    }
  }

  // the events of a run that one process performs, and the names it manages
  function Own(events: seq<Event>, role: Role): seq<Event> {
    if events == [] then []
    else
      var front, e := Own(events[..|events| - 1], role), events[|events| - 1];
      if e.role == role then front + [e] else front
  }

  ghost predicate Separate(events: seq<Event>) {
    forall i :: 0 <= i < |events| && events[i].Act? ==> Managed(events[i].role, events[i].op.name)
  }

  lemma {:induction false} ForeignEventsInvisible(s: System, events: seq<Event>, role: Role, n: string)
    requires Separate(events) && Managed(role, n)
    ensures Agree(End(s, events).running, End(s, Own(events, role)).running, n)
    ensures End(s, events).Pending(role) == End(s, Own(events, role)).Pending(role)
  {
    if events != [] {
      var front, e := events[..|events| - 1], events[|events| - 1];
      ForeignEventsInvisible(s, front, role, n);
      var own := Own(front, role);
      if e.role == role {
        assert (own + [e])[..|own|] == own;
        AfterAgrees(End(s, front), End(s, own), e, n);
      } else {
        ForeignEvent(End(s, front), e, role, n);
      }
    }
  }

  lemma {:induction false} ForeignEvent(s: System, e: Event, role: Role, n: string)
    requires e.role != role && Managed(role, n) && (e.Act? ==> Managed(e.role, e.op.name))
    ensures Agree(After(s, e).running, s.running, n) && After(s, e).Pending(role) == s.Pending(role)
  {
  }

  /** What runs under the names of one process depends on that process's own events alone. */
  lemma {:induction false} OtherProcessInvisible(desire: seq<AppInfo>, s: System, events: seq<Event>, role: Role,
                                                 n: string)
    requires Separated(s) && IsRun(desire, s, events) && Managed(role, n)
    ensures Agree(End(s, events).running, End(s, Own(events, role)).running, n)
    ensures End(s, events).Pending(role) == End(s, Own(events, role)).Pending(role)
  {
    forall i | 0 <= i < |events| && events[i].Act? ensures Managed(events[i].role, events[i].op.name) {
      EachKeepsToItsOwn(desire, s, events, i);
    }
    ForeignEventsInvisible(s, events, role, n);
  }

  lemma {:induction false} AfterAgrees(s: System, t: System, e: Event, n: string)
    requires Agree(s.running, t.running, n) && s.Pending(e.role) == t.Pending(e.role)
    ensures Agree(After(s, e).running, After(t, e).running, n)
    ensures After(s, e).Pending(e.role) == After(t, e).Pending(e.role)
  {
  }
}
