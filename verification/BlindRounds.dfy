/** Rounds that could not collect what runs (engine/engine.go:245-248) take the report to be empty and start
    everything again. The mismatches of a run with such rounds are accounted for exactly. */
module BlindRounds {
  import opened Model
  import opened Reconcile
  import opened InitRound
  import opened TwoProcesses

  // stops concern undesired running names, starts aim at the wanted version, right already or not
  ghost predicate Aimed(plan: Plan, running: Running, wanted: Running) {
    && (forall n :: n in plan.stop ==> n in running && n !in wanted)
    && (forall n :: n in plan.start ==> n in wanted && wanted[n] == plan.start[n])
  }

  ghost predicate AimedInv(s: System, wanted: Running) {
    && Aimed(s.core, s.running, wanted) && Within(s.core, Core)
    && Aimed(s.init, s.running, wanted) && Within(s.init, Init)
  }

  // a successful operation on a name that was wrong
  predicate Mends(running: Running, wanted: Running, e: Event) {
    Succeeds(e) && e.op.name in Mismatch(running, wanted)
  }

  // a failed start that takes away an application that was right
  predicate Harms(running: Running, wanted: Running, e: Event) {
    e.Act? && e.op.Start? && e.outcome == LeftAbsent && e.op.name !in Mismatch(running, wanted)
  }

  function Mended(s: System, wanted: Running, events: seq<Event>): nat {
    if events == [] then 0
    else
      var front, e := events[..|events| - 1], events[|events| - 1];
      Mended(s, wanted, front) + if Mends(End(s, front).running, wanted, e) then 1 else 0
  }

  function Harmed(s: System, wanted: Running, events: seq<Event>): nat {
    if events == [] then 0
    else
      var front, e := events[..|events| - 1], events[|events| - 1];
      Harmed(s, wanted, front) + if Harms(End(s, front).running, wanted, e) then 1 else 0
  }

  lemma {:induction false} PlannedIsAimed(role: Role, plan: Plan, blind: bool, desire: seq<AppInfo>, running: Running)
    requires Planned(role, plan, blind, desire, running)
    requires role == Init ==> if blind then !Superseded(desire) else InitSafe(desire, running)
    ensures Aimed(plan, running, Wanted(desire)) && Within(plan, role)
  {
    PlannedIsWithin(role, plan, blind, desire, running);
    if !blind {
      PlannedIsJustified(role, plan, desire, running);
    } else if role == Init {
      BlindInitRound(desire);
      FirstIsNamed(desire);
    } else {
      forall n
        ensures n !in plan.stop
        ensures n in plan.start ==> n in Wanted(desire) && Wanted(desire)[n] == plan.start[n]
      {
        BlindRound(desire, n);
      }
    }
  }

  lemma {:induction false} ActAccounts(running: Running, wanted: Running, plan: Plan, e: Event)
    requires Aimed(plan, running, wanted) && e.Act? && Offers(plan, e.op, e.outcome)
    ensures var after := Perform(running, e.op, e.outcome);
            && Mismatch(after, wanted) == Mismatch(running, wanted)
                - (if Mends(running, wanted, e) then {e.op.name} else {})
                + (if Harms(running, wanted, e) then {e.op.name} else {})
            && Aimed(Rest(plan, e.op, e.outcome), after, wanted)
  {
  }

  lemma {:induction false} ActSparesAim(running: Running, wanted: Running, plan: Plan, op: Op, outcome: Outcome)
    requires Aimed(plan, running, wanted) && op.name !in plan.stop && op.name !in plan.start
    ensures Aimed(plan, Perform(running, op, outcome), wanted)
  {
  }

  lemma {:induction false} ActKeepsAim(s: System, e: Event, wanted: Running)
    requires AimedInv(s, wanted) && e.Act? && Offers(s.Pending(e.role), e.op, e.outcome)
    ensures AimedInv(After(s, e), wanted)
  {
    ActAccounts(s.running, wanted, s.Pending(e.role), e);
    match e.role {
      case Core => ActSparesAim(s.running, wanted, s.init, e.op, e.outcome);
      case Init => ActSparesAim(s.running, wanted, s.core, e.op, e.outcome);
    }
  }

  lemma {:induction false} SizeAccounts(before: set<string>, after: set<string>, n: string, mends: bool, harms: bool)
    requires !(mends && harms) && (mends ==> n in before) && (harms ==> n !in before)
    requires after == before - (if mends then {n} else {}) + (if harms then {n} else {})
    ensures |after| + (if mends then 1 else 0) == |before| + (if harms then 1 else 0)
  {
  }

  lemma {:induction false} EventAccounts(desire: seq<AppInfo>, s: System, e: Event)
    requires Enabled(desire, s, e)
    requires e.Begin? && e.role == Init ==> if e.blind then !Superseded(desire) else InitSafe(desire, s.running)
    requires AimedInv(s, Wanted(desire))
    ensures AimedInv(After(s, e), Wanted(desire))
    ensures var wanted := Wanted(desire);
            |Mismatch(After(s, e).running, wanted)| + (if Mends(s.running, wanted, e) then 1 else 0) ==
            |Mismatch(s.running, wanted)| + (if Harms(s.running, wanted, e) then 1 else 0)
  {
    var wanted := Wanted(desire);
    match e {
      case Begin(role, plan, blind) =>
        PlannedIsAimed(role, plan, blind, desire, s.running);
      case Abandon(_) =>
      case Act(role, op, outcome) =>
        ActKeepsAim(s, e, wanted);
        ActAccounts(s.running, wanted, s.Pending(role), e);
        SizeAccounts(Mismatch(s.running, wanted), Mismatch(After(s, e).running, wanted), op.name,
                     Mends(s.running, wanted, e), Harms(s.running, wanted, e));
    }
  }

  // some round of the init process is blind
  predicate InitBlind(events: seq<Event>) {
    exists i :: 0 <= i < |events| && events[i].Begin? && events[i].role == Init && events[i].blind
  }

  /** Over any interleaving with any failures and any blind rounds: mismatches at the end plus mended names equal
      mismatches at the start plus applications that were right and that a failed start took away. */
  lemma {:induction false} MismatchAccounted(desire: seq<AppInfo>, s: System, events: seq<Event>)
    requires CarefulRun(desire, s, events) && (InitBlind(events) ==> !Superseded(desire))
    requires AimedInv(s, Wanted(desire)) && IsRun(desire, s, events)
    ensures AimedInv(End(s, events), Wanted(desire))
    ensures var wanted := Wanted(desire);
            |Mismatch(End(s, events).running, wanted)| + Mended(s, wanted, events) ==
            |Mismatch(s.running, wanted)| + Harmed(s, wanted, events)
  {
    if events != [] {
      var front, e := events[..|events| - 1], events[|events| - 1];
      assert e == events[|front|] && forall i :: 0 <= i < |front| ==> front[i] == events[i];
      MismatchAccounted(desire, s, front);
      EventAccounts(desire, End(s, front), e);
    }
  }
}
