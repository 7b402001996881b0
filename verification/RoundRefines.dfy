/** A round of the engine is a run of the two-process protocol, and a round without failures or refusals
    converges. */
module RoundRefines {
  import opened Model
  import opened AppLists
  import opened Quiescence
  import opened Reconcile
  import opened InitRound
  import opened TwoProcesses
  import opened Round
  import opened Ports

  function Events(role: Role, plan: Plan, log: seq<Step>): seq<Event> {
    if log == [] then [Begin(role, plan, false)]
    else
      Events(role, plan, log[..|log| - 1]) + [Act(role, log[|log| - 1].op, log[|log| - 1].outcome)]
  }

  function Handled(log: seq<Step>): (s: set<string>)
    ensures forall n :: n in s <==> Covers(log, n)
  {
    set i | 0 <= i < |log| :: log[i].op.name
  }

  function Left(plan: Plan, log: seq<Step>): Plan {
    Plan(plan.stop - Handled(log), plan.start - Handled(log))
  }

  // what the next step of a log may be
  predicate NextOk(plan: Plan, front: seq<Step>, last: Step, env: Surroundings) {
    && last.op.name !in Handled(front)
    && match last.op
       case Stop(n) => n in plan.stop && last.outcome == (if env.stopOk(n) then Done else KeptOld)
       case Start(n, v) => n in plan.start && plan.start[n] == v && plan.stop <= Handled(front)
  }

  lemma {:induction false} PrefixFollows(log: seq<Step>, plan: Plan, env: Surroundings)
    requires log != [] && Follows(log, plan, env) && Staged(log, plan)
    ensures var front := log[..|log| - 1];
            Follows(front, plan, env) && Staged(front, plan) && StopsDone(front) &&
              NextOk(plan, front, log[|log| - 1], env)
  {
  }

  predicate StopsDone(log: seq<Step>) {
    forall i :: 0 <= i < |log| && log[i].op.Stop? ==> log[i].outcome == Done
  }

  // unless a stop failed, what is left to do is what the log has not handled
  ghost predicate Reached(t: System, s: System, role: Role, plan: Plan, log: seq<Step>) {
    t.running == Replay(s.running, log) && (StopsDone(log) ==> t.Pending(role) == Left(plan, log))
  }

  lemma {:induction false} LogRuns(s: System, role: Role, plan: Plan, log: seq<Step>, env: Surroundings,
                                   desire: seq<AppInfo>)
    requires Follows(log, plan, env) && Staged(log, plan)
    requires forall n :: n in plan.stop ==> n !in plan.start
    requires Enabled(desire, s, Begin(role, plan, false))
    ensures IsRun(desire, s, Events(role, plan, log))
    ensures Reached(End(s, Events(role, plan, log)), s, role, plan, log)
  {
    if log == [] {
      BeginRuns(s, role, plan, desire);
    } else {
      PrefixFollows(log, plan, env);
      LogRuns(s, role, plan, log[..|log| - 1], env, desire);
      LastRuns(s, role, plan, log, env, desire);
    }
  }

  lemma {:induction false} LastRuns(s: System, role: Role, plan: Plan, log: seq<Step>, env: Surroundings,
                                    desire: seq<AppInfo>)
    requires log != [] && forall n :: n in plan.stop ==> n !in plan.start
    requires var front := log[..|log| - 1];
             && IsRun(desire, s, Events(role, plan, front))
             && Reached(End(s, Events(role, plan, front)), s, role, plan, front)
             && StopsDone(front) && NextOk(plan, front, log[|log| - 1], env)
    ensures IsRun(desire, s, Events(role, plan, log))
    ensures Reached(End(s, Events(role, plan, log)), s, role, plan, log)
  {
    var front, last := log[..|log| - 1], log[|log| - 1];
    assert log == front + [last];
    StepExtends(s, role, plan, front, last, env, desire);
  }

  lemma {:induction false} BeginRuns(s: System, role: Role, plan: Plan, desire: seq<AppInfo>)
    requires Enabled(desire, s, Begin(role, plan, false))
    ensures IsRun(desire, s, Events(role, plan, []))
    ensures Reached(End(s, Events(role, plan, [])), s, role, plan, [])
  {
    ExtendRun(desire, s, [], Begin(role, plan, false));
    assert [] + [Begin(role, plan, false)] == Events(role, plan, []);
    LeftNothing(plan);
  }

  lemma {:induction false} LeftNothing(plan: Plan)
    ensures Left(plan, []) == plan
  {
  }

  lemma {:induction false} StepExtends(s: System, role: Role, plan: Plan, front: seq<Step>, last: Step,
                                       env: Surroundings, desire: seq<AppInfo>)
    requires IsRun(desire, s, Events(role, plan, front))
    requires Reached(End(s, Events(role, plan, front)), s, role, plan, front) && StopsDone(front)
    requires NextOk(plan, front, last, env) && forall n :: n in plan.stop ==> n !in plan.start
    ensures IsRun(desire, s, Events(role, plan, front + [last]))
    ensures Reached(End(s, Events(role, plan, front + [last])), s, role, plan, front + [last])
  {
    var events, e := Events(role, plan, front), Act(role, last.op, last.outcome);
    assert (front + [last])[..|front|] == front;
    StepRuns(End(s, events), role, plan, front, last, env);
    ExtendRun(desire, s, events, e);
    if StopsDone(front + [last]) {
      assert (front + [last])[|front|] == last;
    }
  }

  lemma {:induction false} ExtendRun(desire: seq<AppInfo>, s: System, events: seq<Event>, e: Event)
    requires IsRun(desire, s, events) && Enabled(desire, End(s, events), e)
    ensures IsRun(desire, s, events + [e])
    ensures End(s, events + [e]) == After(End(s, events), e)
  {
  }

  lemma {:induction false} StepRuns(t: System, role: Role, plan: Plan, front: seq<Step>, last: Step, env: Surroundings)
    requires t.Pending(role) == Left(plan, front) && NextOk(plan, front, last, env)
    requires forall n :: n in plan.stop ==> n !in plan.start
    ensures Offers(t.Pending(role), last.op, last.outcome)
    ensures last.outcome == Done || last.op.Start? ==>
              After(t, Act(role, last.op, last.outcome)).Pending(role) == Left(plan, front + [last])
  {
    Append(front, last);
    assert Handled(front + [last]) == Handled(front) + {last.op.name};
    match last.op {
      case Stop(n) =>
        assert plan.start - Handled(front) - {n} == plan.start - Handled(front);
      case Start(n, v) =>
        assert plan.stop - Handled(front) == {};
    }
  }

  /** The engine's round refines the protocol: whatever fails, what a round does to a node is a run of the
      protocol that starts with its plan, so every result about runs holds of rounds. */
  lemma {:induction false} RoundIsRun(s: System, role: Role, desire: seq<AppInfo>, listed: seq<AppInfo>,
                                      report: seq<AppInfo>, delete: bool, env: Surroundings,
                                      stats: map<string, AppStats>, ok: bool, trace: Trace)
    requires Collected(report, listed, desire, trace.order, s.running)
    requires RoundGoes(PlanOf(role, desire, report), Filtered(role, desire), delete, env, stats, ok, trace)
    requires s.Pending(role) == NOTHING
    ensures IsRun(desire, s, Events(role, trace.plan, trace.log))
    ensures End(s, Events(role, trace.plan, trace.log)).running == Replay(s.running, trace.log)
  {
    var whole := PlanOf(role, desire, report);
    assert forall n :: n in whole.start ==> Named(Filtered(role, desire), n);
    assert forall n :: n in whole.stop ==> !Named(Filtered(role, desire), n);
    LogRuns(s, role, trace.plan, trace.log, env, desire);
  }

  lemma {:induction false} OnlyFirstBegins(role: Role, plan: Plan, log: seq<Step>)
    ensures var events := Events(role, plan, log);
            |events| == |log| + 1 && forall j :: 0 < j < |events| ==> events[j].Act?
  {
    if log != [] {
      OnlyFirstBegins(role, plan, log[..|log| - 1]);
    }
  }

  lemma {:induction false} OwnStarts(events: seq<Event>, role: Role)
    requires events != [] && events[0].role == role
    ensures Own(events, role) != []
  {
    if |events| > 1 {
      OwnStarts(events[..|events| - 1], role);
    }
  }

  // every event of the other process is enabled where it stands
  ghost predicate OthersEnabled(desire: seq<AppInfo>, s: System, events: seq<Event>, role: Role) {
    forall i :: 0 <= i < |events| && events[i].role != role ==> Enabled(desire, End(s, events[..i]), events[i])
  }

  lemma {:induction false} OthersEnabledBefore(desire: seq<AppInfo>, s: System, events: seq<Event>, role: Role)
    requires events != [] && OthersEnabled(desire, s, events, role)
    ensures OthersEnabled(desire, s, events[..|events| - 1], role)
    ensures var front, e := events[..|events| - 1], events[|events| - 1];
            e.role != role ==> Enabled(desire, End(s, front), e)
  {
    var front := events[..|events| - 1];
    assert forall i :: 0 <= i < |front| ==> front[..i] == events[..i] && front[i] == events[i];
  }

  // what an own event may do depends on what the process has in hand alone, save for the first
  lemma {:induction false} OwnEventEnabled(desire: seq<AppInfo>, t: System, u: System, e: Event)
    requires t.Pending(e.role) == u.Pending(e.role) && (t == u || e.Act?) && Enabled(desire, u, e)
    ensures Enabled(desire, t, e) && After(t, e).Pending(e.role) == After(u, e).Pending(e.role)
  {
  }

  // a run of one process stays a run when events of the other, each enabled where it stands, are inserted
  lemma {:induction false} Interleave(desire: seq<AppInfo>, s: System, events: seq<Event>, role: Role)
    requires events == [] || events[0].role == role
    requires IsRun(desire, s, Own(events, role)) && OthersEnabled(desire, s, events, role)
    requires forall j :: 0 < j < |Own(events, role)| ==> Own(events, role)[j].Act?
    ensures IsRun(desire, s, events)
    ensures End(s, events).Pending(role) == End(s, Own(events, role)).Pending(role)
  {
    if events != [] {
      var front, e := events[..|events| - 1], events[|events| - 1];
      var own := Own(front, role);
      OthersEnabledBefore(desire, s, events, role);
      if e.role == role {
        var all := Own(events, role);
        assert all == own + [e] && all[..|all| - 1] == own;
        Interleave(desire, s, front, role);
        if front != [] {
          OwnStarts(front, role);
          assert all[|own|].Act?;
        }
        OwnEventEnabled(desire, End(s, front), End(s, own), e);
      } else {
        Interleave(desire, s, front, role);
      }
    }
  }

  /** Also when operations of the other process fall in between: if each of these is enabled where it stands, the
      whole is a run, and under the names this process manages the node ends as the round alone would leave it. */
  lemma {:induction false} InterleavedRound(s: System, role: Role, desire: seq<AppInfo>, listed: seq<AppInfo>,
                                            report: seq<AppInfo>, delete: bool, env: Surroundings,
                                            stats: map<string, AppStats>, ok: bool, trace: Trace, events: seq<Event>,
                                            n: string)
    requires Collected(report, listed, desire, trace.order, s.running)
    requires RoundGoes(PlanOf(role, desire, report), Filtered(role, desire), delete, env, stats, ok, trace)
    requires s.Pending(role) == NOTHING && Separated(s)
    requires events != [] && events[0].role == role && Own(events, role) == Events(role, trace.plan, trace.log)
    requires OthersEnabled(desire, s, events, role)
    ensures IsRun(desire, s, events)
    ensures Managed(role, n) ==> Agree(End(s, events).running, Replay(s.running, trace.log), n)
  {
    RoundIsRun(s, role, desire, listed, report, delete, env, stats, ok, trace);
    OnlyFirstBegins(role, trace.plan, trace.log);
    Interleave(desire, s, events, role);
    if Managed(role, n) {
      OtherProcessInvisible(desire, s, events, role, n);
    }
  }

  /** No two applications a round starts share a host port. */
  lemma {:induction false} StartedPortsExclusive(role: Role, desire: seq<AppInfo>, report: seq<AppInfo>, delete: bool,
                                                 env: Surroundings, stats: map<string, AppStats>, ok: bool,
                                                 trace: Trace, n: string, m: string, p: int)
    requires WellFormed(env)
    requires RoundGoes(PlanOf(role, desire, report), Filtered(role, desire), delete, env, stats, ok, trace)
    requires n in trace.plan.start && m in trace.plan.start && env.appData.Some?
    requires n in env.appData.value && p in HostPorts(env.appData.value[n].services)
    requires m in env.appData.value && p in HostPorts(env.appData.value[m].services)
    ensures n == m
  {
    var dapps := Filtered(role, desire);
    assert Named(dapps, n) && Named(dapps, m);
    PortExclusion.Exclusive(dapps, env.appData.value, stats, trace.ports, n, m, p);
  }

  /** A name ends up as the one operation on it leaves it, or as it was. */
  lemma {:induction false} ReplayAt(running: Running, log: seq<Step>, n: string) returns (i: nat)
    requires forall i, j :: 0 <= i < j < |log| ==> log[i].op.name != log[j].op.name
    ensures if Covers(log, n)
            then i < |log| && log[i].op.name == n &&
              Agree(Replay(running, log), Perform(running, log[i].op, log[i].outcome), n)
            else Agree(Replay(running, log), running, n)
  {
    i := 0;
    if log != [] {
      var front, last := log[..|log| - 1], log[|log| - 1];
      i := ReplayAt(running, front, n);
      assert front + [last] == log;
      Append(front, last);
      if last.op.name == n {
        i := |front|;
        assert !Covers(front, n);
      }
    }
  }

  /** A core round with delete on, no failure and no port refused leaves every name core manages at the
      wanted version. */
  lemma {:induction false} RoundConverges(running: Running, desire: seq<AppInfo>, listed: seq<AppInfo>,
                                          report: seq<AppInfo>, env: Surroundings, stats: map<string, AppStats>,
                                          trace: Trace, n: string)
    requires Collected(report, listed, desire, trace.order, running)
    requires RoundGoes(PlanOf(Core, desire, report), Filtered(Core, desire), true, env, stats, true, trace)
    requires trace.plan == PlanOf(Core, desire, report)
    requires forall i :: 0 <= i < |trace.log| ==> trace.log[i].outcome == Done
    requires Managed(Core, n)
    ensures Agree(Replay(running, trace.log), Wanted(desire), n)
  {
    var plan, log := trace.plan, trace.log;
    CollectedIsAccurate(report, listed, desire, trace.order, running);
    CorePlanExactly(desire, report, running, n);
    var i := ReplayAt(running, log, n);
    if n in plan.stop || n in plan.start {
      assert Covers(log, n);
    }
  }

  /** A node is settled, so that a round performs nothing, exactly when what runs is what is desired. */
  lemma {:induction false} SettledExactly(running: Running, desire: seq<AppInfo>, listed: seq<AppInfo>,
                                          report: seq<AppInfo>, order: seq<string>)
    requires Collected(report, listed, desire, order, running) && DistinctNames(desire)
    ensures report == desire <==> Mismatch(running, Wanted(desire)) == {}
    ensures Mismatch(running, Wanted(desire)) == {} <==> running == Wanted(desire)
  {
    NothingWrong(running, Wanted(desire));
    QuiescentExactly(listed, desire, order);
    var wanted := Wanted(desire);
    forall x ensures x in desire <==> x.name in wanted && wanted[x.name] == x.version {
      ByNameOfDistinct(desire, x);
      if x.name in wanted && wanted[x.name] == x.version {
        assert ByName(desire)[x.name] == x;
      }
    }
    SameListsAgree(running, wanted, listed, desire);
  }

  lemma {:induction false} SameListsAgree(running: Running, wanted: Running, listed: seq<AppInfo>, desire: seq<AppInfo>)
    requires forall x :: x in listed <==> x.name in running && running[x.name] == x.version
    requires forall x :: x in desire <==> x.name in wanted && wanted[x.name] == x.version
    ensures (forall x :: x in listed <==> x in desire) <==> Mismatch(running, wanted) == {}
  {
    if forall x :: x in listed <==> x in desire {
      forall n ensures Agree(running, wanted, n) {
        if n in running { assert AppInfo(n, running[n]) in listed; }
        if n in wanted { assert AppInfo(n, wanted[n]) in desire; }
      }
    }
    if Mismatch(running, wanted) == {} {
      forall x ensures x in listed <==> x in desire {
        assert x.name !in Mismatch(running, wanted);
      }
    }
  }
}
