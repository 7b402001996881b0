/** One reconcile round as the engine performs it (engine/engine.go reportAndApply, applyApps). */
module Round {
  import opened Model
  import opened AppLists
  import opened Reconcile
  import Ports
  import PortExclusion

  datatype Step = Step(op: Op, outcome: Outcome)

  function Replay(running: Running, log: seq<Step>): Running {
    if log == [] then running
    else Perform(Replay(running, log[..|log| - 1]), log[|log| - 1].op, log[|log| - 1].outcome)
  }

  /** What the surroundings answer during one round: the two report transactions, the desired applications
      fetched from the cloud, and for each name how stopping or starting it ends. */
  datatype Surroundings = Surroundings(reportOk: bool, appData: Option<map<string, Application>>, statsOk: bool,
                                       lastReportOk: bool, stopOk: string -> bool, startEnds: string -> Outcome)

  ghost predicate WellFormed(env: Surroundings) {
    env.appData.Some? ==> PortExclusion.Keyed(env.appData.value)
  }

  // log performs operations of plan, each name at most once, with the outcomes env prescribes
  ghost predicate Follows(log: seq<Step>, plan: Plan, env: Surroundings) {
    && (forall i, j :: 0 <= i < j < |log| ==> log[i].op.name != log[j].op.name)
    && (forall i :: 0 <= i < |log| ==>
          match log[i].op
          case Stop(n) => n in plan.stop && log[i].outcome == (if env.stopOk(n) then Done else KeptOld)
          case Start(n, v) => n in plan.start && plan.start[n] == v && log[i].outcome == env.startEnds(n))
  }

  predicate Covers(log: seq<Step>, n: string) {
    exists i :: 0 <= i < |log| && log[i].op.name == n
  }

  /** The choices a round leaves open, and what it did. */
  datatype Trace = Trace(order: seq<string>, ports: seq<int>, plan: Plan, log: seq<Step>)

  // starts come after all stops succeeded, and nothing comes after a failed stop
  ghost predicate Staged(log: seq<Step>, plan: Plan) {
    && (forall i :: 0 <= i < |log| && log[i].op.Stop? ==> log[i].outcome == Done || i == |log| - 1)
    && (forall i, n :: 0 <= i < |log| && log[i].op.Start? && n in plan.stop ==> Covers(log[..i], n))
  }

  // stops only, and the last one failed
  predicate StoppedShort(log: seq<Step>) {
    && log != [] && log[|log| - 1].outcome == KeptOld
    && forall i :: 0 <= i < |log| ==> log[i].op.Stop?
  }

  // what a round with differing lists set out to do and did: whole is the difference of the filtered lists
  ghost predicate RoundGoes(whole: Plan, dapps: seq<AppInfo>, delete: bool, env: Surroundings,
                            stats: map<string, AppStats>, ok: bool, trace: Trace) {
    && Inside(trace.plan, whole)
    && Follows(trace.log, trace.plan, env) && Staged(trace.log, trace.plan)
    && (if !env.reportOk || env.appData.None? then !ok && trace.plan == NOTHING && trace.log == []
        else
          && IsOrder(trace.ports, Ports.EnrollAll(dapps, env.appData.value, stats).ports.Keys)
          && var checked := PortExclusion.Checked(dapps, env.appData.value, stats, trace.ports);
          && trace.plan == Plan(if delete then whole.stop else {}, whole.start - checked.del)
          && RoundEnds(checked.stats, env, ok, trace))
  }

  // how far a planned round gets: not at all, up to the first stop that fails, or through the whole plan
  ghost predicate RoundEnds(stats: map<string, AppStats>, env: Surroundings, ok: bool, trace: Trace) {
    var plan, log := trace.plan, trace.log;
    if stats != map[] && !env.statsOk then !ok && log == []
    else if exists n :: n in plan.stop && !env.stopOk(n) then !ok && StoppedShort(log)
    else
      && (forall n :: n in plan.stop || n in plan.start ==> Covers(log, n))
      && (ok <==> env.lastReportOk || (stats == map[] && forall i :: 0 <= i < |log| ==> log[i].outcome == Done))
  }

  class Reconciler {
    var running: Running
    var stats: map<string, AppStats>

    constructor (running: Running, stats: map<string, AppStats>)
      ensures this.running == running && this.stats == stats
    {
      this.running, this.stats := running, stats;
    }

    method ReportAndApply(role: Role, desire: seq<AppInfo>, delete: bool, listed: seq<AppInfo>, env: Surroundings)
      returns (ok: bool, ghost trace: Trace)
      requires WellFormed(env)
      modifies this
      ensures IsOrder(trace.order, Leftover(listed, desire).Keys)
      ensures running == Replay(old(running), trace.log)
      ensures var report := Aligned(listed, desire, trace.order);
              if report == desire then trace.log == [] && ok == env.reportOk
              else RoundGoes(PlanOf(role, desire, report), Filtered(role, desire), delete, env, old(stats), ok, trace)
      ensures CausesKept(trace.log, stats)
      ensures Aligned(listed, desire, trace.order) != desire ==>
                RejectionsKept(Filtered(role, desire), env, old(stats), trace, stats)
      // a failed start adds its cause to what the port check left, and every other entry stays as that left it
      ensures var before := if Aligned(listed, desire, trace.order) != desire && env.reportOk && env.appData.Some? then
                              PortExclusion.Checked(Filtered(role, desire), env.appData.value, old(stats),
                                                    trace.ports).stats
                            else old(stats);
              forall n ::
                if exists i, v :: 0 <= i < |trace.log| && trace.log[i].op == Start(n, v) && trace.log[i].outcome != Done
                then
                  && n in stats
                  && (n in before ==> stats[n] == before[n].(cause := before[n].cause + [ApplyError(n)]))
                  && (n !in before ==> stats[n] == AppStats(AppInfo("", ""), UnknownStatus, [ApplyError(n)], map[]))
                else (n in stats <==> n in before) && (n in stats ==> stats[n] == before[n])
      ensures !delete ==> forall i :: 0 <= i < |trace.log| ==> trace.log[i].op.Start?
      ensures !env.reportOk || (Aligned(listed, desire, trace.order) != desire && env.appData.None?) ==>
                !ok && running == old(running) && stats == old(stats)
    {
      trace := Trace([], [], NOTHING, []);
      var rapps := AlignApps(listed, desire);
      ghost var order :| IsOrder(order, Leftover(listed, desire).Keys) && rapps == Aligned(listed, desire, order);
      if !env.reportOk {
        return false, trace.(order := order);
      }
      // the delta carries the desired list exactly when the two lists differ
      if rapps == desire {
        return true, trace.(order := order);
      }
      ok, trace := ApplyDelta(role, desire, delete, rapps, env);
      trace := trace.(order := order);
      EntriesMean(PortStats(Filtered(role, desire), env, old(stats), trace.ports), stats, trace.log);
    }

    // the rest of the round, once the lists are known to differ
    method ApplyDelta(role: Role, desire: seq<AppInfo>, delete: bool, report: seq<AppInfo>, env: Surroundings)
      returns (ok: bool, ghost trace: Trace)
      requires WellFormed(env) && env.reportOk
      modifies this
      ensures forall n :: EntryAfter(PortStats(Filtered(role, desire), env, old(stats), trace.ports), stats, n,
                                     FailedStart(trace.log, n))
      ensures !delete ==> forall i :: 0 <= i < |trace.log| ==> trace.log[i].op.Start?
      ensures running == Replay(old(running), trace.log)
      ensures RoundGoes(PlanOf(role, desire, report), Filtered(role, desire), delete, env, old(stats), ok, trace)
      ensures CausesKept(trace.log, stats)
      ensures RejectionsKept(Filtered(role, desire), env, old(stats), trace, stats)
    {
      trace := Trace([], [], NOTHING, []);
      var dapps, del, update := PlanRound(role, desire, report);
      if env.appData.None? {
        return false, trace;
      }
      ghost var ports;
      update, ports := RefusePorts(dapps, update, env.appData.value);
      trace := Trace([], ports, Plan(if delete then del.Keys else {}, Versions(update)), []);
      ghost var checked := stats;
      ok, trace := Finish(if delete then del.Keys else {}, update, env, trace);
      assert forall n :: FailedStart(trace.log, n) ==> n in update;
      assert checked == PortStats(dapps, env, old(stats), ports);
      RejectionsStay(dapps, env, old(stats), trace, checked, stats, update.Keys);
    }

    // between and after the two reports of the statistics, which are skipped when there are none
    method Finish(stop: set<string>, update: map<string, AppInfo>, env: Surroundings, ghost planned: Trace)
      returns (ok: bool, ghost trace: Trace)
      requires planned.plan == Plan(stop, Versions(update)) && planned.log == []
      requires forall n :: n in update ==> n !in stop
      modifies this
      ensures trace == planned.(log := trace.log) && running == Replay(old(running), trace.log)
      ensures Follows(trace.log, trace.plan, env) && Staged(trace.log, trace.plan)
      ensures RoundEnds(old(stats), env, ok, trace)
      ensures CausesKept(trace.log, stats)
      ensures forall n :: EntryAfter(old(stats), stats, n, FailedStart(trace.log, n))
    {
      trace := planned;
      if stats != map[] && !env.statsOk {
        return false, trace;
      }
      ghost var log;
      ok, log := Execute(stop, update, env, planned.plan);
      trace := planned.(log := log);
      if ok && stats != map[] && !env.lastReportOk {
        ok := false;
      }
    }

    // filters for the process and the difference
    method PlanRound(role: Role, desire: seq<AppInfo>, report: seq<AppInfo>)
      returns (dapps: seq<AppInfo>, del: map<string, AppInfo>, update: map<string, AppInfo>)
      ensures dapps == Filtered(role, desire)
      ensures del.Keys == PlanOf(role, desire, report).stop && Versions(update) == PlanOf(role, desire, report).start
      ensures forall n :: n in update ==> n !in del
    {
      dapps := desire;
      var rapps := report;
      match role {
        case Core =>
          dapps := FilterAppNotLike(dapps, Some([CORE]));
          rapps := FilterAppNotLike(rapps, Some([CORE]));
        case Init =>
          dapps := FilterAppLike(dapps, Some([CORE]));
          rapps := FilterAppLike(rapps, Some([CORE]));
      }
      del, update := GetDeleteAndUpdate(dapps, rapps);
      DifferenceFromParts(dapps, rapps, del, update);
    }

    method RefusePorts(dapps: seq<AppInfo>, update0: map<string, AppInfo>, apps: map<string, Application>)
      returns (update: map<string, AppInfo>, ghost ports: seq<int>)
      requires PortExclusion.Keyed(apps)
      modifies this`stats
      ensures var del := PortExclusion.Checked(dapps, apps, old(stats), ports).del;
              update == update0 - del && Versions(update) == Versions(update0) - del
      ensures stats == PortExclusion.Checked(dapps, apps, old(stats), ports).stats
      ensures IsOrder(ports, Ports.EnrollAll(dapps, apps, old(stats)).ports.Keys)
    {
      var maps := new Ports.RoundMaps(apps, stats, update0);
      ports := maps.CheckMultiAppPort(dapps);
      stats, update := maps.stats, maps.update;
    }

    method Execute(stop: set<string>, update: map<string, AppInfo>, env: Surroundings, ghost plan: Plan)
      returns (ok: bool, ghost log: seq<Step>)
      requires plan == Plan(stop, Versions(update)) && forall n :: n in update ==> n !in stop
      modifies this
      ensures running == Replay(old(running), log) && Follows(log, plan, env) && Staged(log, plan)
      ensures ok <==> forall n :: n in plan.stop ==> env.stopOk(n)
      ensures !ok ==> StoppedShort(log)
      ensures ok ==> forall n :: n in plan.stop || n in plan.start ==> Covers(log, n)
      ensures ok ==> (stats == map[] <==> old(stats) == map[] && forall i :: 0 <= i < |log| ==> log[i].outcome == Done)
      ensures CausesKept(log, stats)
      ensures forall n :: EntryAfter(old(stats), stats, n, FailedStart(log, n))
    {
      ok, log := DeleteApps(stop, env, plan);
      if ok {
        log := ApplyApps(update, env, plan, log, old(running));
      }
      EntriesFromLog(old(stats), stats, if ok then update.Keys else {}, log, ok, plan, env);
    }

    // stops names in any order until one fails
    method DeleteApps(names: set<string>, env: Surroundings, ghost plan: Plan) returns (ok: bool, ghost log: seq<Step>)
      requires names == plan.stop
      modifies this`running
      ensures running == Replay(old(running), log)
      ensures ok <==> forall n :: n in names ==> env.stopOk(n)
      ensures if ok then Stopped(log, names, plan, env) else Halted(log, names, plan, env)
    {
      log := [];
      var rest := names;
      while rest != {}
        invariant rest <= names
        invariant running == Replay(old(running), log) && Stopped(log, names - rest, plan, env)
      {
        var n := Pick(rest);
        ghost var step := Step(Stop(n), if env.stopOk(n) then Done else KeptOld);
        StopOn(old(running), log, n, names - rest, plan, env);
        assert names - (rest - {n}) == names - rest + {n};
        log := log + [step];
        rest := rest - {n};
        if env.stopOk(n) {
          running := running - {n};
        } else {
          HaltedIn(log, names - rest, names, plan, env);
          return false, log;
        }
      }
      assert names - rest == names;
      ok := true;
    }

    // starts what is left to update; the goroutines may finish in any order
    method ApplyApps(update: map<string, AppInfo>, env: Surroundings, ghost plan: Plan, ghost log0: seq<Step>,
                     ghost before: Running)
      returns (ghost log: seq<Step>)
      requires forall n :: n in update ==> n in plan.start && plan.start[n] == update[n].version && n !in plan.stop
      requires running == Replay(before, log0) && Ready(log0, plan, env)
      requires forall n :: n in update ==> !Covers(log0, n)
      modifies this
      ensures running == Replay(before, log) && Ready(log, plan, env)
      ensures forall n :: Covers(log, n) <==> Covers(log0, n) || n in update
      ensures stats == map[] <==> old(stats) == map[] && forall i :: |log0| <= i < |log| ==> log[i].outcome == Done
      ensures log0 <= log
      ensures Applied(old(stats), stats, update.Keys, env)
    {
      log := log0;
      var rest := update.Keys;
      while rest != {}
        invariant rest <= update.Keys
        invariant running == Replay(before, log) && Ready(log, plan, env)
        invariant forall n :: Covers(log, n) <==> Covers(log0, n) || n in update.Keys - rest
        invariant stats == map[] <==> old(stats) == map[] && forall i :: |log0| <= i < |log| ==> log[i].outcome == Done
        invariant log0 <= log && Applied(old(stats), stats, update.Keys - rest, env)
      {
        var n := Pick(rest);
        ghost var step := Step(Start(n, update[n].version), env.startEnds(n));
        StartOn(log, step, plan, env);
        ghost var sofar := stats;
        ApplyOne(n, update[n].version, env);
        AppliedOn(old(stats), sofar, stats, update.Keys - rest, n, env);
        assert update.Keys - rest + {n} == update.Keys - (rest - {n});
        Append(log, step);
        log := log + [step];
        rest := rest - {n};
      }
      assert update.Keys - rest == update.Keys;
    }

    method ApplyOne(n: string, v: string, env: Surroundings)
      modifies this
      ensures running == Perform(old(running), Start(n, v), env.startEnds(n))
      ensures running == match env.startEnds(n)
                         case Done => old(running)[n := v]
                         case KeptOld => old(running)
                         case LeftAbsent => old(running) - {n}
      ensures forall m :: m != n ==> (m in stats <==> m in old(stats)) && (m in stats ==> stats[m] == old(stats)[m])
      ensures env.startEnds(n) == Done ==> stats == old(stats)
      ensures env.startEnds(n) != Done ==>
                && n in stats
                && (n in old(stats) ==> stats[n] == old(stats)[n].(cause := old(stats)[n].cause + [ApplyError(n)]))
                && (n !in old(stats) ==> stats[n] == AppStats(AppInfo("", ""), UnknownStatus, [ApplyError(n)], map[]))
      ensures stats == map[] <==> old(stats) == map[] && env.startEnds(n) == Done
    {
      match env.startEnds(n) {
        case Done => running := running[n := v];
        case KeptOld =>
        case LeftAbsent => running := running - {n};
      }
      if env.startEnds(n) != Done {
        var stat := if n in stats then stats[n] else AppStats(AppInfo("", ""), UnknownStatus, [], map[]);
        stats := stats[n := stat.(cause := stat.cause + [ApplyError(n)])];
        assert n in stats;
      }
    }
  }

  // log stops exactly these names, each successfully
  ghost predicate Stopped(log: seq<Step>, names: set<string>, plan: Plan, env: Surroundings) {
    && Follows(log, plan, env)
    && (forall i :: 0 <= i < |log| ==> log[i].op.Stop? && log[i].outcome == Done)
    && (forall n :: n in names ==> env.stopOk(n))
    && (forall n :: Covers(log, n) <==> n in names)
  }

  // log stops some of these names, up to the first that fails
  ghost predicate Halted(log: seq<Step>, names: set<string>, plan: Plan, env: Surroundings) {
    && Follows(log, plan, env) && StoppedShort(log)
    && (forall i :: 0 <= i < |log| - 1 ==> log[i].outcome == Done)
    && (forall n :: Covers(log, n) ==> n in names)
  }

  lemma {:induction false} HaltedIn(log: seq<Step>, some: set<string>, names: set<string>, plan: Plan, env: Surroundings)
    requires Halted(log, some, plan, env) && some <= names
    ensures Halted(log, names, plan, env)
  {
  }

  lemma {:induction false} StopOn(before: Running, log: seq<Step>, n: string, names: set<string>, plan: Plan,
                                  env: Surroundings)
    requires Stopped(log, names, plan, env) && n in plan.stop && n !in names
    ensures var step := Step(Stop(n), if env.stopOk(n) then Done else KeptOld);
            && Replay(before, log + [step]) == (if env.stopOk(n) then Replay(before, log) - {n} else Replay(before, log))
            && (if env.stopOk(n) then Stopped(log + [step], names + {n}, plan, env)
                else Halted(log + [step], names + {n}, plan, env))
  {
    var step := Step(Stop(n), if env.stopOk(n) then Done else KeptOld);
    Append(log, step);
    FollowsOn(log, step, plan, env);
  }

  ghost predicate FailedStart(log: seq<Step>, n: string) {
    exists i, v :: 0 <= i < |log| && log[i].op == Start(n, v) && log[i].outcome != Done
  }

  lemma {:induction false} FailedStartExactly(log: seq<Step>, n: string, ok: bool, plan: Plan, env: Surroundings)
    requires Follows(log, plan, env) && forall m :: m in plan.start ==> m !in plan.stop
    requires if ok then n in plan.start ==> Covers(log, n) else StoppedShort(log)
    ensures FailedStart(log, n) <==> ok && n in plan.start && env.startEnds(n) != Done
  {
    if ok && n in plan.start {
      var i :| 0 <= i < |log| && log[i].op.name == n;
      assert log[i].op == Start(n, plan.start[n]);
    }
  }

  // a failed start appends to the cause of its entry; other entries stay
  predicate EntryAfter(before: map<string, AppStats>, after: map<string, AppStats>, n: string, failed: bool) {
    if !failed then (n in after <==> n in before) && (n in after ==> after[n] == before[n])
    else
      && n in after
      && (n in before ==> after[n] == before[n].(cause := before[n].cause + [ApplyError(n)]))
      && (n !in before ==> after[n] == AppStats(AppInfo("", ""), UnknownStatus, [ApplyError(n)], map[]))
  }

  lemma {:induction false} EntriesMean(before: map<string, AppStats>, after: map<string, AppStats>, log: seq<Step>)
    requires forall n :: EntryAfter(before, after, n, FailedStart(log, n))
    ensures forall n ::
              if exists i, v :: 0 <= i < |log| && log[i].op == Start(n, v) && log[i].outcome != Done then
                && n in after
                && (n in before ==> after[n] == before[n].(cause := before[n].cause + [ApplyError(n)]))
                && (n !in before ==> after[n] == AppStats(AppInfo("", ""), UnknownStatus, [ApplyError(n)], map[]))
              else (n in after <==> n in before) && (n in after ==> after[n] == before[n])
  {
    forall n
      ensures if exists i, v :: 0 <= i < |log| && log[i].op == Start(n, v) && log[i].outcome != Done then
                && n in after
                && (n in before ==> after[n] == before[n].(cause := before[n].cause + [ApplyError(n)]))
                && (n !in before ==> after[n] == AppStats(AppInfo("", ""), UnknownStatus, [ApplyError(n)], map[]))
              else (n in after <==> n in before) && (n in after ==> after[n] == before[n])
    {
      assert EntryAfter(before, after, n, FailedStart(log, n));
    }
  }

  // what the port check leaves, where the round gets that far
  ghost function PortStats(dapps: seq<AppInfo>, env: Surroundings, before: map<string, AppStats>,
                           ports: seq<int>): map<string, AppStats>
  {
    if env.appData.Some? then PortExclusion.Checked(dapps, env.appData.value, before, ports).stats else before
  }

  // after the starts of these names
  ghost predicate Applied(before: map<string, AppStats>, after: map<string, AppStats>, names: set<string>,
                          env: Surroundings) {
    forall n :: EntryAfter(before, after, n, n in names && env.startEnds(n) != Done)
  }

  lemma {:induction false} AppliedOn(before: map<string, AppStats>, sofar: map<string, AppStats>,
                                     after: map<string, AppStats>, names: set<string>, n: string, env: Surroundings)
    requires Applied(before, sofar, names, env) && n !in names
    requires forall m :: m != n ==> (m in after <==> m in sofar) && (m in after ==> after[m] == sofar[m])
    requires EntryAfter(sofar, after, n, env.startEnds(n) != Done)
    ensures Applied(before, after, names + {n}, env)
  {
    forall m ensures EntryAfter(before, after, m, m in names + {n} && env.startEnds(m) != Done) {
      assert EntryAfter(before, sofar, m, m in names && env.startEnds(m) != Done);
    }
  }

  lemma {:induction false} EntriesFromLog(before: map<string, AppStats>, after: map<string, AppStats>,
                                          names: set<string>, log: seq<Step>, ok: bool, plan: Plan, env: Surroundings)
    requires Follows(log, plan, env) && forall m :: m in plan.start ==> m !in plan.stop
    requires if ok then forall m :: m in plan.start ==> Covers(log, m) else StoppedShort(log)
    requires names == if ok then plan.start.Keys else {}
    requires Applied(before, after, names, env)
    ensures forall n :: EntryAfter(before, after, n, FailedStart(log, n))
    ensures CausesKept(log, after)
  {
    forall n ensures EntryAfter(before, after, n, FailedStart(log, n)) {
      FailedStartExactly(log, n, ok, plan, env);
      assert EntryAfter(before, after, n, n in names && env.startEnds(n) != Done);
    }
    forall i | 0 <= i < |log| && log[i].outcome != Done && log[i].op.Start?
      ensures log[i].op.name in after && after[log[i].op.name].cause != []
    {
      assert log[i].op == Start(log[i].op.name, log[i].op.version);
      assert EntryAfter(before, after, log[i].op.name, FailedStart(log, log[i].op.name));
    }
  }

  // only the entries of these names may differ
  ghost predicate KeptExcept(before: map<string, AppStats>, after: map<string, AppStats>, touched: set<string>) {
    forall n :: n !in touched ==> (n in after <==> n in before) && (n in after ==> after[n] == before[n])
  }

  // every application the port check rejected still carries its cause
  ghost predicate RejectionsKept(dapps: seq<AppInfo>, env: Surroundings, before: map<string, AppStats>, trace: Trace,
                                 stats: map<string, AppStats>) {
    env.reportOk && env.appData.Some? ==>
      forall n :: n in PortExclusion.Checked(dapps, env.appData.value, before, trace.ports).del ==>
        PortExclusion.Recorded(stats, n)
  }

  lemma {:induction false} RejectionsStay(dapps: seq<AppInfo>, env: Surroundings, before: map<string, AppStats>,
                                          trace: Trace, checked: map<string, AppStats>, stats: map<string, AppStats>,
                                          started: set<string>)
    requires WellFormed(env) && env.appData.Some?
    requires IsOrder(trace.ports, Ports.EnrollAll(dapps, env.appData.value, before).ports.Keys)
    requires checked == PortExclusion.Checked(dapps, env.appData.value, before, trace.ports).stats
    requires KeptExcept(checked, stats, started)
    requires forall n :: n in started ==> n !in PortExclusion.Checked(dapps, env.appData.value, before, trace.ports).del
    ensures RejectionsKept(dapps, env, before, trace, stats)
  {
    forall n | n in PortExclusion.Checked(dapps, env.appData.value, before, trace.ports).del
      ensures PortExclusion.Recorded(stats, n)
    {
      PortExclusion.JustifiedAndRecorded(dapps, env.appData.value, before, trace.ports, n);
    }
  }

  // every failed start has left a cause
  ghost predicate CausesKept(log: seq<Step>, stats: map<string, AppStats>) {
    forall i :: 0 <= i < |log| && log[i].outcome != Done && log[i].op.Start? ==>
      log[i].op.name in stats && stats[log[i].op.name].cause != []
  }

  // log may go on with starts
  ghost predicate Ready(log: seq<Step>, plan: Plan, env: Surroundings) {
    && Follows(log, plan, env) && Staged(log, plan)
    && (forall n :: n in plan.stop ==> Covers(log, n))
    && (forall i :: 0 <= i < |log| && log[i].op.Stop? ==> log[i].outcome == Done)
  }

  lemma {:induction false} StartOn(log: seq<Step>, step: Step, plan: Plan, env: Surroundings)
    requires Ready(log, plan, env) && !Covers(log, step.op.name)
    requires step.op.Start? && step.op.name in plan.start && plan.start[step.op.name] == step.op.version &&
             step.outcome == env.startEnds(step.op.name)
    ensures Ready(log + [step], plan, env)
  {
    FollowsOn(log, step, plan, env);
    StagedOn(log, step, plan);
    Append(log, step);
  }

  lemma {:induction false} Append(log: seq<Step>, step: Step)
    ensures forall n :: Covers(log + [step], n) <==> Covers(log, n) || n == step.op.name
    ensures forall running :: Replay(running, log + [step]) == Perform(Replay(running, log), step.op, step.outcome)
  {
    assert (log + [step])[..|log|] == log;
    forall n ensures Covers(log + [step], n) <==> Covers(log, n) || n == step.op.name {
      assert (log + [step])[|log|] == step;
      if i :| 0 <= i < |log| && log[i].op.name == n {
        assert (log + [step])[i] == log[i];
      }
    }
  }

  lemma {:induction false} FollowsOn(log: seq<Step>, step: Step, plan: Plan, env: Surroundings)
    requires Follows(log, plan, env) && !Covers(log, step.op.name)
    requires match step.op
             case Stop(n) => n in plan.stop && step.outcome == (if env.stopOk(n) then Done else KeptOld)
             case Start(n, v) => n in plan.start && plan.start[n] == v && step.outcome == env.startEnds(n)
    ensures Follows(log + [step], plan, env)
  {
  }

  lemma {:induction false} DifferenceFromParts(d: seq<AppInfo>, r: seq<AppInfo>, del: map<string, AppInfo>,
                                               update: map<string, AppInfo>)
    requires forall n :: n in del <==> Named(r, n) && !Named(d, n)
    requires forall n :: n in update <==> Named(d, n) && ByName(d)[n] !in r
    requires forall n :: n in update ==> update[n] == ByName(d)[n]
    ensures del.Keys == Difference(d, r).stop && Versions(update) == Difference(d, r).start
    ensures forall n :: n in update ==> n !in del
  {
  }

  lemma {:induction false} StagedOn(log: seq<Step>, step: Step, plan: Plan)
    requires Staged(log, plan) && step.op.Start? && forall n :: n in plan.stop ==> Covers(log, n)
    requires forall i :: 0 <= i < |log| && log[i].op.Stop? ==> log[i].outcome == Done
    ensures Staged(log + [step], plan)
  {
    var longer := log + [step];
    forall i | 0 <= i < |longer| ensures longer[..i] == log[..i] {
    }
    assert log[..|log|] == log;
  }

  /** A step of a round with differing lists is planned and ends as the surroundings say, no name comes twice, stops only
      when deleting and none after a start, nothing after a failed stop, no start of a rejected application. */
  lemma {:induction false} StepExactly(whole: Plan, dapps: seq<AppInfo>, delete: bool, env: Surroundings,
                                       stats: map<string, AppStats>, ok: bool, trace: Trace, i: nat)
    requires WellFormed(env) && RoundGoes(whole, dapps, delete, env, stats, ok, trace) && i < |trace.log|
    ensures env.reportOk && env.appData.Some?
    ensures env.statsOk || PortExclusion.Checked(dapps, env.appData.value, stats, trace.ports).stats == map[]
    ensures forall j :: 0 <= j < i ==> trace.log[j].op.name != trace.log[i].op.name
    ensures match trace.log[i].op
            case Stop(m) =>
              && delete && m in whole.stop
              && trace.log[i].outcome == (if env.stopOk(m) then Done else KeptOld)
              && (forall j :: 0 <= j < i ==> trace.log[j].op.Stop?)
              && (!env.stopOk(m) ==> i == |trace.log| - 1 && !ok)
            case Start(m, v) =>
              && m in whole.start && v == whole.start[m] && trace.log[i].outcome == env.startEnds(m)
              && m !in PortExclusion.Checked(dapps, env.appData.value, stats, trace.ports).del
  {
  }

  /** A round succeeds only after all it planned, and only when its reports went through, which it skips while there
      are no statistics; once they go through only a failed stop lets it fail. */
  lemma {:induction false} VerdictExactly(whole: Plan, dapps: seq<AppInfo>, delete: bool, env: Surroundings,
                                          stats: map<string, AppStats>, ok: bool, trace: Trace, n: string)
    requires WellFormed(env) && RoundGoes(whole, dapps, delete, env, stats, ok, trace)
    ensures ok ==>
              && env.reportOk && env.appData.Some?
              && var del := PortExclusion.Checked(dapps, env.appData.value, stats, trace.ports).del;
                 && (n in whole.start && n !in whole.stop && n !in del ==>
                       exists j :: 0 <= j < |trace.log| && trace.log[j].op == Start(n, whole.start[n]))
                 && (delete && n in whole.stop && n !in whole.start ==>
                       exists j :: 0 <= j < |trace.log| && trace.log[j].op == Stop(n))
    ensures ok ==>
              && (env.statsOk || PortExclusion.Checked(dapps, env.appData.value, stats, trace.ports).stats == map[])
              && (env.lastReportOk ||
                  (PortExclusion.Checked(dapps, env.appData.value, stats, trace.ports).stats == map[] &&
                   forall j :: 0 <= j < |trace.log| ==> trace.log[j].outcome == Done))
    ensures !ok && env.reportOk && env.appData.Some? && env.statsOk && env.lastReportOk ==>
              exists j, m :: 0 <= j < |trace.log| && trace.log[j].op == Stop(m) && !env.stopOk(m)
  {
    if !ok && env.reportOk && env.appData.Some? && env.statsOk && env.lastReportOk {
      assert trace.log[|trace.log| - 1].op == Stop(trace.log[|trace.log| - 1].op.name);
    }
    if ok && (n in trace.plan.start || n in trace.plan.stop) {
      assert Covers(trace.log, n);
      var j :| 0 <= j < |trace.log| && trace.log[j].op.name == n;
      assert trace.log[j].op == Stop(n) || trace.log[j].op == Start(n, trace.log[j].op.version);
    }
  }
}
