/** The object-configuration garbage collector (engine/clean.go).

    Go map ranges are loops that pick any key left; where the result depends on the order, the method
    reports the order it took and the functions below take it as an argument. */
module Garbage {
  import opened Model
  import opened Keys
  import opened Storage

  /** What the collector reads of the node shadow. */
  datatype NodeShadow = NodeShadow(reportApps: seq<AppInfo>, reportSysApps: seq<AppInfo>, desireApps: seq<AppInfo>,
                                   desireSysApps: seq<AppInfo>, appStats: seq<AppStats>)

  // volume name to configuration; the last volume of a name wins
  function Refers(volumes: seq<Volume>): map<string, ObjectRef> {
    if volumes == [] then map[]
    else
      var before, v := Refers(volumes[..|volumes| - 1]), volumes[|volumes| - 1];
      if v.config.Some? then before[v.name := v.config.value] else before
  }

  // all volume mounts of an application, in order
  function MountsOf(services: seq<Service>): seq<VolumeMount> {
    if services == [] then [] else MountsOf(services[..|services| - 1]) + services[|services| - 1].mounts
  }

  // used[config name] := version for every mount, in order
  function Record(used: map<string, string>, refers: map<string, ObjectRef>,
                  mounts: seq<VolumeMount>): map<string, string> {
    if mounts == [] then used
    else
      var before, m := Record(used, refers, mounts[..|mounts| - 1]), mounts[|mounts| - 1].name;
      if m in refers then before[refers[m].name := refers[m].version] else before
  }

  predicate IsFinished(app: Application, finished: set<string>) {
    app.workload.Job? && app.name in finished
  }

  function UseApp(used: map<string, string>, app: Application, finished: set<string>): map<string, string> {
    if IsFinished(app, finished) then used else Record(used, Refers(app.volumes), MountsOf(app.services))
  }

  function Used(apps: map<string, Application>, finished: set<string>, order: seq<string>): map<string, string>
    requires forall i :: 0 <= i < |order| ==> order[i] in apps
  {
    if order == [] then map[]
    else UseApp(Used(apps, finished, order[..|order| - 1]), apps[order[|order| - 1]], finished)
  }

  // some mount of app that asks to be cleaned names the configuration stored under key
  predicate AutoCleans(app: Application, key: string) {
    CleansIn(app, MountsOf(app.services), key)
  }

  predicate CleansAt(app: Application, m: VolumeMount, key: string) {
    m.autoClean && m.name in Refers(app.volumes) && RefKey(CONFIGURATION, Refers(app.volumes)[m.name]) == key
  }

  predicate MountsAmong(refers: map<string, ObjectRef>, mounts: seq<VolumeMount>, ref: ObjectRef) {
    exists i :: 0 <= i < |mounts| && mounts[i].name in refers && refers[mounts[i].name] == ref
  }

  // app mounts the configuration ref
  predicate Mounts(app: Application, ref: ObjectRef) {
    MountsAmong(Refers(app.volumes), MountsOf(app.services), ref)
  }

  method IndexRefers(volumes: seq<Volume>) returns (refers: map<string, ObjectRef>)
    ensures refers == Refers(volumes)
  {
    refers := map[];
    for i := 0 to |volumes|
      invariant refers == Refers(volumes[..i])
    {
      assert volumes[..i + 1][..i] == volumes[..i];
      if volumes[i].config.Some? {
        refers := refers[volumes[i].name := volumes[i].config.value];
      }
    }
    assert volumes[..|volumes|] == volumes;
  }

  lemma {:induction false} RecordConcat(used: map<string, string>, refers: map<string, ObjectRef>,
                                        a: seq<VolumeMount>, b: seq<VolumeMount>)
    ensures Record(used, refers, a + b) == Record(Record(used, refers, a), refers, b)
  {
    if b == [] {
      assert a + b == a;
    } else {
      assert (a + b)[..|a + b| - 1] == a + b[..|b| - 1];
      RecordConcat(used, refers, a, b[..|b| - 1]);
    }
  }

  method RecordMounts(used0: map<string, string>, refers: map<string, ObjectRef>, mounts: seq<VolumeMount>)
    returns (used: map<string, string>)
    ensures used == Record(used0, refers, mounts)
  {
    used := used0;
    for j := 0 to |mounts|
      invariant used == Record(used0, refers, mounts[..j])
    {
      assert mounts[..j + 1][..j] == mounts[..j];
      if mounts[j].name in refers {
        var cfg := refers[mounts[j].name];
        used := used[cfg.name := cfg.version];
      }
    }
    assert mounts[..|mounts|] == mounts;
  }

  method RecordServices(used0: map<string, string>, refers: map<string, ObjectRef>, services: seq<Service>)
    returns (used: map<string, string>)
    ensures used == Record(used0, refers, MountsOf(services))
  {
    used := used0;
    for i := 0 to |services|
      invariant used == Record(used0, refers, MountsOf(services[..i]))
    {
      assert services[..i + 1][..i] == services[..i];
      RecordConcat(used0, refers, MountsOf(services[..i]), services[i].mounts);
      used := RecordMounts(used, refers, services[i].mounts);
    }
    assert services[..|services|] == services;
  }

  method GetUsedObjectCfgs(apps: map<string, Application>, finished: set<string>)
    returns (used: map<string, string>)
    ensures exists order :: IsOrder(order, apps.Keys) && used == Used(apps, finished, order)
  {
    used := map[];
    ghost var order := [];
    var rest := apps.Keys;
    while rest != {}
      invariant rest <= apps.Keys && IsOrder(order, apps.Keys - rest)
      invariant used == Used(apps, finished, order)
    {
      var k := Pick(rest);
      ExtendOrder(order, apps.Keys - rest, k);
      assert apps.Keys - (rest - {k}) == apps.Keys - rest + {k};
      ghost var before := order;
      order := order + [k];
      assert order[..|order| - 1] == before;
      rest := rest - {k};
      var app := apps[k];
      var refers := IndexRefers(app.volumes);
      if app.workload.Job? && app.name in finished {
        continue;
      }
      used := RecordServices(used, refers, app.services);
    }
    assert apps.Keys - rest == apps.Keys;
  }

  // names of the applications that are jobs
  function JobNames(apps: map<string, Application>): set<string> {
    set k | k in apps && apps[k].workload.Job? :: apps[k].name
  }

  predicate InstanceAmong(stat: AppStats, keys: set<string>, n: string) {
    exists k :: k in keys && k in stat.instances && stat.instances[k].appName == n
  }

  predicate SucceededAmong(stat: AppStats, keys: set<string>, n: string) {
    forall k :: k in keys && k in stat.instances && stat.instances[k].appName == n ==>
      stat.instances[k].status == Succeeded
  }

  predicate HasInstanceOf(stat: AppStats, n: string) {
    InstanceAmong(stat, stat.instances.Keys, n)
  }

  predicate AllSucceeded(stat: AppStats, n: string) {
    SucceededAmong(stat, stat.instances.Keys, n)
  }

  // status is status0 after the instances with these keys
  ghost predicate Scanned(jobs: set<string>, stat: AppStats, keys: set<string>, status0: map<string, Status>,
                          status: map<string, Status>) {
    && (forall n :: n in status <==> n in status0 || (n in jobs && InstanceAmong(stat, keys, n)))
    && (forall n :: n in status ==>
          (status[n] == Succeeded <==> (n in status0 ==> status0[n] == Succeeded) && SucceededAmong(stat, keys, n)))
  }

  method ScanInstances(jobs: set<string>, stat: AppStats, status0: map<string, Status>)
    returns (status: map<string, Status>)
    requires status0.Keys <= jobs
    ensures Scanned(jobs, stat, stat.instances.Keys, status0, status)
  {
    status := status0;
    var rest := stat.instances.Keys;
    while rest != {}
      invariant rest <= stat.instances.Keys
      invariant Scanned(jobs, stat, stat.instances.Keys - rest, status0, status)
    {
      var k := Pick(rest);
      rest := rest - {k};
      var ins := stat.instances[k];
      if ins.appName in jobs {
        if ins.appName !in status || status[ins.appName] == Succeeded {
          status := status[ins.appName := ins.status];
        }
      }
    }
    assert stat.instances.Keys - rest == stat.instances.Keys;
  }

  /** A finished job is a job with at least one reported instance, all of them succeeded. */
  ghost predicate Finished(apps: map<string, Application>, stats: seq<AppStats>, n: string) {
    && n in JobNames(apps)
    && (exists i :: 0 <= i < |stats| && HasInstanceOf(stats[i], n))
    && (forall i :: 0 <= i < |stats| ==> AllSucceeded(stats[i], n))
  }

  method GetFinishedJobs(apps: map<string, Application>, stats: seq<AppStats>) returns (res: set<string>)
    ensures forall n :: n in res <==> Finished(apps, stats, n)
  {
    var jobs := {};
    var rest := apps.Keys;
    while rest != {}
      invariant rest <= apps.Keys
      invariant jobs == set k | k in apps.Keys - rest && apps[k].workload.Job? :: apps[k].name
    {
      var k := Pick(rest);
      rest := rest - {k};
      if apps[k].workload.Job? {
        jobs := jobs + {apps[k].name};
      }
    }
    assert jobs == JobNames(apps);
    var status: map<string, Status> := map[];
    for i := 0 to |stats|
      invariant forall n :: n in status <==> n in jobs && exists j :: 0 <= j < i && HasInstanceOf(stats[j], n)
      invariant forall n :: n in status ==>
                  (status[n] == Succeeded <==> forall j :: 0 <= j < i ==> AllSucceeded(stats[j], n))
    {
      ghost var before := status;
      status := ScanInstances(jobs, stats[i], status);
      ScanStep(jobs, stats, i, before, status);
    }
    res := {};
    var names := status.Keys;
    while names != {}
      invariant names <= status.Keys
      invariant forall n :: n in res <==> n in status.Keys - names && status[n] == Succeeded
    {
      var n := Pick(names);
      names := names - {n};
      if status[n] == Succeeded {
        res := res + {n};
      }
    }
  }

  lemma {:induction false} ScanStep(jobs: set<string>, stats: seq<AppStats>, i: nat, before: map<string, Status>,
                                    status: map<string, Status>)
    requires i < |stats|
    requires forall n :: n in before <==> n in jobs && exists j :: 0 <= j < i && HasInstanceOf(stats[j], n)
    requires forall n :: n in before ==>
               (before[n] == Succeeded <==> forall j :: 0 <= j < i ==> AllSucceeded(stats[j], n))
    requires Scanned(jobs, stats[i], stats[i].instances.Keys, before, status)
    ensures forall n :: n in status <==> n in jobs && exists j :: 0 <= j < i + 1 && HasInstanceOf(stats[j], n)
    ensures forall n :: n in status ==>
              (status[n] == Succeeded <==> forall j :: 0 <= j < i + 1 ==> AllSucceeded(stats[j], n))
  {
  }

  method GetDelObjectCfgs(occupied: map<string, Application>, obsolete: map<string, Application>,
                          objectCfgs: map<string, Configuration>, finished: set<string>)
    returns (dels: map<string, Configuration>)
    ensures dels == Dels(occupied, obsolete, objectCfgs, finished)
  {
    dels := CleanObsolete(obsolete, objectCfgs);
    dels := CleanFinished(dels, occupied, objectCfgs, finished);
  }

  method CleanObsolete(obsolete: map<string, Application>, objectCfgs: map<string, Configuration>)
    returns (dels: map<string, Configuration>)
    ensures PartOf(dels, objectCfgs)
    ensures forall k :: k in dels <==> Candidate(objectCfgs, k) && CleanedAmong(obsolete, obsolete.Keys, k)
  {
    dels := map[];
    var rest := obsolete.Keys;
    while rest != {}
      invariant rest <= obsolete.Keys && PartOf(dels, objectCfgs)
      invariant forall k :: k in dels <==> Candidate(objectCfgs, k) && CleanedAmong(obsolete, obsolete.Keys - rest, k)
    {
      var n := Pick(rest);
      CleanedMore(obsolete, obsolete.Keys - rest, n);
      assert obsolete.Keys - rest + {n} == obsolete.Keys - (rest - {n});
      dels := CleanApp(dels, obsolete[n], objectCfgs);
      rest := rest - {n};
    }
    assert obsolete.Keys - rest == obsolete.Keys;
  }

  method CleanFinished(dels0: map<string, Configuration>, occupied: map<string, Application>,
                       objectCfgs: map<string, Configuration>, finished: set<string>)
    returns (dels: map<string, Configuration>)
    requires PartOf(dels0, objectCfgs)
    ensures PartOf(dels, objectCfgs)
    ensures forall k :: k in dels <==>
              (k in dels0 ||
               (Candidate(objectCfgs, k) && CleanedAmong(occupied, FinishedAmong(occupied, occupied.Keys, finished), k)))
  {
    dels := dels0;
    var rest := occupied.Keys;
    while rest != {}
      invariant rest <= occupied.Keys && PartOf(dels, objectCfgs)
      invariant forall k :: k in dels <==>
                  (k in dels0 ||
                   (Candidate(objectCfgs, k) &&
                    CleanedAmong(occupied, FinishedAmong(occupied, occupied.Keys - rest, finished), k)))
    {
      var n := Pick(rest);
      ghost var keys := FinishedAmong(occupied, occupied.Keys - rest, finished);
      CleanedMore(occupied, keys, n);
      assert FinishedAmong(occupied, occupied.Keys - (rest - {n}), finished) ==
        keys + if occupied[n].name in finished then {n} else {};
      rest := rest - {n};
      if occupied[n].name !in finished {
        continue;
      }
      dels := CleanApp(dels, occupied[n], objectCfgs);
    }
    assert occupied.Keys - rest == occupied.Keys;
  }

  predicate PartOf(dels: map<string, Configuration>, objectCfgs: map<string, Configuration>) {
    forall k :: k in dels ==> k in objectCfgs && dels[k] == objectCfgs[k]
  }

  predicate Candidate(objectCfgs: map<string, Configuration>, k: string) {
    k in objectCfgs && k != ""
  }

  function FinishedAmong(apps: map<string, Application>, keys: set<string>, finished: set<string>): set<string> {
    set n | n in keys && n in apps && apps[n].name in finished
  }

  predicate CleanedAmong(apps: map<string, Application>, keys: set<string>, key: string) {
    exists n :: n in keys && n in apps && AutoCleans(apps[n], key)
  }

  lemma {:induction false} CleanedMore(apps: map<string, Application>, keys: set<string>, n: string)
    requires n in apps
    ensures forall k :: CleanedAmong(apps, keys + {n}, k) <==> CleanedAmong(apps, keys, k) || AutoCleans(apps[n], k)
  {
  }

  /** What one pass deletes: the unused object configurations that a mount marked for cleaning names, in an
      obsolete application or in an occupied one whose job is finished. */
  function Dels(occupied: map<string, Application>, obsolete: map<string, Application>,
                objectCfgs: map<string, Configuration>, finished: set<string>): map<string, Configuration>
  {
    map k | k in objectCfgs && k != "" &&
      (CleanedAmong(obsolete, obsolete.Keys, k) ||
       CleanedAmong(occupied, FinishedAmong(occupied, occupied.Keys, finished), k)) :: objectCfgs[k]
  }

  method CleanApp(dels0: map<string, Configuration>, app: Application, objectCfgs: map<string, Configuration>)
    returns (dels: map<string, Configuration>)
    requires PartOf(dels0, objectCfgs)
    ensures PartOf(dels, objectCfgs)
    ensures forall k :: k in dels <==> k in dels0 || (Candidate(objectCfgs, k) && AutoCleans(app, k))
  {
    dels := dels0;
    var refers := IndexRefers(app.volumes);
    var services := app.services;
    for i := 0 to |services|
      invariant PartOf(dels, objectCfgs)
      invariant forall k :: k in dels <==>
          k in dels0 || (Candidate(objectCfgs, k) && CleansIn(app, MountsOf(services[..i]), k))
    {
      assert services[..i + 1][..i] == services[..i];
      CleansConcat(app, MountsOf(services[..i]), services[i].mounts);
      dels := CleanMounts(dels, app, refers, services[i].mounts, objectCfgs);
    }
    assert services[..|services|] == services;
  }

  method CleanMounts(dels0: map<string, Configuration>, app: Application, refers: map<string, ObjectRef>,
                     mounts: seq<VolumeMount>, objectCfgs: map<string, Configuration>)
    returns (dels: map<string, Configuration>)
    requires PartOf(dels0, objectCfgs) && refers == Refers(app.volumes)
    ensures PartOf(dels, objectCfgs)
    ensures forall k :: k in dels <==> k in dels0 || (Candidate(objectCfgs, k) && CleansIn(app, mounts, k))
  {
    dels := dels0;
    for j := 0 to |mounts|
      invariant PartOf(dels, objectCfgs)
      invariant forall k :: k in dels <==> k in dels0 || (Candidate(objectCfgs, k) && CleansIn(app, mounts[..j], k))
    {
      assert mounts[..j + 1] == mounts[..j] + [mounts[j]];
      CleansConcat(app, mounts[..j], [mounts[j]]);
      assert forall k :: CleansIn(app, [mounts[j]], k) <==> CleansAt(app, mounts[j], k);
      if mounts[j].name !in refers || !mounts[j].autoClean {
        continue;
      }
      var key := RefKey(CONFIGURATION, refers[mounts[j].name]);
      if key in objectCfgs && key != "" {
        dels := dels[key := objectCfgs[key]];
      }
    }
    assert mounts[..|mounts|] == mounts;
  }

  predicate CleansIn(app: Application, mounts: seq<VolumeMount>, key: string) {
    exists i :: 0 <= i < |mounts| && CleansAt(app, mounts[i], key)
  }

  lemma {:induction false} CleansConcat(app: Application, a: seq<VolumeMount>, b: seq<VolumeMount>)
    ensures forall k :: CleansIn(app, a + b, k) <==> CleansIn(app, a, k) || CleansIn(app, b, k)
  {
    forall k ensures CleansIn(app, a + b, k) <==> CleansIn(app, a, k) || CleansIn(app, b, k) {
      if i :| 0 <= i < |a| && CleansAt(app, a[i], k) {
        assert (a + b)[i] == a[i];
      }
      if i :| 0 <= i < |b| && CleansAt(app, b[i], k) {
        assert (a + b)[|a| + i] == b[i];
      }
    }
  }
}
