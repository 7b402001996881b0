/** What the collector's definitions come to on the volumes, mounts and instances themselves. */
module GarbageMeaning {
  import opened Model
  import opened Keys
  import opened Storage
  import opened AppLists
  import opened Reconcile
  import opened Garbage
  import opened Collector
  import opened GarbageSafety

  /** A mount name stands for the configuration of the last volume of that name that has one. */
  lemma {:induction false} RefersExactly(volumes: seq<Volume>, n: string) returns (i: int)
    ensures if n in Refers(volumes) then
              && 0 <= i < |volumes| && volumes[i].name == n && volumes[i].config == Some(Refers(volumes)[n])
              && forall j :: i < j < |volumes| && volumes[j].name == n ==> volumes[j].config.None?
            else forall j :: 0 <= j < |volumes| && volumes[j].name == n ==> volumes[j].config.None?
  {
    i := -1;
    if volumes != [] {
      var front, last := volumes[..|volumes| - 1], |volumes| - 1;
      i := RefersExactly(front, n);
      if volumes[last].name == n && volumes[last].config.Some? {
        i := last;
      }
    }
  }

  /** The mounts of every service count. */
  lemma {:induction false} EveryServiceCounts(services: seq<Service>, m: VolumeMount)
    ensures m in MountsOf(services) <==> exists i :: 0 <= i < |services| && m in services[i].mounts
  {
    if services != [] {
      var front, last := services[..|services| - 1], services[|services| - 1];
      EveryServiceCounts(front, m);
      assert services == front + [last];
      if m in last.mounts {
        assert services[|front|] == last;
      } else if i :| 0 <= i < |front| && m in front[i].mounts {
        assert services[i] == front[i];
      }
    }
  }

  /** An application mounts a configuration when some mount of some service has the name that stands for it. */
  lemma {:induction false} MountsExactly(app: Application, ref: ObjectRef)
    ensures Mounts(app, ref) <==>
            exists i, j :: 0 <= i < |app.services| && 0 <= j < |app.services[i].mounts| &&
                           app.services[i].mounts[j].name in Refers(app.volumes) &&
                           Refers(app.volumes)[app.services[i].mounts[j].name] == ref
  {
    var mounts, refers := MountsOf(app.services), Refers(app.volumes);
    if k :| 0 <= k < |mounts| && mounts[k].name in refers && refers[mounts[k].name] == ref {
      var i, j := Placed(app.services, mounts[k]);
    }
    if i, j :| 0 <= i < |app.services| && 0 <= j < |app.services[i].mounts| &&
               app.services[i].mounts[j].name in refers && refers[app.services[i].mounts[j].name] == ref {
      EveryServiceCounts(app.services, app.services[i].mounts[j]);
    }
  }

  lemma {:induction false} Placed(services: seq<Service>, m: VolumeMount) returns (i: int, j: int)
    requires m in MountsOf(services)
    ensures 0 <= i < |services| && 0 <= j < |services[i].mounts| && services[i].mounts[j] == m
  {
    EveryServiceCounts(services, m);
    i :| 0 <= i < |services| && m in services[i].mounts;
    j :| 0 <= j < |services[i].mounts| && services[i].mounts[j] == m;
  }

  /** It gives a configuration up when some mount of some service asks for cleaning and stands for it. */
  lemma {:induction false} AutoCleansExactly(app: Application, key: string)
    ensures AutoCleans(app, key) <==>
            exists i, j :: 0 <= i < |app.services| && 0 <= j < |app.services[i].mounts| &&
                           app.services[i].mounts[j].autoClean &&
                           app.services[i].mounts[j].name in Refers(app.volumes) &&
                           var ref := Refers(app.volumes)[app.services[i].mounts[j].name];
                           MakeKey("configuration", ref.name, ref.version) == key
  {
    var mounts, refers := MountsOf(app.services), Refers(app.volumes);
    if k :| 0 <= k < |mounts| && CleansAt(app, mounts[k], key) {
      var i, j := Placed(app.services, mounts[k]);
    }
    if i, j :| 0 <= i < |app.services| && 0 <= j < |app.services[i].mounts| && app.services[i].mounts[j].autoClean &&
               app.services[i].mounts[j].name in refers &&
               MakeKey("configuration", refers[app.services[i].mounts[j].name].name,
                       refers[app.services[i].mounts[j].name].version) == key {
      EveryServiceCounts(app.services, app.services[i].mounts[j]);
      var k :| 0 <= k < |mounts| && mounts[k] == app.services[i].mounts[j];
      assert CleansAt(app, mounts[k], key);
    }
  }

  /** Safety on the services themselves: whichever mount of whichever service of an occupied application names a
      volume, the configuration of that volume stays, under the hypotheses of MountedSurvives. */
  lemma {:induction false} ServiceMountSurvives(sto: Store, node: NodeShadow, scan: seq<string>, order: seq<string>,
                                                a: string, i: int, j: int, l: int, ref: ObjectRef)
    requires WellKeyed(sto) && Complete(sto, scan)
    requires IsOrder(order, OccupiedIn(sto.apps, scan, OccupiedVersions(node)).Keys)
    requires var occ := OccupiedIn(sto.apps, scan, OccupiedVersions(node));
             OneVersion(occ, FinishedSet(occ, node.appStats))
    requires a in sto.apps && IsOccupied(sto.apps[a], OccupiedVersions(node)) && sto.apps[a].workload != Job
    requires var app := sto.apps[a];
             && 0 <= i < |app.services| && 0 <= j < |app.services[i].mounts|
             && 0 <= l < |app.volumes| && app.volumes[l].name == app.services[i].mounts[j].name
             && app.volumes[l].config == Some(ref)
             && forall m :: l < m < |app.volumes| && app.volumes[m].name == app.volumes[l].name ==>
                              app.volumes[m].config.None?
    ensures MakeKey("configuration", ref.name, ref.version) !in PassDels(sto, node, scan, order)
  {
    var app := sto.apps[a];
    var k := RefersExactly(app.volumes, app.volumes[l].name);
    assert Refers(app.volumes)[app.services[i].mounts[j].name] == ref;
    MountsExactly(app, ref);
    MountedSurvives(sto, node, scan, order, a, ref);
  }

  // the mount stands for a version of configuration n
  predicate Names(refers: map<string, ObjectRef>, m: VolumeMount, n: string) {
    m.name in refers && refers[m.name].name == n
  }

  lemma {:induction false} LastOfMounts(refers: map<string, ObjectRef>, mounts: seq<VolumeMount>, n: string)
    ensures var r := Record(map[], refers, mounts);
            && (n in r <==> exists j :: 0 <= j < |mounts| && Names(refers, mounts[j], n))
            && (n in r ==> exists j :: 0 <= j < |mounts| && mounts[j].name in refers &&
                                       refers[mounts[j].name] == ObjectRef(n, r[n]) &&
                                       forall k :: j < k < |mounts| ==> !Names(refers, mounts[k], n))
  {
    if mounts != [] {
      var front, last := mounts[..|mounts| - 1], |mounts| - 1;
      LastOfMounts(refers, front, n);
      assert forall j :: 0 <= j < last ==> front[j] == mounts[j];
      if Names(refers, mounts[last], n) {
        assert refers[mounts[last].name] == ObjectRef(n, Record(map[], refers, mounts)[n]);
      } else if n in Record(map[], refers, front) {
        var j :| 0 <= j < |front| && front[j].name in refers &&
          refers[front[j].name] == ObjectRef(n, Record(map[], refers, front)[n]) &&
          forall k :: j < k < |front| ==> !Names(refers, front[k], n);
        assert Names(refers, mounts[j], n) && refers[mounts[j].name] == ObjectRef(n, Record(map[], refers, mounts)[n]);
      }
    }
  }

  // mount j of service i is the last one, in order, that stands for a version of n, and that version is v
  predicate LastAt(refers: map<string, ObjectRef>, services: seq<Service>, i: int, j: int, n: string, v: string) {
    && 0 <= i < |services| && 0 <= j < |services[i].mounts|
    && services[i].mounts[j].name in refers && refers[services[i].mounts[j].name] == ObjectRef(n, v)
    && forall k, l :: i <= k < |services| && 0 <= l < |services[k].mounts| && (i < k || j < l) ==>
                        !Names(refers, services[k].mounts[l], n)
  }

  lemma {:induction false} LastOfServices(refers: map<string, ObjectRef>, services: seq<Service>, n: string)
    ensures var r := Record(map[], refers, MountsOf(services));
            && (n in r ==> exists i, j :: LastAt(refers, services, i, j, n, r[n]))
            && (forall i, j | 0 <= i < |services| && 0 <= j < |services[i].mounts| ::
                  Names(refers, services[i].mounts[j], n) ==> n in r)
  {
    if services != [] {
      var front, last := services[..|services| - 1], |services| - 1;
      LastOfServices(refers, front, n);
      var before, r := Record(map[], refers, MountsOf(front)), Record(map[], refers, MountsOf(services));
      assert forall i :: 0 <= i < last ==> front[i] == services[i];
      RecordConcat(map[], refers, MountsOf(front), services[last].mounts);
      RecordOver(before, refers, services[last].mounts, n);
      LastOfMounts(refers, services[last].mounts, n);
      var alone := Record(map[], refers, services[last].mounts);
      if n in alone {
        var j :| 0 <= j < |services[last].mounts| && services[last].mounts[j].name in refers &&
          refers[services[last].mounts[j].name] == ObjectRef(n, alone[n]) &&
          forall k :: j < k < |services[last].mounts| ==> !Names(refers, services[last].mounts[k], n);
        assert LastAt(refers, services, last, j, n, r[n]);
      } else if n in before {
        var i, j :| LastAt(refers, front, i, j, n, before[n]);
        assert LastAt(refers, services, i, j, n, r[n]);
      }
    }
  }

  /** An application records, for each configuration it mounts, the version its last such mount stands for. */
  lemma {:induction false} RecordedExactly(app: Application, n: string)
    ensures n in Recorded(app) <==> exists v :: Mounts(app, ObjectRef(n, v))
    ensures n in Recorded(app) ==>
              exists i, j :: 0 <= i < |app.services| && 0 <= j < |app.services[i].mounts| &&
                app.services[i].mounts[j].name in Refers(app.volumes) &&
                Refers(app.volumes)[app.services[i].mounts[j].name] == ObjectRef(n, Recorded(app)[n]) &&
                forall k, l :: i <= k < |app.services| && 0 <= l < |app.services[k].mounts| && (i < k || j < l) &&
                               app.services[k].mounts[l].name in Refers(app.volumes) ==>
                                 Refers(app.volumes)[app.services[k].mounts[l].name].name != n
  {
    var refers := Refers(app.volumes);
    LastOfServices(refers, app.services, n);
    if v :| Mounts(app, ObjectRef(n, v)) {
      MountsExactly(app, ObjectRef(n, v));
      assert n in Recorded(app);
    }
    if n in Recorded(app) {
      var i, j :| LastAt(refers, app.services, i, j, n, Recorded(app)[n]);
      MountsExactly(app, ObjectRef(n, Recorded(app)[n]));
      assert Mounts(app, ObjectRef(n, Recorded(app)[n]));
    }
  }

  /** A finished job has a reported instance, and every reported instance of it succeeded. */
  lemma {:induction false} FinishedExactly(apps: map<string, Application>, stats: seq<AppStats>, n: string)
    ensures n in FinishedSet(apps, stats) <==> Finished(apps, stats, n)
    ensures Finished(apps, stats, n) <==>
            && (exists k :: k in apps && apps[k].workload.Job? && apps[k].name == n)
            && (exists i, k :: 0 <= i < |stats| && k in stats[i].instances && stats[i].instances[k].appName == n)
            && (forall i, k :: 0 <= i < |stats| && k in stats[i].instances && stats[i].instances[k].appName == n ==>
                                 stats[i].instances[k].status == Succeeded)
  {
    if Finished(apps, stats, n) {
      var i :| 0 <= i < |stats| && HasInstanceOf(stats[i], n);
      var k :| k in stats[i].instances.Keys && k in stats[i].instances && stats[i].instances[k].appName == n;
      forall i, k | 0 <= i < |stats| && k in stats[i].instances && stats[i].instances[k].appName == n
        ensures stats[i].instances[k].status == Succeeded
      {
        assert AllSucceeded(stats[i], n);
      }
    }
    if exists i, k :: 0 <= i < |stats| && k in stats[i].instances && stats[i].instances[k].appName == n {
      var i, k :| 0 <= i < |stats| && k in stats[i].instances && stats[i].instances[k].appName == n;
      assert HasInstanceOf(stats[i], n);
    }
  }

  /** A pass may delete a stored configuration when it holds an object and an obsolete application, or an occupied
      one that is a finished job, gives it up. */
  lemma {:induction false} CleanableExactly(sto: Store, node: NodeShadow, scan: seq<string>,
                                            occ: map<string, Application>, obsolete: map<string, Application>,
                                            key: string)
    requires WellKeyed(sto) && forall i :: 0 <= i < |scan| ==> scan[i] in sto.apps
    requires occ == OccupiedIn(sto.apps, scan, OccupiedVersions(node))
    requires obsolete == ObsoleteIn(sto.apps, scan, OccupiedVersions(node))
    ensures key in Cleanable(sto, node, scan) <==>
            && key in sto.configs && (exists o :: o in sto.configs[key].data && "_object_" <= o)
            && ((exists n :: n in obsolete && AutoCleans(obsolete[n], key)) ||
                (exists n :: n in occ && Finished(occ, node.appStats, occ[n].name) && AutoCleans(occ[n], key)))
  {
    var dels := Dels(occ, obsolete, Objects(sto.configs), FinishedSet(occ, node.appStats));
    assert Cleanable(sto, node, scan) == dels.Keys;
    DelsExactly(sto, occ, obsolete, node.appStats, dels, key);
  }

  /** The keys in use are those of the recorded versions. */
  lemma {:induction false} InUseExactly(sto: Store, node: NodeShadow, scan: seq<string>, order: seq<string>,
                                        occ: map<string, Application>, used: map<string, string>, key: string)
    requires forall i :: 0 <= i < |scan| ==> scan[i] in sto.apps
    requires occ == OccupiedIn(sto.apps, scan, OccupiedVersions(node)) && IsOrder(order, occ.Keys)
    requires used == Used(occ, FinishedSet(occ, node.appStats), order)
    ensures key in InUse(sto, node, scan, order) <==> exists n :: n in used && MakeKey("configuration", n, used[n]) == key
  {
    assert InUse(sto, node, scan, order) == UsedKeys(used);
    UsedKeysExactly(used, key);
  }

  lemma {:induction false} UsedKeysExactly(used: map<string, string>, key: string)
    ensures key in UsedKeys(used) <==> exists n :: n in used && MakeKey("configuration", n, used[n]) == key
  {
  }

  lemma {:induction false} DelsExactly(sto: Store, occ: map<string, Application>, obsolete: map<string, Application>,
                                       stats: seq<AppStats>, dels: map<string, Configuration>, key: string)
    requires WellKeyed(sto)
    requires dels == Dels(occ, obsolete, Objects(sto.configs), FinishedSet(occ, stats))
    ensures key in dels <==>
            && key in sto.configs && (exists o :: o in sto.configs[key].data && "_object_" <= o)
            && ((exists n :: n in obsolete && AutoCleans(obsolete[n], key)) ||
                (exists n :: n in occ && Finished(occ, stats, occ[n].name) && AutoCleans(occ[n], key)))
  {
    assert key in sto.configs ==>
        (IsObjectConfig(sto.configs[key]) <==> exists o :: o in sto.configs[key].data && "_object_" <= o);
    assert CleanedAmong(obsolete, obsolete.Keys, key) <==> exists n :: n in obsolete && AutoCleans(obsolete[n], key);
    CleanedByFinished(occ, FinishedSet(occ, stats), stats, key);
  }

  lemma {:induction false} CleanedByFinished(occ: map<string, Application>, finished: set<string>,
                                             stats: seq<AppStats>, key: string)
    requires finished == FinishedSet(occ, stats)
    ensures CleanedAmong(occ, FinishedAmong(occ, occ.Keys, finished), key) <==>
            exists n :: n in occ && Finished(occ, stats, occ[n].name) && AutoCleans(occ[n], key)
  {
    if n :| n in occ && Finished(occ, stats, occ[n].name) && AutoCleans(occ[n], key) {
      assert occ[n].name in finished;
      assert n in FinishedAmong(occ, occ.Keys, finished);
    }
  }

  /** The live mounts count, all others do not: what the first application visited adds to the uses. */
  lemma {:induction false} UseAppExactly(used: map<string, string>, app: Application, finished: set<string>, n: string)
    ensures var after := UseApp(used, app, finished);
            if app.workload.Job? && app.name in finished then after == used
            else (n in after <==> n in used || n in Recorded(app)) &&
                 (n in after ==> after[n] == if n in Recorded(app) then Recorded(app)[n] else used[n])
  {
    RecordOver(used, Refers(app.volumes), MountsOf(app.services), n);
  }

  // entry i is the last one of list with name n
  predicate LastNamed(list: seq<AppInfo>, i: int, n: string) {
    0 <= i < |list| && list[i].name == n && forall j :: i < j < |list| ==> list[j].name != n
  }

  predicate Unlisted(list: seq<AppInfo>, n: string) {
    forall i :: 0 <= i < |list| ==> list[i].name != n
  }

  /** All four lists of the node say what is occupied; the desired system applications count most, then the
      reported system ones, then the desired and last the reported ones; within a list the last entry does. */
  lemma {:induction false} OccupiedVersionsExactly(node: NodeShadow, n: string, i: int)
    ensures var versions := OccupiedVersions(node);
            var a, b, c, d := node.reportApps, node.desireApps, node.reportSysApps, node.desireSysApps;
            && (n !in versions <==> Unlisted(a, n) && Unlisted(b, n) && Unlisted(c, n) && Unlisted(d, n))
            && (LastNamed(d, i, n) ==> versions[n] == d[i].version)
            && (LastNamed(c, i, n) && Unlisted(d, n) ==> versions[n] == c[i].version)
            && (LastNamed(b, i, n) && Unlisted(c, n) && Unlisted(d, n) ==> versions[n] == b[i].version)
            && (LastNamed(a, i, n) && Unlisted(b, n) && Unlisted(c, n) && Unlisted(d, n) ==>
                  versions[n] == a[i].version)
  {
    var a, b, c, d := node.reportApps, node.desireApps, node.reportSysApps, node.desireSysApps;
    Joined(a, b, n);
    Joined(a + b, c, n);
    Joined(a + b + c, d, n);
    LastOfList(a, i, n);
    LastOfList(b, i, n);
    LastOfList(c, i, n);
    LastOfList(d, i, n);
  }

  lemma {:induction false} LastOfList(list: seq<AppInfo>, i: int, n: string)
    ensures n !in Wanted(list) <==> Unlisted(list, n)
    ensures LastNamed(list, i, n) ==> n in Wanted(list) && Wanted(list)[n] == list[i].version
  {
    var k := LastEntryCounts(list, n);
  }

  lemma {:induction false} Joined(a: seq<AppInfo>, b: seq<AppInfo>, n: string)
    ensures n in Wanted(a + b) <==> n in Wanted(a) || n in Wanted(b)
    ensures n in Wanted(a + b) ==> Wanted(a + b)[n] == if n in Wanted(b) then Wanted(b)[n] else Wanted(a)[n]
  {
    if b == [] {
      assert a + b == a;
    } else {
      var front, last := b[..|b| - 1], b[|b| - 1];
      assert (a + b)[..|a + b| - 1] == a + front;
      Joined(a, front, n);
    }
  }
}
