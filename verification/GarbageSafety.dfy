/** What a garbage-collection pass may delete, for every order in which it ranges over its maps. */
module GarbageSafety {
  import opened Model
  import opened Keys
  import opened Storage
  import opened Garbage
  import opened Collector

  // an occupied application whose mounts count
  predicate Live(apps: map<string, Application>, finished: set<string>, k: string) {
    k in apps && !IsFinished(apps[k], finished)
  }

  // what the mounts of one application record
  function Recorded(app: Application): map<string, string> {
    Record(map[], Refers(app.volumes), MountsOf(app.services))
  }

  lemma {:induction false} RecordExactly(refers: map<string, ObjectRef>, mounts: seq<VolumeMount>, ref: ObjectRef)
    ensures var r := Record(map[], refers, mounts);
            && (MountsAmong(refers, mounts, ref) ==> ref.name in r)
            && (ref.name in r ==> MountsAmong(refers, mounts, ObjectRef(ref.name, r[ref.name])))
  {
    if mounts != [] {
      var front, last := mounts[..|mounts| - 1], mounts[|mounts| - 1];
      RecordExactly(refers, front, ref);
      assert mounts == front + [last];
      assert forall x :: MountsAmong(refers, mounts, x) <==>
          (MountsAmong(refers, front, x) || (last.name in refers && refers[last.name] == x)) by {
        forall x | MountsAmong(refers, front, x) ensures MountsAmong(refers, mounts, x) {
          var i :| 0 <= i < |front| && front[i].name in refers && refers[front[i].name] == x;
          assert mounts[i] == front[i];
        }
        assert mounts[|front|] == last;
      }
    }
  }

  lemma {:induction false} RecordOver(used: map<string, string>, refers: map<string, ObjectRef>,
                                      mounts: seq<VolumeMount>, n: string)
    ensures var r, alone := Record(used, refers, mounts), Record(map[], refers, mounts);
            && (n in r <==> n in used || n in alone)
            && (n in r ==> r[n] == if n in alone then alone[n] else used[n])
  {
    if mounts != [] {
      RecordOver(used, refers, mounts[..|mounts| - 1], n);
    }
  }

  // a live application that records version v for configuration n
  predicate Votes(apps: map<string, Application>, finished: set<string>, k: string, n: string, v: string) {
    Live(apps, finished, k) && n in Recorded(apps[k]) && Recorded(apps[k])[n] == v
  }

  lemma {:induction false} UsedHasVote(apps: map<string, Application>, finished: set<string>, order: seq<string>,
                                       n: string)
    requires forall i :: 0 <= i < |order| ==> order[i] in apps
    ensures n in Used(apps, finished, order) ==>
              exists k :: k in order && Votes(apps, finished, k, n, Used(apps, finished, order)[n])
    ensures forall k, v :: k in order && Votes(apps, finished, k, n, v) ==> n in Used(apps, finished, order)
  {
    if order != [] {
      var front, last := order[..|order| - 1], order[|order| - 1];
      UsedHasVote(apps, finished, front, n);
      RecordOver(Used(apps, finished, front), Refers(apps[last].volumes), MountsOf(apps[last].services), n);
      assert forall k :: k in order <==> k in front || k == last;
      var used := Used(apps, finished, order);
      if n in used {
        if Live(apps, finished, last) && n in Recorded(apps[last]) {
          assert Votes(apps, finished, last, n, used[n]);
        } else {
          var k :| k in front && Votes(apps, finished, k, n, Used(apps, finished, front)[n]);
          assert Votes(apps, finished, k, n, used[n]);
        }
      }
    }
  }

  lemma {:induction false} UsedEndsWith(apps: map<string, Application>, finished: set<string>, order: seq<string>,
                                        n: string, v: string)
    requires forall i :: 0 <= i < |order| ==> order[i] in apps
    requires order != [] && Votes(apps, finished, order[|order| - 1], n, v)
    ensures n in Used(apps, finished, order) && Used(apps, finished, order)[n] == v
  {
    var front, last := order[..|order| - 1], order[|order| - 1];
    RecordOver(Used(apps, finished, front), Refers(apps[last].volumes), MountsOf(apps[last].services), n);
  }

  /** One version per configuration name, over all mounts of live applications. */
  ghost predicate OneVersion(apps: map<string, Application>, finished: set<string>) {
    forall j, k, r, s | Live(apps, finished, j) && Live(apps, finished, k) ::
      Mounts(apps[j], r) && Mounts(apps[k], s) && r.name == s.name ==> r.version == s.version
  }

  lemma {:induction false} VoteIsMount(apps: map<string, Application>, finished: set<string>, k: string, n: string,
                                       v: string)
    requires Votes(apps, finished, k, n, v)
    ensures Mounts(apps[k], ObjectRef(n, v))
  {
    RecordExactly(Refers(apps[k].volumes), MountsOf(apps[k].services), ObjectRef(n, v));
  }

  lemma {:induction false} MountHasVote(apps: map<string, Application>, finished: set<string>, k: string,
                                        ref: ObjectRef)
    requires Live(apps, finished, k) && Mounts(apps[k], ref)
    ensures exists v :: Votes(apps, finished, k, ref.name, v)
  {
    RecordExactly(Refers(apps[k].volumes), MountsOf(apps[k].services), ref);
    assert Votes(apps, finished, k, ref.name, Recorded(apps[k])[ref.name]);
  }

  lemma {:induction false} UsedOfOneVersion(apps: map<string, Application>, finished: set<string>, order: seq<string>,
                                            k: string, ref: ObjectRef)
    requires IsOrder(order, apps.Keys) && OneVersion(apps, finished)
    requires Live(apps, finished, k) && Mounts(apps[k], ref)
    ensures ref.name in Used(apps, finished, order) && Used(apps, finished, order)[ref.name] == ref.version
  {
    MountHasVote(apps, finished, k, ref);
    UsedHasVote(apps, finished, order, ref.name);
    var u := Used(apps, finished, order)[ref.name];
    var j :| j in order && Votes(apps, finished, j, ref.name, u);
    VoteIsMount(apps, finished, j, ref.name, u);
  }

  // a scan that saw every application
  ghost predicate Complete(sto: Store, scan: seq<string>) {
    && (forall i :: 0 <= i < |scan| ==> scan[i] in sto.apps)
    && (forall k :: k in sto.apps ==> k in scan)
  }

  lemma {:induction false} OccupiedExactly(sto: Store, scan: seq<string>, versions: map<string, string>, n: string)
    requires WellKeyed(sto) && forall i :: 0 <= i < |scan| ==> scan[i] in sto.apps
    ensures var occ := OccupiedIn(sto.apps, scan, versions);
            && (n in occ ==> occ[n].name == n && IsOccupied(occ[n], versions) && AppKey(occ[n]) in scan &&
                             sto.apps[AppKey(occ[n])] == occ[n])
            && (forall k :: k in scan && IsOccupied(sto.apps[k], versions) && sto.apps[k].name == n ==>
                            n in occ && occ[n] == sto.apps[k])
  {
    if scan != [] {
      var front, last := scan[..|scan| - 1], scan[|scan| - 1];
      OccupiedExactly(sto, front, versions, n);
      assert forall k :: k in scan <==> k in front || k == last;
    }
  }

  // the k-th visited application is unoccupied and has this name
  predicate ObsoleteAt(apps: map<string, Application>, scan: seq<string>, versions: map<string, string>, n: string,
                       i: int) {
    0 <= i < |scan| && scan[i] in apps && apps[scan[i]].name == n && !IsOccupied(apps[scan[i]], versions)
  }

  /** Of the unoccupied versions of an application the scan keeps the most recently updated one, and of
      equally recent ones the first it visits. */
  lemma {:induction false} ObsoleteExactly(apps: map<string, Application>, scan: seq<string>,
                                           versions: map<string, string>, n: string)
    requires forall i :: 0 <= i < |scan| ==> scan[i] in apps
    ensures var obsolete := ObsoleteIn(apps, scan, versions);
            && (n in obsolete <==> exists i :: ObsoleteAt(apps, scan, versions, n, i))
            && (n in obsolete ==>
                  exists i :: ObsoleteAt(apps, scan, versions, n, i) && obsolete[n] == apps[scan[i]] &&
                    (forall j :: ObsoleteAt(apps, scan, versions, n, j) ==>
                       apps[scan[j]].updateTime <= obsolete[n].updateTime) &&
                    (forall j :: j < i && ObsoleteAt(apps, scan, versions, n, j) ==>
                       apps[scan[j]].updateTime < obsolete[n].updateTime))
  {
    if scan != [] {
      var front, k := scan[..|scan| - 1], |scan| - 1;
      ObsoleteExactly(apps, front, versions, n);
      assert forall i :: i < k ==>
          (ObsoleteAt(apps, scan, versions, n, i) <==> ObsoleteAt(apps, front, versions, n, i));
      var before, obsolete := ObsoleteIn(apps, front, versions), ObsoleteIn(apps, scan, versions);
      if ObsoleteAt(apps, scan, versions, n, k) && (n !in before || apps[scan[k]].updateTime > before[n].updateTime) {
        assert obsolete[n] == apps[scan[k]];
      } else if n in before {
        var i :| ObsoleteAt(apps, front, versions, n, i) && before[n] == apps[front[i]] &&
          (forall j :: ObsoleteAt(apps, front, versions, n, j) ==> apps[front[j]].updateTime <= before[n].updateTime) &&
          (forall j :: j < i && ObsoleteAt(apps, front, versions, n, j) ==> apps[front[j]].updateTime < before[n].updateTime);
        assert ObsoleteAt(apps, scan, versions, n, i) && obsolete[n] == apps[scan[i]];
      }
    }
  }

  /** Safety: under the one-version hypothesis, and when the scan of the applications was not cut short, no
      pass deletes a configuration that an occupied application mounts, unless that application is a
      finished job. */
  lemma {:induction false} MountedSurvives(sto: Store, node: NodeShadow, scan: seq<string>, order: seq<string>,
                                           a: string, ref: ObjectRef)
    requires WellKeyed(sto) && Complete(sto, scan)
    requires IsOrder(order, OccupiedIn(sto.apps, scan, OccupiedVersions(node)).Keys)
    requires var occ := OccupiedIn(sto.apps, scan, OccupiedVersions(node));
             OneVersion(occ, FinishedSet(occ, node.appStats))
    requires a in sto.apps && IsOccupied(sto.apps[a], OccupiedVersions(node)) && Mounts(sto.apps[a], ref)
    ensures var app := sto.apps[a];
            RefKey(CONFIGURATION, ref) in PassDels(sto, node, scan, order) ==>
              app.workload.Job? &&
              Finished(OccupiedIn(sto.apps, scan, OccupiedVersions(node)), node.appStats, app.name)
  {
    var app, occ := sto.apps[a], OccupiedIn(sto.apps, scan, OccupiedVersions(node));
    OccupiedExactly(sto, scan, OccupiedVersions(node), app.name);
    if !IsFinished(app, FinishedSet(occ, node.appStats)) {
      LiveMountKept(sto, node, scan, order, app.name, ref);
    }
  }

  lemma {:induction false} LiveMountKept(sto: Store, node: NodeShadow, scan: seq<string>, order: seq<string>,
                                         n: string, ref: ObjectRef)
    requires forall i :: 0 <= i < |scan| ==> scan[i] in sto.apps
    requires var occ := OccupiedIn(sto.apps, scan, OccupiedVersions(node));
             var finished := FinishedSet(occ, node.appStats);
             IsOrder(order, occ.Keys) && OneVersion(occ, finished) && Live(occ, finished, n) && Mounts(occ[n], ref)
    ensures RefKey(CONFIGURATION, ref) !in PassDels(sto, node, scan, order)
  {
    var occ := OccupiedIn(sto.apps, scan, OccupiedVersions(node));
    UsedOfOneVersion(occ, FinishedSet(occ, node.appStats), order, n, ref);
  }

  // object configurations deletable if not in use
  ghost function Cleanable(sto: Store, node: NodeShadow, scan: seq<string>): set<string>
    requires forall i :: 0 <= i < |scan| ==> scan[i] in sto.apps
  {
    var occ := OccupiedIn(sto.apps, scan, OccupiedVersions(node));
    var obsolete := ObsoleteIn(sto.apps, scan, OccupiedVersions(node));
    Dels(occ, obsolete, Objects(sto.configs), FinishedSet(occ, node.appStats)).Keys
  }

  ghost function InUse(sto: Store, node: NodeShadow, scan: seq<string>, order: seq<string>): set<string>
    requires forall i :: 0 <= i < |scan| ==> scan[i] in sto.apps
    requires IsOrder(order, OccupiedIn(sto.apps, scan, OccupiedVersions(node)).Keys)
  {
    var occ := OccupiedIn(sto.apps, scan, OccupiedVersions(node));
    UsedKeys(Used(occ, FinishedSet(occ, node.appStats), order))
  }

  /** Exactness: a pass deletes exactly what is cleanable and not among the recorded uses. */
  lemma {:induction false} DeletesExactly(sto: Store, node: NodeShadow, scan: seq<string>, order: seq<string>)
    requires forall i :: 0 <= i < |scan| ==> scan[i] in sto.apps
    requires IsOrder(order, OccupiedIn(sto.apps, scan, OccupiedVersions(node)).Keys)
    ensures PassDels(sto, node, scan, order).Keys == Cleanable(sto, node, scan) - InUse(sto, node, scan, order)
  {
  }

  /** Versions of live mounts hold no dash, so that their keys do not collide. */
  ghost predicate DashFree(apps: map<string, Application>, finished: set<string>) {
    forall k, n, v :: Votes(apps, finished, k, n, v) ==> '-' !in v
  }

  lemma {:induction false} UsedKeyExactly(apps: map<string, Application>, finished: set<string>, order: seq<string>,
                                          n: string, v: string)
    requires IsOrder(order, apps.Keys) && DashFree(apps, finished) && '-' !in v
    requires MakeKey(CONFIGURATION, n, v) != ""
    ensures MakeKey(CONFIGURATION, n, v) in UsedKeys(Used(apps, finished, order)) <==>
            n in Used(apps, finished, order) && Used(apps, finished, order)[n] == v
  {
    var used := Used(apps, finished, order);
    if MakeKey(CONFIGURATION, n, v) in UsedKeys(used) {
      var m :| m in used && MakeKey(CONFIGURATION, m, used[m]) == MakeKey(CONFIGURATION, n, v);
      UsedHasVote(apps, finished, order, m);
      Injective(CONFIGURATION, m, used[m], n, v);
    }
  }

  /** Exactly when a configuration is safe whatever the order, for any scan: it is not cleanable, or some live
      application mounts its name and all that do last mount this version. */
  lemma {:induction false} SafeExactly(sto: Store, node: NodeShadow, scan: seq<string>, n: string, v: string)
    requires forall i :: 0 <= i < |scan| ==> scan[i] in sto.apps
    requires var occ := OccupiedIn(sto.apps, scan, OccupiedVersions(node)); DashFree(occ, FinishedSet(occ, node.appStats))
    requires '-' !in v && MakeKey(CONFIGURATION, n, v) != ""
    ensures var occ := OccupiedIn(sto.apps, scan, OccupiedVersions(node));
            (forall order :: IsOrder(order, occ.Keys) ==>
              MakeKey(CONFIGURATION, n, v) !in PassDels(sto, node, scan, order)) <==>
            MakeKey(CONFIGURATION, n, v) !in Cleanable(sto, node, scan) ||
            Unanimous(occ, FinishedSet(occ, node.appStats), n, v)
  {
    var occ := OccupiedIn(sto.apps, scan, OccupiedVersions(node));
    var finished := FinishedSet(occ, node.appStats);
    var key := MakeKey(CONFIGURATION, n, v);
    if Unanimous(occ, finished, n, v) {
      forall order | IsOrder(order, occ.Keys) ensures key !in PassDels(sto, node, scan, order) {
        UsedHasVote(occ, finished, order, n);
        UsedKeyExactly(occ, finished, order, n, v);
        DeletesExactly(sto, node, scan, order);
      }
    } else if key in Cleanable(sto, node, scan) {
      var order := SomeOrder(occ.Keys);
      if k, w :| Votes(occ, finished, k, n, w) {
        var j, x :| Votes(occ, finished, j, n, x) && x != v;
        order := OrderEndingWith(occ.Keys, j);
        UsedEndsWith(occ, finished, order, n, x);
      } else {
        UsedHasVote(occ, finished, order, n);
      }
      UsedKeyExactly(occ, finished, order, n, v);
      DeletesExactly(sto, node, scan, order);
      assert key in PassDels(sto, node, scan, order);
    }
  }

  // some live application ends on version v of n, and none on another
  ghost predicate Unanimous(apps: map<string, Application>, finished: set<string>, n: string, v: string) {
    (exists k :: Votes(apps, finished, k, n, v)) && forall k, w :: Votes(apps, finished, k, n, w) ==> w == v
  }

  // the store after a pass
  ghost function AfterPass(sto: Store, dels: set<string>): Store {
    sto.(configs := sto.configs - dels)
  }

  lemma {:induction false} CleanableAfter(sto: Store, node: NodeShadow, scan: seq<string>, dels: set<string>)
    requires forall i :: 0 <= i < |scan| ==> scan[i] in sto.apps
    ensures Cleanable(AfterPass(sto, dels), node, scan) == Cleanable(sto, node, scan) - dels
  {
  }

  /** What a second pass over the unchanged node deletes, whatever orders the two passes took. */
  lemma {:induction false} SecondPassExactly(sto: Store, node: NodeShadow, scan: seq<string>, order1: seq<string>,
                                             order2: seq<string>, disk: Disk)
    requires forall i :: 0 <= i < |scan| ==> scan[i] in sto.apps
    requires var occ := OccupiedIn(sto.apps, scan, OccupiedVersions(node));
             IsOrder(order1, occ.Keys) && IsOrder(order2, occ.Keys)
    ensures var gone := Deleted(PassDels(sto, node, scan, order1).Keys, disk);
            PassDels(AfterPass(sto, gone), node, scan, order2).Keys ==
            Cleanable(sto, node, scan) - gone - InUse(sto, node, scan, order2)
  {
    var gone := Deleted(PassDels(sto, node, scan, order1).Keys, disk);
    CleanableAfter(sto, node, scan, gone);
    DeletesExactly(AfterPass(sto, gone), node, scan, order2);
  }

  /** Idempotence: under the one-version hypothesis a second pass has nothing to do but what the first failed
      to delete. */
  lemma {:induction false} SecondPassIdle(sto: Store, node: NodeShadow, scan: seq<string>, order1: seq<string>,
                                          order2: seq<string>, disk: Disk)
    requires forall i :: 0 <= i < |scan| ==> scan[i] in sto.apps
    requires var occ := OccupiedIn(sto.apps, scan, OccupiedVersions(node));
             && IsOrder(order1, occ.Keys) && IsOrder(order2, occ.Keys)
             && OneVersion(occ, FinishedSet(occ, node.appStats))
    ensures var dels := PassDels(sto, node, scan, order1).Keys;
            PassDels(AfterPass(sto, Deleted(dels, disk)), node, scan, order2).Keys == dels - Deleted(dels, disk)
  {
    var occ := OccupiedIn(sto.apps, scan, OccupiedVersions(node));
    UsedSame(occ, FinishedSet(occ, node.appStats), order1, order2);
    SecondPassExactly(sto, node, scan, order1, order2, disk);
    DeletesExactly(sto, node, scan, order1);
  }

  lemma {:induction false} UsedSame(apps: map<string, Application>, finished: set<string>, order1: seq<string>,
                                    order2: seq<string>)
    requires IsOrder(order1, apps.Keys) && IsOrder(order2, apps.Keys) && OneVersion(apps, finished)
    ensures Used(apps, finished, order1) == Used(apps, finished, order2)
  {
    var u1, u2 := Used(apps, finished, order1), Used(apps, finished, order2);
    forall n ensures n in u1 <==> n in u2 ensures n in u1 && n in u2 ==> u1[n] == u2[n] {
      UsedHasVote(apps, finished, order1, n);
      UsedHasVote(apps, finished, order2, n);
      if n in u1 {
        var k :| k in order1 && Votes(apps, finished, k, n, u1[n]);
        VoteIsMount(apps, finished, k, n, u1[n]);
        UsedOfOneVersion(apps, finished, order2, k, ObjectRef(n, u1[n]));
      }
    }
  }

  // two live applications end on different versions of n
  ghost predicate Disputed(apps: map<string, Application>, finished: set<string>, n: string, v: string) {
    exists j, k, w :: Votes(apps, finished, j, n, v) && Votes(apps, finished, k, n, w) && w != v
  }

  ghost predicate Idle(sto: Store, node: NodeShadow, scan: seq<string>, order1: seq<string>, order2: seq<string>)
    requires forall i :: 0 <= i < |scan| ==> scan[i] in sto.apps
    requires var occ := OccupiedIn(sto.apps, scan, OccupiedVersions(node));
             IsOrder(order1, occ.Keys) && IsOrder(order2, occ.Keys)
  {
    PassDels(AfterPass(sto, PassDels(sto, node, scan, order1).Keys), node, scan, order2).Keys == {}
  }

  lemma {:induction false} IdleMeans(sto: Store, node: NodeShadow, scan: seq<string>, order1: seq<string>,
                                     order2: seq<string>)
    requires forall i :: 0 <= i < |scan| ==> scan[i] in sto.apps
    requires var occ := OccupiedIn(sto.apps, scan, OccupiedVersions(node));
             IsOrder(order1, occ.Keys) && IsOrder(order2, occ.Keys)
    ensures Idle(sto, node, scan, order1, order2) <==>
            Cleanable(sto, node, scan) * InUse(sto, node, scan, order1) <= InUse(sto, node, scan, order2)
  {
    var disk := Disk(_ => true, _ => true, (_, _) => true, _ => true);
    var dels := PassDels(sto, node, scan, order1).Keys;
    assert Deleted(dels, disk) == dels;
    SecondPassExactly(sto, node, scan, order1, order2, disk);
    DeletesExactly(sto, node, scan, order1);
    var c, u1, u2 := Cleanable(sto, node, scan), InUse(sto, node, scan, order1), InUse(sto, node, scan, order2);
    assert c - (c - u1) - u2 == {} <==> c * u1 <= u2 by {
      if c - (c - u1) - u2 == {} {
        forall k | k in c * u1 ensures k in u2 {
          assert k !in c - (c - u1) - u2;
        }
      }
    }
  }

  /** Exactly when a second pass is idle for all orders: no cleanable configuration is disputed. */
  lemma {:induction false} IdleExactly(sto: Store, node: NodeShadow, scan: seq<string>)
    requires forall i :: 0 <= i < |scan| ==> scan[i] in sto.apps
    requires var occ := OccupiedIn(sto.apps, scan, OccupiedVersions(node));
             DashFree(occ, FinishedSet(occ, node.appStats))
    ensures var occ := OccupiedIn(sto.apps, scan, OccupiedVersions(node));
            (forall order1, order2 | IsOrder(order1, occ.Keys) && IsOrder(order2, occ.Keys) ::
               Idle(sto, node, scan, order1, order2)) <==>
            (forall n, v :: Disputed(occ, FinishedSet(occ, node.appStats), n, v) ==>
               MakeKey(CONFIGURATION, n, v) !in Cleanable(sto, node, scan))
  {
    var occ := OccupiedIn(sto.apps, scan, OccupiedVersions(node));
    var finished := FinishedSet(occ, node.appStats);
    if n, v :| Disputed(occ, finished, n, v) && MakeKey(CONFIGURATION, n, v) in Cleanable(sto, node, scan) {
      var order1, order2 := DisputeShows(occ, finished, n, v);
      IdleMeans(sto, node, scan, order1, order2);
    } else {
      forall order1, order2 | IsOrder(order1, occ.Keys) && IsOrder(order2, occ.Keys)
        ensures Idle(sto, node, scan, order1, order2)
      {
        UndisputedIdle(sto, node, scan, order1, order2);
      }
    }
  }

  lemma {:induction false} UndisputedIdle(sto: Store, node: NodeShadow, scan: seq<string>, order1: seq<string>,
                                          order2: seq<string>)
    requires forall i :: 0 <= i < |scan| ==> scan[i] in sto.apps
    requires var occ := OccupiedIn(sto.apps, scan, OccupiedVersions(node));
             && IsOrder(order1, occ.Keys) && IsOrder(order2, occ.Keys)
             && forall n, v :: Disputed(occ, FinishedSet(occ, node.appStats), n, v) ==>
                               MakeKey(CONFIGURATION, n, v) !in Cleanable(sto, node, scan)
    ensures Idle(sto, node, scan, order1, order2)
  {
    var occ := OccupiedIn(sto.apps, scan, OccupiedVersions(node));
    IdleMeans(sto, node, scan, order1, order2);
    forall key | key in Cleanable(sto, node, scan) && key in InUse(sto, node, scan, order1)
      ensures key in InUse(sto, node, scan, order2)
    {
      UndisputedStays(occ, FinishedSet(occ, node.appStats), order1, order2, key);
    }
  }

  lemma {:induction false} DisputeShows(apps: map<string, Application>, finished: set<string>, n: string, v: string)
    returns (order1: seq<string>, order2: seq<string>)
    requires DashFree(apps, finished) && Disputed(apps, finished, n, v) && MakeKey(CONFIGURATION, n, v) != ""
    ensures IsOrder(order1, apps.Keys) && IsOrder(order2, apps.Keys)
    ensures MakeKey(CONFIGURATION, n, v) in UsedKeys(Used(apps, finished, order1))
    ensures MakeKey(CONFIGURATION, n, v) !in UsedKeys(Used(apps, finished, order2))
  {
    var j, k, w :| Votes(apps, finished, j, n, v) && Votes(apps, finished, k, n, w) && w != v;
    order1 := OrderEndingWith(apps.Keys, j);
    order2 := OrderEndingWith(apps.Keys, k);
    UsedEndsWith(apps, finished, order1, n, v);
    UsedEndsWith(apps, finished, order2, n, w);
    UsedKeyExactly(apps, finished, order1, n, v);
    UsedKeyExactly(apps, finished, order2, n, v);
  }

  lemma {:induction false} UndisputedStays(apps: map<string, Application>, finished: set<string>, order1: seq<string>,
                                           order2: seq<string>, key: string)
    requires IsOrder(order1, apps.Keys) && IsOrder(order2, apps.Keys)
    requires forall n, v :: Disputed(apps, finished, n, v) ==> MakeKey(CONFIGURATION, n, v) != key
    requires key in UsedKeys(Used(apps, finished, order1))
    ensures key in UsedKeys(Used(apps, finished, order2))
  {
    var u1, u2 := Used(apps, finished, order1), Used(apps, finished, order2);
    var n :| n in u1 && MakeKey(CONFIGURATION, n, u1[n]) == key;
    UsedHasVote(apps, finished, order1, n);
    UsedHasVote(apps, finished, order2, n);
    assert !Disputed(apps, finished, n, u1[n]);
  }
}
