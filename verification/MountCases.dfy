/** An application that names one configuration at two versions and mounts the first: the directory it gets is that
    of the second, which the collector takes to be unused. */
module MountCases {
  import opened Model
  import opened Keys
  import opened Storage
  import opened Garbage
  import opened Collector
  import opened GarbageSafety
  import opened GarbageFiles
  import opened GarbageLimits
  import opened GarbageCases
  import opened Closure
  import opened Mounts

  // mounts v, which names version 1; w names version 2 and is not mounted
  const X := Application("x", "1", OtherWorkload, 0, 1, [Service("s", 1, [], [VolumeMount("v", false)])],
                         [Volume("v", None, Some(CFG), None), Volume("w", None, Some(NEXT), None)])

  // obsolete, would give up version 2
  const O := MountingApp("o", "1", true, NEXT)

  const STORED := Store(map[AppKey(X) := X, AppKey(O) := O], map[ConfigKey(OBJECT) := OBJECT, ConfigKey(NEWER) := NEWER],
                        map[])

  const NODE := NodeShadow([AppInfo("x", "1")], [], [], [], [])
  const SCAN := [AppKey(X), AppKey(O)]

  /** One version is mounted for each name, all lookups resolve, and some order of the pass removes the directory
      the live application x mounts. */
  lemma {:induction false} MountedDirectoryLost(tree: Tree, disk: Disk, host: Host)
    requires tree == map["c" := {"1", "2"}] && Sound(disk)
    ensures WellKeyed(STORED) && Complete(STORED, SCAN)
    ensures var occ := OccupiedIn(STORED.apps, SCAN, OccupiedVersions(NODE));
            var finished := FinishedSet(occ, NODE.appStats);
            && occ == map["x" := X] && Live(occ, finished, "x") && OneVersion(occ, finished)
            && MountsDirectory(X, 0, STORED, host, "c", "2") && HasDir(tree, "c", "2")
            && exists order, visit ::
                 IsOrder(order, occ.Keys) && IsOrder(visit, PassDels(STORED, NODE, SCAN, order).Keys) &&
                 !SparedBy(STORED, NODE, SCAN, order, visit, tree, disk, "c", "2")
  {
    var occ := OccupiedIn(STORED.apps, SCAN, OccupiedVersions(NODE));
    CaseStored();
    CaseScanned();
    CaseVotes(occ, FinishedSet(occ, NODE.appStats));
    CaseMounts(host);
    CaseCleanable();
    DirectorySafeExactly(STORED, NODE, SCAN, tree, disk, "c", "2");
  }

  lemma {:induction false} CaseStored()
    ensures WellKeyed(STORED) && Complete(STORED, SCAN) && DashFreeConfigs(STORED)
    ensures AppKey(X) != AppKey(O) && ConfigKey(OBJECT) != ConfigKey(NEWER)
    ensures '-' !in "1" && '-' !in "2"
  {
    assert AppKey(X)[12] == 'x' && AppKey(O)[12] == 'o';
    assert ConfigKey(OBJECT)[|ConfigKey(OBJECT)| - 1] == '1' && ConfigKey(NEWER)[|ConfigKey(NEWER)| - 1] == '2';
    assert SCAN[0] == AppKey(X) && SCAN[1] == AppKey(O);
  }

  lemma {:induction false} CaseScanned()
    ensures OccupiedIn(STORED.apps, SCAN, OccupiedVersions(NODE)) == map["x" := X]
    ensures ObsoleteIn(STORED.apps, SCAN, OccupiedVersions(NODE)) == map["o" := O]
  {
    CaseStored();
    assert Infos(NODE) == [AppInfo("x", "1")];
    WantedOfOne(AppInfo("x", "1"));
    assert SCAN[..1] == [AppKey(X)] && SCAN[..1][..0] == [];
    assert OccupiedIn(STORED.apps, SCAN[..1], OccupiedVersions(NODE)) == map["x" := X];
    assert ObsoleteIn(STORED.apps, SCAN[..1], OccupiedVersions(NODE)) == map[];
  }

  lemma {:induction false} CaseRefers()
    ensures MountsOf(X.services) == [VolumeMount("v", false)] && Refers(X.volumes) == map["v" := CFG, "w" := NEXT]
    ensures Recorded(X) == map["c" := "1"]
  {
    assert X.services[..0] == [] && X.volumes[..1][..0] == [];
    assert MountsOf(X.services) == MountsOf([]) + X.services[0].mounts == [VolumeMount("v", false)];
    assert Refers(X.volumes[..1]) == map["v" := CFG];
    assert [VolumeMount("v", false)][..0] == [];
    assert Record(map[], Refers(X.volumes), []) == map[];
  }

  lemma {:induction false} CaseMountsOnly(ref: ObjectRef)
    requires Garbage.Mounts(X, ref)
    ensures ref == CFG
  {
    CaseRefers();
  }

  lemma {:induction false} CaseVotes(occ: map<string, Application>, finished: set<string>)
    requires occ == map["x" := X]
    ensures Live(occ, finished, "x") && OneVersion(occ, finished) && GarbageSafety.DashFree(occ, finished)
    ensures !Unanimous(occ, finished, "c", "2")
  {
    forall k, n, v | Votes(occ, finished, k, n, v) ensures v == "1" {
      CaseVote(occ, finished, k, n, v);
    }
    CaseStored();
    forall j, k, r, s | Live(occ, finished, j) && Live(occ, finished, k) && Garbage.Mounts(occ[j], r) &&
      Garbage.Mounts(occ[k], s) ensures r == s
    {
      CaseMountsOnly(r);
      CaseMountsOnly(s);
    }
  }

  lemma {:induction false} CaseVote(occ: map<string, Application>, finished: set<string>, k: string, n: string,
                                    v: string)
    requires occ == map["x" := X] && Votes(occ, finished, k, n, v)
    ensures v == "1"
  {
    CaseRefers();
  }

  lemma {:induction false} CaseMounts(host: Host)
    ensures MountsDirectory(X, 0, STORED, host, "c", "2")
  {
    CaseStored();
    CaseRefers();
    assert X.volumes[..1][..0] == [] && VolumeNamed(X.volumes, "v") == Some(X.volumes[0]);
    assert LoadedConfigs(STORED, X.volumes[..1]) == map["c" := OBJECT];
    assert LoadedConfigs(STORED, X.volumes) == map["c" := NEWER];
    assert "_object_file" in NEWER.data && IsConfigObject("_object_file");
  }

  lemma {:induction false} CaseCleanable()
    ensures MakeKey(CONFIGURATION, "c", "2") in Cleanable(STORED, NODE, SCAN)
  {
    CaseStored();
    CaseScanned();
    MountingAppMounts("o", "1", true, NEXT);
    assert "_object_file" in NEWER.data && IsConfigObject("_object_file");
    var key, obsolete := RefKey(CONFIGURATION, NEXT), ObsoleteIn(STORED.apps, SCAN, OccupiedVersions(NODE));
    assert key in Objects(STORED.configs);
    assert "o" in obsolete.Keys && AutoCleans(obsolete["o"], key);
    assert CleanedAmong(obsolete, obsolete.Keys, key);
  }
}
