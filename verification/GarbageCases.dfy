/** More stores and nodes on which the collector takes what is still in use: live mounts at two versions, and the
    directories recycle removes. */
module GarbageCases {
  import opened Model
  import opened Keys
  import opened Storage
  import opened Garbage
  import opened Collector
  import opened GarbageSafety
  import opened GarbageMeaning
  import opened GarbageFiles
  import opened GarbageLimits

  // ----- two live versions of one configuration -----

  const NEXT := ObjectRef("c", "2")

  // a and b mount the two versions, the obsolete o would give up the first
  ghost predicate TwoVersions(sto: Store, node: NodeShadow, scan: seq<string>) {
    var a, b, o := MountingApp("a", "1", false, CFG), MountingApp("b", "1", false, NEXT), MountingApp("o", "1", true, CFG);
    && sto == Store(map[AppKey(a) := a, AppKey(b) := b, AppKey(o) := o], map[ConfigKey(OBJECT) := OBJECT], map[])
    && node == NodeShadow([AppInfo("a", "1"), AppInfo("b", "1")], [], [], [], [])
    && scan == [AppKey(a), AppKey(b), AppKey(o)]
  }

  /** With live mounts at two versions some order of the pass deletes the configuration that a mounts. */
  lemma {:induction false} LiveMountDeleted(sto: Store, node: NodeShadow, scan: seq<string>)
    requires TwoVersions(sto, node, scan)
    ensures Complete(sto, scan)
    ensures var occ := OccupiedIn(sto.apps, scan, OccupiedVersions(node));
            && Live(occ, FinishedSet(occ, node.appStats), "a") && Mounts(occ["a"], CFG)
            && exists order ::
                 IsOrder(order, occ.Keys) && RefKey(CONFIGURATION, CFG) in PassDels(sto, node, scan, order)
  {
    var occ := OccupiedIn(sto.apps, scan, OccupiedVersions(node));
    TwoVersionsVote(sto, node, scan);
    assert !Unanimous(occ, FinishedSet(occ, node.appStats), "c", "1");
    SafeExactly(sto, node, scan, "c", "1");
  }

  /** And a second pass in another order deletes what the first one kept. */
  lemma {:induction false} SecondPassDeletes(sto: Store, node: NodeShadow, scan: seq<string>)
    requires TwoVersions(sto, node, scan)
    ensures Complete(sto, scan)
    ensures var occ := OccupiedIn(sto.apps, scan, OccupiedVersions(node));
            exists order1, order2 :: IsOrder(order1, occ.Keys) && IsOrder(order2, occ.Keys) &&
                                     !Idle(sto, node, scan, order1, order2)
  {
    var occ := OccupiedIn(sto.apps, scan, OccupiedVersions(node));
    TwoVersionsVote(sto, node, scan);
    assert Disputed(occ, FinishedSet(occ, node.appStats), "c", "1");
    IdleExactly(sto, node, scan);
  }

  lemma {:induction false} TwoVersionsVote(sto: Store, node: NodeShadow, scan: seq<string>)
    requires TwoVersions(sto, node, scan)
    ensures WellKeyed(sto) && Complete(sto, scan)
    ensures var occ := OccupiedIn(sto.apps, scan, OccupiedVersions(node));
            var finished := FinishedSet(occ, node.appStats);
            && Live(occ, finished, "a") && Mounts(occ["a"], CFG)
            && Votes(occ, finished, "a", "c", "1") && Votes(occ, finished, "b", "c", "2") && DashFree(occ, finished)
    ensures RefKey(CONFIGURATION, CFG) in Cleanable(sto, node, scan)
  {
    var occ := OccupiedIn(sto.apps, scan, OccupiedVersions(node));
    TwoVersionsScan(sto, node, scan);
    TwoVotes(occ, FinishedSet(occ, node.appStats));
    ObsoleteIsCleanable(sto, node, scan);
  }

  lemma {:induction false} TwoVotes(occ: map<string, Application>, finished: set<string>)
    requires occ == map["a" := MountingApp("a", "1", false, CFG), "b" := MountingApp("b", "1", false, NEXT)]
    ensures Live(occ, finished, "a") && Mounts(occ["a"], CFG)
    ensures Votes(occ, finished, "a", "c", "1") && Votes(occ, finished, "b", "c", "2") && DashFree(occ, finished)
  {
    MountingAppVotes(occ, finished, "a", CFG);
    MountingAppVotes(occ, finished, "b", NEXT);
    assert '-' !in "1" && '-' !in "2";
  }

  lemma {:induction false} MountingAppVotes(apps: map<string, Application>, finished: set<string>, k: string,
                                            ref: ObjectRef)
    requires k in apps && apps[k] == MountingApp(k, "1", false, ref)
    ensures Live(apps, finished, k) && Mounts(apps[k], ref)
    ensures forall n, v :: Votes(apps, finished, k, n, v) <==> n == ref.name && v == ref.version
  {
    MountingAppMounts(k, "1", false, ref);
    MountingAppRecords(k, ref);
  }

  lemma {:induction false} MountingAppRecords(name: string, ref: ObjectRef)
    ensures Recorded(MountingApp(name, "1", false, ref)) == map[ref.name := ref.version]
  {
    var app := MountingApp(name, "1", false, ref);
    var mounts, refers := MountsOf(app.services), Refers(app.volumes);
    assert app.services[..0] == [] && app.volumes[..0] == [];
    assert MountsOf(app.services) == MountsOf([]) + app.services[0].mounts == [VolumeMount("v", false)];
    assert Refers([]) == map[] && app.volumes[0].config == Some(ref);
    assert refers == map["v" := ref];
    assert mounts[..0] == [] && Record(map[], refers, []) == map[];
  }

  lemma {:induction false} ObsoleteIsCleanable(sto: Store, node: NodeShadow, scan: seq<string>)
    requires forall i :: 0 <= i < |scan| ==> scan[i] in sto.apps
    requires sto.configs == map[ConfigKey(OBJECT) := OBJECT]
    requires ObsoleteIn(sto.apps, scan, OccupiedVersions(node)) == map["o" := MountingApp("o", "1", true, CFG)]
    ensures RefKey(CONFIGURATION, CFG) in Cleanable(sto, node, scan)
  {
    MountingAppMounts("o", "1", true, CFG);
    ObjectIsStored(sto.configs);
    var obsolete := ObsoleteIn(sto.apps, scan, OccupiedVersions(node));
    assert "o" in obsolete.Keys && AutoCleans(obsolete["o"], RefKey(CONFIGURATION, CFG));
    assert CleanedAmong(obsolete, obsolete.Keys, RefKey(CONFIGURATION, CFG));
  }

  lemma {:induction false} TwoVersionsScan(sto: Store, node: NodeShadow, scan: seq<string>)
    requires TwoVersions(sto, node, scan)
    ensures WellKeyed(sto) && Complete(sto, scan)
    ensures OccupiedIn(sto.apps, scan, OccupiedVersions(node)) ==
            map["a" := MountingApp("a", "1", false, CFG), "b" := MountingApp("b", "1", false, NEXT)]
    ensures ObsoleteIn(sto.apps, scan, OccupiedVersions(node)) == map["o" := MountingApp("o", "1", true, CFG)]
  {
    var a, b, o := MountingApp("a", "1", false, CFG), MountingApp("b", "1", false, NEXT), MountingApp("o", "1", true, CFG);
    TwoVersionsStored(sto, node, scan);
    assert Infos(node) == node.reportApps;
    WantedOfTwo(AppInfo("a", "1"), AppInfo("b", "1"));
    ScanOfThree(sto.apps, AppKey(a), AppKey(b), AppKey(o), OccupiedVersions(node));
  }

  lemma {:induction false} TwoVersionsStored(sto: Store, node: NodeShadow, scan: seq<string>)
    requires TwoVersions(sto, node, scan)
    ensures WellKeyed(sto) && Complete(sto, scan) && |scan| == 3 && scan == [scan[0], scan[1], scan[2]]
    ensures sto.apps[scan[0]].name == "a" && sto.apps[scan[1]].name == "b" && sto.apps[scan[2]].name == "o"
    ensures forall i :: 0 <= i < 3 ==> scan[i] == AppKey(sto.apps[scan[i]])
  {
    var a, b, o := MountingApp("a", "1", false, CFG), MountingApp("b", "1", false, NEXT), MountingApp("o", "1", true, CFG);
    assert AppKey(a)[12] == 'a' && AppKey(b)[12] == 'b' && AppKey(o)[12] == 'o';
    assert scan[0] == AppKey(a) && scan[1] == AppKey(b) && scan[2] == AppKey(o);
  }

  // the first two are occupied, the third is not
  lemma {:induction false} ScanOfThree(apps: map<string, Application>, k1: string, k2: string, k3: string,
                                       versions: map<string, string>)
    requires k1 in apps && k2 in apps && k3 in apps
    requires IsOccupied(apps[k1], versions) && IsOccupied(apps[k2], versions) && !IsOccupied(apps[k3], versions)
    ensures OccupiedIn(apps, [k1, k2, k3], versions) == map[apps[k1].name := apps[k1]][apps[k2].name := apps[k2]]
    ensures ObsoleteIn(apps, [k1, k2, k3], versions) == map[apps[k3].name := apps[k3]]
  {
    var scan := [k1, k2, k3];
    assert scan[..2] == [k1, k2] && [k1, k2][..1] == [k1] && [k1][..0] == [];
    assert OccupiedIn(apps, [k1], versions) == map[apps[k1].name := apps[k1]];
    assert ObsoleteIn(apps, [k1], versions) == map[];
    assert OccupiedIn(apps, [k1, k2], versions) == map[apps[k1].name := apps[k1]][apps[k2].name := apps[k2]];
    assert ObsoleteIn(apps, [k1, k2], versions) == map[];
  }

  // ----- a mount of the second service -----

  // the running a mounts the configuration in its second service, the obsolete o would give it up
  ghost predicate SecondService(sto: Store, node: NodeShadow, scan: seq<string>) {
    var a := Application("a", "1", OtherWorkload, 0, 1,
                         [Service("s1", 1, [], []), Service("s2", 1, [], [VolumeMount("v", false)])],
                         [Volume("v", None, Some(ObjectRef("c", "1")), None)]);
    var o := MountingApp("o", "1", true, CFG);
    && sto == Store(map["application-a-1" := a, "application-o-1" := o], map["configuration-c-1" := OBJECT], map[])
    && node == NodeShadow([AppInfo("a", "1")], [], [], [], [])
    && scan == ["application-a-1", "application-o-1"]
  }

  /** The mount of the second service counts: the pass deletes nothing. */
  lemma {:induction false} SecondServiceKept(sto: Store, node: NodeShadow, scan: seq<string>, order: seq<string>)
    requires SecondService(sto, node, scan)
    requires IsOrder(order, OccupiedIn(sto.apps, scan, OccupiedVersions(node)).Keys)
    ensures PassDels(sto, node, scan, order) == map[]
  {
    SecondServiceStored(sto, node, scan);
    var a := sto.apps["application-a-1"];
    var occ := OccupiedIn(sto.apps, scan, OccupiedVersions(node));
    OneMountOneVersion(occ, FinishedSet(occ, node.appStats), a, CFG);
    ServiceMountSurvives(sto, node, scan, order, "application-a-1", 1, 0, 0, CFG);
    assert MakeKey("configuration", "c", "1") == "configuration-c-1";
  }

  lemma {:induction false} SecondServiceStored(sto: Store, node: NodeShadow, scan: seq<string>)
    requires SecondService(sto, node, scan)
    ensures WellKeyed(sto) && Complete(sto, scan)
    ensures IsOccupied(sto.apps["application-a-1"], OccupiedVersions(node))
    ensures OccupiedIn(sto.apps, scan, OccupiedVersions(node)) == map["a" := sto.apps["application-a-1"]]
  {
    var a, o := sto.apps["application-a-1"], sto.apps["application-o-1"];
    assert "application-a-1"[12] == 'a' && "application-o-1"[12] == 'o';
    assert AppKey(a) == "application-a-1" && AppKey(o) == "application-o-1" && ConfigKey(OBJECT) == "configuration-c-1";
    assert Infos(node) == [AppInfo("a", "1")];
    WantedOfOne(AppInfo("a", "1"));
    OccupiedOfTwo(sto.apps, scan[0], scan[1], OccupiedVersions(node));
  }

  lemma {:induction false} OneMountOneVersion(occ: map<string, Application>, finished: set<string>, a: Application,
                                              ref: ObjectRef)
    requires occ == map["a" := a]
    requires a.services == [Service("s1", 1, [], []), Service("s2", 1, [], [VolumeMount("v", false)])]
    requires a.volumes == [Volume("v", None, Some(ref), None)]
    ensures OneVersion(occ, finished)
  {
    var k := RefersExactly(a.volumes, "v");
    assert Refers(a.volumes)["v"] == ref;
    forall r | Mounts(a, r) ensures r == ref {
      MountsExactly(a, r);
      var i, j :| 0 <= i < |a.services| && 0 <= j < |a.services[i].mounts| &&
                  a.services[i].mounts[j].name in Refers(a.volumes) &&
                  Refers(a.volumes)[a.services[i].mounts[j].name] == r;
      assert i == 1 && j == 0;
    }
    assert forall k :: k in occ ==> occ[k] == a;
  }

  lemma {:induction false} OccupiedOfTwo(apps: map<string, Application>, k1: string, k2: string,
                                         versions: map<string, string>)
    requires k1 in apps && k2 in apps && IsOccupied(apps[k1], versions) && !IsOccupied(apps[k2], versions)
    ensures OccupiedIn(apps, [k1, k2], versions) == map[apps[k1].name := apps[k1]]
  {
    assert [k1, k2][..1] == [k1] && [k1][..0] == [];
    assert OccupiedIn(apps, [k1], versions) == map[apps[k1].name := apps[k1]];
  }

  // ----- recycle -----

  const NEWER := Configuration("c", "2", false, map["_object_file" := "{}"])

  /** recycle removes the directory of the name c, and with it the files of the referenced version 1. */
  lemma {:induction false} RecycleTakesReferenced(sto: Store, infos: seq<AppInfo>, tree: Tree, disk: Disk)
    requires var x := MountingApp("x", "1", false, CFG);
             sto == Store(map[AppKey(x) := x], map[ConfigKey(OBJECT) := OBJECT, ConfigKey(NEWER) := NEWER], map[])
    requires infos == [AppInfo("x", "1")] && tree == map["c" := {"1", "2"}] && Sound(disk)
    ensures AllStored(sto, infos) && Referenced(sto, infos, ConfigKey(OBJECT)) && HasDir(tree, "c", "1")
    ensures var dels := Objects(sto.configs) - ReferencedKeys(sto, infos);
            !HasDir(tree - RemovedDirs(dels, dels.Keys, disk), "c", "1")
  {
    var x := MountingApp("x", "1", false, CFG);
    assert InfoKey(infos[0]) == AppKey(x);
    assert ConfigKey(OBJECT)[|ConfigKey(OBJECT)| - 1] == '1' && ConfigKey(NEWER)[|ConfigKey(NEWER)| - 1] == '2';
    assert x.volumes[0].config == Some(CFG);
    assert "_object_file" in NEWER.data && IsConfigObject("_object_file");
    assert !Referenced(sto, infos, ConfigKey(NEWER));
    RecycleFilesExactly(sto, infos, tree, disk, "c", "1");
  }
}
