/** Two ways a pass deletes a configuration that is still mounted: hypotheses of MountedSurvives that the
    code does not check. */
module GarbageLimits {
  import opened Model
  import opened Keys
  import opened Storage
  import opened AppLists
  import opened Reconcile
  import opened Garbage
  import opened Collector
  import opened GarbageSafety

  const CFG := ObjectRef("c", "1")
  const OBJECT := Configuration("c", "1", false, map["_object_file" := "{}"])

  // an application with one service that mounts ref
  function MountingApp(name: string, version: string, clean: bool, ref: ObjectRef): Application {
    Application(name, version, OtherWorkload, 0, 1, [Service("s", 1, [], [VolumeMount("v", clean)])],
                [Volume("v", None, Some(ref), None)])
  }

  lemma {:induction false} MountingAppMounts(name: string, version: string, clean: bool, ref: ObjectRef)
    ensures Mounts(MountingApp(name, version, clean, ref), ref)
    ensures AutoCleans(MountingApp(name, version, clean, ref), RefKey(CONFIGURATION, ref)) <==> clean
  {
    var app := MountingApp(name, version, clean, ref);
    var mounts, refers := MountsOf(app.services), Refers(app.volumes);
    assert app.services[..|app.services| - 1] == [] && app.volumes[..|app.volumes| - 1] == [];
    assert MountsOf(app.services) == MountsOf([]) + app.services[0].mounts;
    assert Refers([]) == map[];
    assert mounts == [VolumeMount("v", clean)];
    assert refers == map["v" := ref];
    assert mounts[0].name in refers && refers[mounts[0].name] == ref;
    assert CleansAt(app, mounts[0], RefKey(CONFIGURATION, ref)) <==> clean;
  }

  lemma {:induction false} ObjectIsStored(configs: map<string, Configuration>)
    requires configs == map[ConfigKey(OBJECT) := OBJECT]
    ensures RefKey(CONFIGURATION, CFG) == ConfigKey(OBJECT) != "" && ConfigKey(OBJECT) in Objects(configs)
  {
    assert "_object_file" in OBJECT.data && IsConfigObject("_object_file");
  }

  lemma {:induction false} ScanOfOne(apps: map<string, Application>, key: string, versions: map<string, string>)
    requires key in apps && !IsOccupied(apps[key], versions)
    ensures OccupiedIn(apps, [key], versions) == map[]
    ensures ObsoleteIn(apps, [key], versions) == map[apps[key].name := apps[key]]
  {
  }

  lemma {:induction false} WantedOfOne(info: AppInfo)
    ensures Wanted([info]) == map[info.name := info.version]
  {
  }

  lemma {:induction false} WantedOfTwo(a: AppInfo, b: AppInfo)
    ensures Wanted([a, b]) == map[a.name := a.version][b.name := b.version]
  {
    WantedOfOne(a);
    assert [a, b][..1] == [a];
    assert ByName([a, b]) == ByName([a])[b.name := b];
  }

  /** The error of the second ForEach is ignored (engine/clean.go:97-107): a scan cut short before the
      occupied application z lets the obsolete application b give up the configuration z mounts. */
  lemma {:induction false} ScanCutShortDeletes(sto: Store, node: NodeShadow)
    requires var b, z := MountingApp("b", "1", true, CFG), MountingApp("z", "1", false, CFG);
             sto == Store(map[AppKey(b) := b, AppKey(z) := z], map[ConfigKey(OBJECT) := OBJECT], map[])
    requires node == NodeShadow([AppInfo("z", "1")], [], [], [], [])
    ensures var b, z := MountingApp("b", "1", true, CFG), MountingApp("z", "1", false, CFG);
            && AppKey(z) in sto.apps && IsOccupied(z, OccupiedVersions(node)) && Mounts(z, CFG)
            && OccupiedIn(sto.apps, [AppKey(b)], OccupiedVersions(node)) == map[]
            && RefKey(CONFIGURATION, CFG) in PassDels(sto, node, [AppKey(b)], [])
  {
    var b, z := MountingApp("b", "1", true, CFG), MountingApp("z", "1", false, CFG);
    MountingAppMounts("b", "1", true, CFG);
    MountingAppMounts("z", "1", false, CFG);
    ObjectIsStored(sto.configs);
    assert AppKey(b)[12] == 'b' && AppKey(z)[12] == 'z';
    assert Infos(node) == [AppInfo("z", "1")];
    WantedOfOne(AppInfo("z", "1"));
    ScanOfOne(sto.apps, AppKey(b), OccupiedVersions(node));
    DeletesObsolete(sto, node, AppKey(b));
  }

  lemma {:induction false} DeletesObsolete(sto: Store, node: NodeShadow, key: string)
    requires key in sto.apps && AutoCleans(sto.apps[key], ConfigKey(OBJECT))
    requires ConfigKey(OBJECT) in Objects(sto.configs) && ConfigKey(OBJECT) != ""
    requires OccupiedIn(sto.apps, [key], OccupiedVersions(node)) == map[]
    requires ObsoleteIn(sto.apps, [key], OccupiedVersions(node)) == map[sto.apps[key].name := sto.apps[key]]
    ensures ConfigKey(OBJECT) in PassDels(sto, node, [key], [])
  {
  }

  lemma {:induction false} SupersededVersions(node: NodeShadow)
    requires node == NodeShadow([AppInfo("a", "1")], [], [AppInfo("a", "2")], [], [])
    ensures OccupiedVersions(node) == map["a" := "2"]
  {
    assert Infos(node) == [AppInfo("a", "1"), AppInfo("a", "2")];
    WantedOfTwo(AppInfo("a", "1"), AppInfo("a", "2"));
  }

  /** One version per application name, desire over report (engine/clean.go:86-94): while version 1 still runs
      and version 2 is desired, version 1 counts as obsolete and its configuration is deleted. */
  lemma {:induction false} RunningVersionLosesConfig(sto: Store, node: NodeShadow)
    requires var a := MountingApp("a", "1", true, CFG);
             sto == Store(map[AppKey(a) := a], map[ConfigKey(OBJECT) := OBJECT], map[])
    requires node == NodeShadow([AppInfo("a", "1")], [], [AppInfo("a", "2")], [], [])
    ensures var a := MountingApp("a", "1", true, CFG);
            && Complete(sto, [AppKey(a)]) && AppInfo(a.name, a.version) in node.reportApps && Mounts(a, CFG)
            && OccupiedIn(sto.apps, [AppKey(a)], OccupiedVersions(node)) == map[]
            && RefKey(CONFIGURATION, CFG) in PassDels(sto, node, [AppKey(a)], [])
  {
    var a := MountingApp("a", "1", true, CFG);
    MountingAppMounts("a", "1", true, CFG);
    ObjectIsStored(sto.configs);
    SupersededVersions(node);
    assert !IsOccupied(a, OccupiedVersions(node));
    ScanOfOne(sto.apps, AppKey(a), OccupiedVersions(node));
    DeletesObsolete(sto, node, AppKey(a));
  }
}
