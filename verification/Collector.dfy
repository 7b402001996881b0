/** One pass of the garbage collector over the store and the object directory tree
    (engine/clean.go cleanObjectStorage and recycle). */
module Collector {
  import opened Model
  import opened Keys
  import opened Storage
  import opened AppLists
  import opened Reconcile
  import opened Garbage

  // directory name to the names of its entries, one per version
  type Tree = map<string, set<string>>

  // Which store and file operations succeed: deleting a record, reading a directory, removing a
  // version directory and removing a whole directory. A failed removal leaves the directory there.
  datatype Disk = Disk(deleteOk: string -> bool, readOk: string -> bool, removeOk: (string, string) -> bool,
                       removeAllOk: string -> bool)

  // later entries win: desire over report, system over user
  function Infos(node: NodeShadow): seq<AppInfo> {
    node.reportApps + node.desireApps + node.reportSysApps + node.desireSysApps
  }

  function OccupiedVersions(node: NodeShadow): map<string, string> {
    Wanted(Infos(node))
  }

  predicate IsOccupied(app: Application, versions: map<string, string>) {
    app.name in versions && versions[app.name] == app.version
  }

  // the applications a scan of the store visits, split as the scan callback does
  function OccupiedIn(apps: map<string, Application>, scan: seq<string>,
                      versions: map<string, string>): map<string, Application>
    requires forall i :: 0 <= i < |scan| ==> scan[i] in apps
  {
    if scan == [] then map[]
    else
      var before, app := OccupiedIn(apps, scan[..|scan| - 1], versions), apps[scan[|scan| - 1]];
      if IsOccupied(app, versions) then before[app.name := app] else before
  }

  function ObsoleteIn(apps: map<string, Application>, scan: seq<string>,
                      versions: map<string, string>): map<string, Application>
    requires forall i :: 0 <= i < |scan| ==> scan[i] in apps
  {
    if scan == [] then map[]
    else
      var before, app := ObsoleteIn(apps, scan[..|scan| - 1], versions), apps[scan[|scan| - 1]];
      if !IsOccupied(app, versions) && (app.name !in before || app.updateTime > before[app.name].updateTime)
      then before[app.name := app] else before
  }

  ghost function FinishedSet(apps: map<string, Application>, stats: seq<AppStats>): set<string> {
    set n | n in JobNames(apps) && Finished(apps, stats, n)
  }

  function Objects(configs: map<string, Configuration>): map<string, Configuration> {
    map k | k in configs && IsObjectConfig(configs[k]) :: configs[k]
  }

  function UsedKeys(used: map<string, string>): set<string> {
    set n | n in used :: MakeKey(CONFIGURATION, n, used[n])
  }

  /** What a pass deletes, for the order in which the occupied applications are visited. */
  ghost function PassDels(sto: Store, node: NodeShadow, scan: seq<string>,
                          order: seq<string>): map<string, Configuration>
    requires forall i :: 0 <= i < |scan| ==> scan[i] in sto.apps
    requires IsOrder(order, OccupiedIn(sto.apps, scan, OccupiedVersions(node)).Keys)
  {
    var versions := OccupiedVersions(node);
    var occupied := OccupiedIn(sto.apps, scan, versions);
    var finished := FinishedSet(occupied, node.appStats);
    Dels(occupied, ObsoleteIn(sto.apps, scan, versions),
         Objects(sto.configs) - UsedKeys(Used(occupied, finished, order)), finished)
  }

  function RemoveOne(tree: Tree, cfg: Configuration, disk: Disk): Tree {
    if cfg.name !in tree || !disk.readOk(cfg.name) then tree
    else
      var subs := tree[cfg.name];
      var less := if disk.removeOk(cfg.name, cfg.version) then tree[cfg.name := subs - {cfg.version}] else tree;
      if subs == {cfg.version} && disk.removeAllOk(cfg.name) then less - {cfg.name} else less
  }

  function RemoveFiles(tree: Tree, dels: map<string, Configuration>, visit: seq<string>, disk: Disk): Tree
    requires forall i :: 0 <= i < |visit| ==> visit[i] in dels
  {
    if visit == [] then tree
    else RemoveOne(RemoveFiles(tree, dels, visit[..|visit| - 1], disk), dels[visit[|visit| - 1]], disk)
  }

  lemma {:induction false} DeleteStep(tree: Tree, configs: map<string, Configuration>,
                                      dels: map<string, Configuration>, visit: seq<string>, rest: set<string>,
                                      k: string, disk: Disk)
    requires k in rest && rest <= dels.Keys && IsOrder(visit, dels.Keys - rest)
    ensures IsOrder(visit + [k], dels.Keys - (rest - {k}))
    ensures RemoveFiles(tree, dels, visit + [k], disk) == RemoveOne(RemoveFiles(tree, dels, visit, disk), dels[k], disk)
    ensures configs - Deleted(dels.Keys - rest, disk) - Deleted({k}, disk) ==
        configs - Deleted(dels.Keys - (rest - {k}), disk)
  {
    ExtendOrder(visit, dels.Keys - rest, k);
    assert dels.Keys - (rest - {k}) == dels.Keys - rest + {k};
    assert (visit + [k])[..|visit|] == visit;
    assert Deleted(dels.Keys - (rest - {k}), disk) == Deleted(dels.Keys - rest, disk) + Deleted({k}, disk);
  }

  function Deleted(keys: set<string>, disk: Disk): set<string> {
    set k | k in keys && disk.deleteOk(k)
  }

  // names whose whole directory recycle removes
  function RemovedDirs(dels: map<string, Configuration>, keys: set<string>, disk: Disk): set<string> {
    set k | k in keys && k in dels && disk.removeAllOk(dels[k].name) :: dels[k].name
  }

  lemma {:induction false} DirsMore(dels: map<string, Configuration>, keys: set<string>, k: string, disk: Disk)
    requires k in dels
    ensures RemovedDirs(dels, keys + {k}, disk) ==
            RemovedDirs(dels, keys, disk) + if disk.removeAllOk(dels[k].name) then {dels[k].name} else {}
  {
  }

  // recycle looks up every listed application
  function RecycleInfos(node: NodeShadow): seq<AppInfo> {
    node.reportApps + node.reportSysApps + node.desireApps + node.desireSysApps
  }

  function VolumeKeys(volumes: seq<Volume>): (s: set<string>)
    ensures forall k :: k in s <==> exists i :: 0 <= i < |volumes| && volumes[i].config.Some? &&
                                          RefKey(CONFIGURATION, volumes[i].config.value) == k
  {
    set i | 0 <= i < |volumes| && volumes[i].config.Some? :: RefKey(CONFIGURATION, volumes[i].config.value)
  }

  // keys of the configurations some volume of a listed application names
  function ReferencedKeys(sto: Store, infos: seq<AppInfo>): set<string>
    requires AllStored(sto, infos)
  {
    if infos == [] then {}
    else ReferencedKeys(sto, infos[..|infos| - 1]) + VolumeKeys(sto.apps[InfoKey(infos[|infos| - 1])].volumes)
  }

  class Engine {
    var sto: Store
    var tree: Tree

    constructor (sto: Store, tree: Tree)
      ensures this.sto == sto && this.tree == tree
    {
      this.sto, this.tree := sto, tree;
    }

    /** scan lists the keys of the application bucket the second ForEach visits; when that ForEach fails
        part way, its error is not looked at and scan is what was visited before. */
    method CleanObjectStorage(node: Option<NodeShadow>, listOk: bool, scan: seq<string>, disk: Disk)
      returns (n: int, ok: bool, ghost order: seq<string>, ghost visit: seq<string>)
      requires WellKeyed(sto) && forall i :: 0 <= i < |scan| ==> scan[i] in sto.apps
      modifies this
      ensures WellKeyed(sto)
      ensures ok <==> node.Some? && listOk
      ensures !ok ==> n == 0 && sto == old(sto) && tree == old(tree)
      ensures ok ==>
                && IsOrder(order, OccupiedIn(old(sto).apps, scan, OccupiedVersions(node.value)).Keys)
                && var dels := PassDels(old(sto), node.value, scan, order);
                && n == |dels| && IsOrder(visit, dels.Keys)
                && sto == old(sto).(configs := old(sto).configs - Deleted(dels.Keys, disk))
                && tree == RemoveFiles(old(tree), dels, visit, disk)
                && forall k :: k in sto.configs <==> k in old(sto).configs && !(k in dels && disk.deleteOk(k))
    {
      n, order, visit := 0, [], [];
      if node.None? || !listOk {
        return 0, false, order, visit;
      }
      var objects := ListObjects();
      var versions := IndexInfos(node.value);
      var occupied, obsolete := ScanApps(scan, versions);
      var finished := GetFinishedJobs(occupied, node.value.appStats);
      assert finished == FinishedSet(occupied, node.value.appStats);
      var used := GetUsedObjectCfgs(occupied, finished);
      order :| IsOrder(order, occupied.Keys) && used == Used(occupied, finished, order);
      objects := DropUsed(objects, used);
      var dels := GetDelObjectCfgs(occupied, obsolete, objects, finished);
      visit := DeleteAll(dels, disk);
      n := |dels|;
      ok := true;
    }

    method ListObjects() returns (objects: map<string, Configuration>)
      requires WellKeyed(sto)
      ensures objects == Objects(sto.configs)
    {
      objects := map[];
      var rest := sto.configs.Keys;
      while rest != {}
        invariant rest <= sto.configs.Keys
        invariant objects == map k | k in sto.configs.Keys - rest && IsObjectConfig(sto.configs[k]) :: sto.configs[k]
      {
        var k := Pick(rest);
        rest := rest - {k};
        var cfg := sto.configs[k];
        if IsObjectConfig(cfg) {
          var key := MakeKey(CONFIGURATION, cfg.name, cfg.version);
          if key != "" {
            objects := objects[key := cfg];
          }
        }
      }
    }

    method ScanApps(scan: seq<string>, versions: map<string, string>)
      returns (occupied: map<string, Application>, obsolete: map<string, Application>)
      requires forall i :: 0 <= i < |scan| ==> scan[i] in sto.apps
      ensures occupied == OccupiedIn(sto.apps, scan, versions) && obsolete == ObsoleteIn(sto.apps, scan, versions)
    {
      occupied, obsolete := map[], map[];
      for i := 0 to |scan|
        invariant occupied == OccupiedIn(sto.apps, scan[..i], versions)
        invariant obsolete == ObsoleteIn(sto.apps, scan[..i], versions)
      {
        assert scan[..i + 1][..i] == scan[..i];
        var app := sto.apps[scan[i]];
        if app.name in versions && versions[app.name] == app.version {
          occupied := occupied[app.name := app];
          continue;
        }
        if app.name !in obsolete || app.updateTime > obsolete[app.name].updateTime {
          obsolete := obsolete[app.name := app];
        }
      }
      assert scan[..|scan|] == scan;
    }

    // the loop over what is to be deleted, in any order
    method DeleteAll(dels: map<string, Configuration>, disk: Disk) returns (ghost visit: seq<string>)
      modifies this
      ensures IsOrder(visit, dels.Keys)
      ensures sto == old(sto).(configs := old(sto).configs - Deleted(dels.Keys, disk))
      ensures tree == RemoveFiles(old(tree), dels, visit, disk)
    {
      visit := [];
      var rest := dels.Keys;
      while rest != {}
        invariant rest <= dels.Keys && IsOrder(visit, dels.Keys - rest)
        invariant sto == old(sto).(configs := old(sto).configs - Deleted(dels.Keys - rest, disk))
        invariant tree == RemoveFiles(old(tree), dels, visit, disk)
      {
        var k := Pick(rest);
        DeleteStep(old(tree), old(sto).configs, dels, visit, rest, k, disk);
        visit := visit + [k];
        rest := rest - {k};
        DeleteOne(k, dels[k], disk);
      }
      assert dels.Keys - rest == dels.Keys;
    }

    method DeleteOne(k: string, cfg: Configuration, disk: Disk)
      modifies this
      ensures sto == old(sto).(configs := old(sto).configs - Deleted({k}, disk))
      ensures tree == RemoveOne(old(tree), cfg, disk)
    {
      if disk.deleteOk(k) {
        sto := sto.(configs := sto.configs - {k});
      }
      RemoveVersion(cfg, disk);
    }

    method RemoveVersion(cfg: Configuration, disk: Disk)
      modifies this`tree
      ensures tree == RemoveOne(old(tree), cfg, disk)
      ensures cfg.name !in old(tree) || !disk.readOk(cfg.name) ==> tree == old(tree)
      ensures forall d :: d != cfg.name ==> (d in tree <==> d in old(tree)) && (d in tree ==> tree[d] == old(tree)[d])
      ensures cfg.name in old(tree) && disk.readOk(cfg.name) ==>
                && (cfg.name !in tree <==> old(tree)[cfg.name] == {cfg.version} && disk.removeAllOk(cfg.name))
                && (cfg.name in tree ==>
                      tree[cfg.name] == old(tree)[cfg.name] - if disk.removeOk(cfg.name, cfg.version) then {cfg.version}
                                                              else {})
    {
      if cfg.name !in tree || !disk.readOk(cfg.name) {
        return;
      }
      var subs := tree[cfg.name];
      if disk.removeOk(cfg.name, cfg.version) {
        tree := tree[cfg.name := subs - {cfg.version}];
      }
      if subs == {cfg.version} {
        if disk.removeAllOk(cfg.name) {
          tree := tree - {cfg.name};
        }
      }
    }

    method Recycle(node: Option<NodeShadow>, listOk: bool, disk: Disk) returns (ok: bool)
      requires WellKeyed(sto)
      modifies this
      ensures WellKeyed(sto)
      ensures ok <==> node.Some? && listOk && AllStored(old(sto), RecycleInfos(node.value))
      ensures ok <==> node.Some? && listOk && forall info ::
                (info in node.value.reportApps || info in node.value.reportSysApps || info in node.value.desireApps ||
                 info in node.value.desireSysApps) ==> MakeKey("application", info.name, info.version) in old(sto).apps
      ensures !ok ==> sto == old(sto) && tree == old(tree)
      ensures ok ==>
                var dels := Objects(old(sto).configs) - ReferencedKeys(old(sto), RecycleInfos(node.value));
                && sto == old(sto).(configs := old(sto).configs - Deleted(dels.Keys, disk))
                && tree == old(tree) - RemovedDirs(dels, dels.Keys, disk)
                && (forall k :: k in sto.configs <==> k in old(sto).configs && !(k in dels && disk.deleteOk(k)))
                && (forall d :: d in tree <==>
                      d in old(tree) && !exists k :: k in dels && dels[k].name == d && disk.removeAllOk(d))
    {
      if node.None? {
        return false;
      }
      assert forall info :: info in RecycleInfos(node.value) <==>
          info in node.value.reportApps || info in node.value.reportSysApps || info in node.value.desireApps ||
          info in node.value.desireSysApps;
      var found, used := CollectReferenced(RecycleInfos(node.value));
      if !found || !listOk {
        return false;
      }
      var objects := ListObjects();
      RecycleAll(objects - used, disk);
      ok := true;
    }

    // removes each record and the whole directory of its name
    method RecycleAll(dels: map<string, Configuration>, disk: Disk)
      modifies this
      ensures sto == old(sto).(configs := old(sto).configs - Deleted(dels.Keys, disk))
      ensures tree == old(tree) - RemovedDirs(dels, dels.Keys, disk)
    {
      var rest := dels.Keys;
      while rest != {}
        invariant rest <= dels.Keys
        invariant sto == old(sto).(configs := old(sto).configs - Deleted(dels.Keys - rest, disk))
        invariant tree == old(tree) - RemovedDirs(dels, dels.Keys - rest, disk)
      {
        var k := Pick(rest);
        assert dels.Keys - (rest - {k}) == dels.Keys - rest + {k};
        DirsMore(dels, dels.Keys - rest, k, disk);
        assert Deleted(dels.Keys - rest + {k}, disk) == Deleted(dels.Keys - rest, disk) + Deleted({k}, disk);
        rest := rest - {k};
        RecycleOne(k, dels[k].name, disk);
      }
      assert dels.Keys - rest == dels.Keys;
    }

    method RecycleOne(k: string, dir: string, disk: Disk)
      modifies this
      ensures sto == old(sto).(configs := old(sto).configs - Deleted({k}, disk))
      ensures tree == old(tree) - if disk.removeAllOk(dir) then {dir} else {}
    {
      if disk.deleteOk(k) {
        sto := sto.(configs := sto.configs - {k});
      }
      if disk.removeAllOk(dir) {
        tree := tree - {dir};
      }
    }

    method CollectReferenced(infos: seq<AppInfo>) returns (found: bool, used: set<string>)
      ensures found <==> AllStored(sto, infos)
      ensures found ==> used == ReferencedKeys(sto, infos)
    {
      used := {};
      for i := 0 to |infos|
        invariant AllStored(sto, infos[..i])
        invariant used == ReferencedKeys(sto, infos[..i])
      {
        if InfoKey(infos[i]) !in sto.apps {
          return false, {};
        }
        ReferencedGrow(sto, infos, i);
        var more := CollectKeys(sto.apps[InfoKey(infos[i])].volumes);
        used := used + more;
      }
      assert infos[..|infos|] == infos;
      found := true;
    }
  }

  predicate AllStored(sto: Store, infos: seq<AppInfo>) {
    forall i :: 0 <= i < |infos| ==> InfoKey(infos[i]) in sto.apps
  }

  lemma {:induction false} ReferencedGrow(sto: Store, infos: seq<AppInfo>, i: nat)
    requires i < |infos| && AllStored(sto, infos[..i]) && InfoKey(infos[i]) in sto.apps
    ensures AllStored(sto, infos[..i + 1])
    ensures ReferencedKeys(sto, infos[..i + 1]) ==
        ReferencedKeys(sto, infos[..i]) + VolumeKeys(sto.apps[InfoKey(infos[i])].volumes)
  {
    var longer := infos[..i + 1];
    assert longer == infos[..i] + [infos[i]];
    assert longer[..|longer| - 1] == infos[..i];
  }

  method CollectKeys(volumes: seq<Volume>) returns (keys: set<string>)
    ensures keys == VolumeKeys(volumes)
  {
    keys := {};
    for i := 0 to |volumes|
      invariant keys == VolumeKeys(volumes[..i])
    {
      ghost var front, longer := volumes[..i], volumes[..i + 1];
      assert longer == front + [volumes[i]];
      assert forall j :: 0 <= j < i ==> longer[j] == front[j];
      assert longer[i] == volumes[i];
      if volumes[i].config.Some? {
        keys := keys + {RefKey(CONFIGURATION, volumes[i].config.value)};
      }
    }
    assert volumes[..|volumes|] == volumes;
  }

  method IndexInfos(node: NodeShadow) returns (versions: map<string, string>)
    ensures versions == OccupiedVersions(node)
  {
    var infos := node.reportApps;
    infos := infos + node.desireApps;
    infos := infos + node.reportSysApps;
    infos := infos + node.desireSysApps;
    versions := IndexVersions(infos);
  }

  method IndexVersions(infos: seq<AppInfo>) returns (versions: map<string, string>)
    ensures versions == Wanted(infos)
  {
    versions := map[];
    for i := 0 to |infos|
      invariant versions == Wanted(infos[..i])
    {
      WantedGrows(infos, i);
      versions := versions[infos[i].name := infos[i].version];
    }
    assert infos[..|infos|] == infos;
  }

  lemma {:induction false} WantedGrows(infos: seq<AppInfo>, i: nat)
    requires i < |infos|
    ensures Wanted(infos[..i + 1]) == Wanted(infos[..i])[infos[i].name := infos[i].version]
  {
    var longer := infos[..i + 1];
    assert longer[..|longer| - 1] == infos[..i] && longer[|longer| - 1] == infos[i];
    assert ByName(longer) == ByName(infos[..i])[infos[i].name := infos[i]];
  }

  method DropUsed(objects0: map<string, Configuration>, used: map<string, string>)
    returns (objects: map<string, Configuration>)
    requires "" !in objects0
    ensures objects == objects0 - UsedKeys(used)
  {
    objects := objects0;
    var rest := used.Keys;
    while rest != {}
      invariant rest <= used.Keys
      invariant objects == objects0 - set n | n in used.Keys - rest :: MakeKey(CONFIGURATION, n, used[n])
    {
      var n := Pick(rest);
      rest := rest - {n};
      var key := MakeKey(CONFIGURATION, n, used[n]);
      if key in objects && key != "" {
        objects := objects - {key};
      }
    }
    assert used.Keys - rest == used.Keys;
  }
}
