/** The directory tree after a pass does not depend on the order of the deletions; what a recycle keeps. */
module GarbageFiles {
  import opened Model
  import opened Keys
  import opened Garbage
  import opened Storage
  import opened Collector

  // versions of name n among the deleted configurations visited
  function GoneOf(dels: map<string, Configuration>, visit: seq<string>, n: string): (s: set<string>)
    requires forall i :: 0 <= i < |visit| ==> visit[i] in dels
  {
    set i | 0 <= i < |visit| && dels[visit[i]].name == n :: dels[visit[i]].version
  }

  predicate HasDir(tree: Tree, n: string, v: string) {
    n in tree && v in tree[n]
  }

  /** The directory name/version of a configuration that is not deleted survives, for any order of the
      deletions and whichever file operations fail. */
  lemma {:induction false} OtherVersionsSurvive(tree: Tree, dels: map<string, Configuration>, visit: seq<string>,
                                                disk: Disk, n: string, v: string)
    requires forall i :: 0 <= i < |visit| ==> visit[i] in dels
    requires HasDir(tree, n, v) && forall k :: k in dels ==> !(dels[k].name == n && dels[k].version == v)
    ensures HasDir(RemoveFiles(tree, dels, visit, disk), n, v)
  {
    if visit != [] {
      OtherVersionsSurvive(tree, dels, visit[..|visit| - 1], disk, n, v);
    }
  }

  // no file operation fails
  ghost predicate Sound(disk: Disk) {
    && (forall n :: disk.readOk(n)) && (forall n :: disk.removeAllOk(n))
    && (forall n, v :: disk.removeOk(n, v))
  }

  // what is left of one name directory when the given versions are gone
  predicate EmptiedBy(subs: set<string>, gone: set<string>) {
    subs != {} && subs <= gone
  }

  lemma {:induction false} TreeAfter(tree: Tree, dels: map<string, Configuration>, visit: seq<string>, disk: Disk,
                                     n: string)
    requires forall i :: 0 <= i < |visit| ==> visit[i] in dels
    requires Sound(disk)
    ensures var after, gone := RemoveFiles(tree, dels, visit, disk), GoneOf(dels, visit, n);
            && (n in after <==> n in tree && !EmptiedBy(tree[n], gone))
            && (n in after ==> after[n] == tree[n] - gone)
  {
    if visit != [] {
      var front, cfg := visit[..|visit| - 1], dels[visit[|visit| - 1]];
      TreeAfter(tree, dels, front, disk, n);
      var before, gone := RemoveFiles(tree, dels, front, disk), GoneOf(dels, front, n);
      assert GoneOf(dels, visit, n) == gone + if cfg.name == n then {cfg.version} else {};
      if cfg.name == n && n in before {
        EmptiesStep(tree[n], gone, cfg.version);
      }
    }
  }

  lemma {:induction false} EmptiesStep(subs: set<string>, gone: set<string>, v: string)
    requires !EmptiedBy(subs, gone)
    ensures subs - gone == {v} <==> EmptiedBy(subs, gone + {v})
    ensures subs - gone - {v} == subs - (gone + {v})
  {
  }

  /** Without failures the tree after a pass is the same for every order: each name loses the deleted
      versions, and a name whose entries were all deleted versions is gone. */
  lemma {:induction false} OrderIndependent(tree: Tree, dels: map<string, Configuration>, visit1: seq<string>,
                                            visit2: seq<string>, disk: Disk)
    requires IsOrder(visit1, dels.Keys) && IsOrder(visit2, dels.Keys) && Sound(disk)
    ensures RemoveFiles(tree, dels, visit1, disk) == RemoveFiles(tree, dels, visit2, disk)
  {
    forall n
      ensures var t1, t2 := RemoveFiles(tree, dels, visit1, disk), RemoveFiles(tree, dels, visit2, disk);
              (n in t1 <==> n in t2) && (n in t1 ==> t1[n] == t2[n])
    {
      TreeAfter(tree, dels, visit1, disk, n);
      TreeAfter(tree, dels, visit2, disk, n);
      GoneOfOrder(dels, visit1, n);
      GoneOfOrder(dels, visit2, n);
    }
  }

  function VersionsOf(dels: map<string, Configuration>, n: string): set<string> {
    set k | k in dels && dels[k].name == n :: dels[k].version
  }

  lemma {:induction false} GoneOfOrder(dels: map<string, Configuration>, visit: seq<string>, n: string)
    requires IsOrder(visit, dels.Keys)
    ensures GoneOf(dels, visit, n) == VersionsOf(dels, n)
  {
  }

  /** A name directory disappears exactly when it had entries and all of them are deleted versions. */
  lemma {:induction false} DirectoryGoneExactly(tree: Tree, dels: map<string, Configuration>, visit: seq<string>,
                                                disk: Disk, n: string)
    requires IsOrder(visit, dels.Keys) && Sound(disk) && n in tree
    ensures n !in RemoveFiles(tree, dels, visit, disk) <==> tree[n] != {} && tree[n] <= VersionsOf(dels, n)
  {
    TreeAfter(tree, dels, visit, disk, n);
    GoneOfOrder(dels, visit, n);
  }

  // some volume of a listed application names the configuration under key
  predicate Referenced(sto: Store, infos: seq<AppInfo>, key: string)
    requires AllStored(sto, infos)
  {
    exists i :: 0 <= i < |infos| && key in VolumeKeys(sto.apps[InfoKey(infos[i])].volumes)
  }

  lemma {:induction false} ReferencedExactly(sto: Store, infos: seq<AppInfo>, key: string)
    requires AllStored(sto, infos)
    ensures key in ReferencedKeys(sto, infos) <==> Referenced(sto, infos, key)
  {
    if infos != [] {
      var front, last := infos[..|infos| - 1], infos[|infos| - 1];
      ReferencedExactly(sto, front, key);
      assert infos == front + [last];
      if Referenced(sto, front, key) {
        var i :| 0 <= i < |front| && key in VolumeKeys(sto.apps[InfoKey(front[i])].volumes);
        assert infos[i] == front[i];
      }
      if key in VolumeKeys(sto.apps[InfoKey(last)].volumes) {
        assert infos[|front|] == last;
      }
    }
  }

  // some volume of the application listed as info names the configuration under key
  predicate NamedBy(sto: Store, info: AppInfo, key: string)
    requires MakeKey("application", info.name, info.version) in sto.apps
  {
    var volumes := sto.apps[MakeKey("application", info.name, info.version)].volumes;
    exists i :: 0 <= i < |volumes| && volumes[i].config.Some? &&
                MakeKey("configuration", volumes[i].config.value.name, volumes[i].config.value.version) == key
  }

  /** What a recycle takes: the object configurations that no application of any of the four lists names. */
  lemma {:induction false} RecycledExactly(sto: Store, node: NodeShadow, key: string)
    requires AllStored(sto, RecycleInfos(node))
    ensures forall info :: (info in node.reportApps || info in node.reportSysApps || info in node.desireApps ||
                            info in node.desireSysApps) ==>
                             MakeKey("application", info.name, info.version) in sto.apps
    ensures key in Objects(sto.configs) - ReferencedKeys(sto, RecycleInfos(node)) <==>
            && key in sto.configs && (exists o :: o in sto.configs[key].data && "_object_" <= o)
            && (forall info :: info in node.reportApps ==> !NamedBy(sto, info, key))
            && (forall info :: info in node.reportSysApps ==> !NamedBy(sto, info, key))
            && (forall info :: info in node.desireApps ==> !NamedBy(sto, info, key))
            && (forall info :: info in node.desireSysApps ==> !NamedBy(sto, info, key))
  {
    var infos := RecycleInfos(node);
    assert forall info :: info in infos <==> info in node.reportApps || info in node.reportSysApps ||
                                             info in node.desireApps || info in node.desireSysApps;
    ReferencedExactly(sto, infos, key);
    assert Referenced(sto, infos, key) <==> exists info :: info in infos && NamedBy(sto, info, key) by {
      if i :| 0 <= i < |infos| && key in VolumeKeys(sto.apps[InfoKey(infos[i])].volumes) {
        assert infos[i] in infos && NamedBy(sto, infos[i], key);
      }
      if info :| info in infos && NamedBy(sto, info, key) {
        var i :| 0 <= i < |infos| && infos[i] == info;
        assert key in VolumeKeys(sto.apps[InfoKey(infos[i])].volumes);
      }
    }
    assert key in sto.configs ==>
        (key in Objects(sto.configs) <==> exists o :: o in sto.configs[key].data && "_object_" <= o);
  }

  /** A recycle without store errors keeps exactly the configurations that hold no object or that some
      reported or desired application references. */
  lemma {:induction false} RecycleKeepsExactly(sto: Store, infos: seq<AppInfo>, disk: Disk, key: string)
    requires AllStored(sto, infos) && forall k :: disk.deleteOk(k)
    ensures var dels := Objects(sto.configs) - ReferencedKeys(sto, infos);
            key in sto.configs - Deleted(dels.Keys, disk) <==>
            key in sto.configs && (!IsObjectConfig(sto.configs[key]) || Referenced(sto, infos, key))
  {
    ReferencedExactly(sto, infos, key);
  }

  /** recycle removes whole name directories (engine/clean.go:58-59): the files of a kept configuration
      survive it exactly when no unreferenced object configuration of the same name exists. */
  lemma {:induction false} RecycleFilesExactly(sto: Store, infos: seq<AppInfo>, tree: Tree, disk: Disk, n: string,
                                               v: string)
    requires AllStored(sto, infos) && Sound(disk) && HasDir(tree, n, v)
    ensures var dels := Objects(sto.configs) - ReferencedKeys(sto, infos);
            HasDir(tree - RemovedDirs(dels, dels.Keys, disk), n, v) <==>
            !exists k :: k in sto.configs && IsObjectConfig(sto.configs[k]) && sto.configs[k].name == n &&
                         !Referenced(sto, infos, k)
  {
    var dels := Objects(sto.configs) - ReferencedKeys(sto, infos);
    forall k | k in sto.configs ensures k in dels <==> IsObjectConfig(sto.configs[k]) && !Referenced(sto, infos, k) {
      ReferencedExactly(sto, infos, k);
    }
    if k :| k in sto.configs && IsObjectConfig(sto.configs[k]) && sto.configs[k].name == n && !Referenced(sto, infos, k) {
      assert n in RemovedDirs(dels, dels.Keys, disk);
    }
  }
}
