/** Rewriting the volumes of an application before it is applied (sync/app.go PrepareApp), and what that
    means for the garbage collector. */
module Mounts {
  import opened Model
  import opened Keys
  import opened Storage
  import opened Collector
  import opened GarbageSafety
  import opened GarbageFiles
  import Sync
  import Closure

  // how a relative host path is placed under the host directory, and which directories can be made
  datatype Host = Host(under: string -> string, mkdirOk: string -> bool)

  predicate IsAbs(p: HostPath) {
    match p
    case Given(path) => path != "" && path[0] == '/'
    case ObjectDir(_, _) => true
  }

  function Prepared(v: Volume, cfgs: map<string, Configuration>, host: Host): Volume {
    if v.hostPath.Some? then
      if IsAbs(v.hostPath.value) then v else v.(hostPath := Some(Given(host.under(v.hostPath.value.path))))
    else if v.config.Some? && v.config.value.name in cfgs && IsObjectConfig(cfgs[v.config.value.name]) then
      var cfg := cfgs[v.config.value.name];
      v.(config := None, hostPath := Some(ObjectDir(cfg.name, cfg.version)))
    else v
  }

  predicate MkdirFails(v: Volume, host: Host) {
    v.hostPath.Some? && !IsAbs(v.hostPath.value) && !host.mkdirOk(host.under(v.hostPath.value.path))
  }

  /** Rewrites the volumes in place; stops at the first directory it cannot make. */
  method PrepareVolumes(volumes: array<Volume>, cfgs: map<string, Configuration>, host: Host) returns (ok: bool)
    modifies volumes
    ensures ok <==> forall i :: 0 <= i < volumes.Length ==> !MkdirFails(old(volumes[i]), host)
    ensures ok ==> forall i :: 0 <= i < volumes.Length ==> volumes[i] == Prepared(old(volumes[i]), cfgs, host)
    ensures !ok ==> exists n :: 0 <= n < volumes.Length && MkdirFails(old(volumes[n]), host) &&
                      (forall i :: 0 <= i < n ==> volumes[i] == Prepared(old(volumes[i]), cfgs, host)) &&
                      (forall i :: n <= i < volumes.Length ==> volumes[i] == old(volumes[i]))
  {
    for i := 0 to volumes.Length
      invariant forall j :: 0 <= j < i ==> !MkdirFails(old(volumes[j]), host)
      invariant forall j :: 0 <= j < i ==> volumes[j] == Prepared(old(volumes[j]), cfgs, host)
      invariant forall j :: i <= j < volumes.Length ==> volumes[j] == old(volumes[j])
    {
      if volumes[i].hostPath.Some? {
        var hp := volumes[i].hostPath.value;
        if IsAbs(hp) {
          continue;
        }
        var fullPath := host.under(hp.path);
        if !host.mkdirOk(fullPath) {
          return false;
        }
        volumes[i] := volumes[i].(hostPath := Some(Given(fullPath)));
      } else if volumes[i].config.Some? {
        var config := volumes[i].config.value;
        if config.name !in cfgs {
          continue;
        }
        RedirectVolume(volumes, i, cfgs[config.name]);
      }
    }
    ok := true;
  }

  // the loop over the keys of the configuration, in any order
  method RedirectVolume(volumes: array<Volume>, i: nat, cfg: Configuration)
    requires i < volumes.Length && volumes[i].hostPath.None?
    modifies volumes
    ensures forall j :: 0 <= j < volumes.Length && j != i ==> volumes[j] == old(volumes[j])
    ensures volumes[i] == if IsObjectConfig(cfg)
                          then old(volumes[i]).(config := None, hostPath := Some(ObjectDir(cfg.name, cfg.version)))
                          else old(volumes[i])
  {
    var rest := cfg.data.Keys;
    while rest != {}
      invariant rest <= cfg.data.Keys
      invariant forall j :: 0 <= j < volumes.Length && j != i ==> volumes[j] == old(volumes[j])
      invariant volumes[i] == if exists k :: k in cfg.data.Keys - rest && IsConfigObject(k)
                              then old(volumes[i]).(config := None, hostPath := Some(ObjectDir(cfg.name, cfg.version)))
                              else old(volumes[i])
    {
      var k := Pick(rest);
      rest := rest - {k};
      if !IsConfigObject(k) {
        continue;
      }
      if volumes[i].hostPath.None? {
        volumes[i] := volumes[i].(config := None, hostPath := Some(ObjectDir(cfg.name, cfg.version)));
      }
    }
  }

  /** A volume without a host path is redirected to an object directory exactly when the collector would treat
      its configuration as an object configuration. */
  lemma {:induction false} RedirectedExactly(v: Volume, cfgs: map<string, Configuration>, host: Host)
    requires v.hostPath.None?
    ensures Prepared(v, cfgs, host).hostPath.Some? <==>
            v.config.Some? && v.config.value.name in cfgs && IsObjectConfig(cfgs[v.config.value.name])
    ensures Prepared(v, cfgs, host).hostPath.Some? <==>
            v.config.Some? && v.config.value.name in cfgs &&
            exists k :: k in cfgs[v.config.value.name].data && "_object_" <= k
    ensures Prepared(v, cfgs, host).hostPath.Some? ==>
              var cfg := cfgs[v.config.value.name];
              Prepared(v, cfgs, host).hostPath == Some(ObjectDir(cfg.name, cfg.version)) &&
                Prepared(v, cfgs, host).config.None?
    ensures Prepared(v, cfgs, host).hostPath.None? ==> Prepared(v, cfgs, host) == v
  {
  }

  /** A volume with a host path keeps its configuration: an absolute path stays, any other, the empty one too, is
      placed under the host directory, and the rewriting stops when that directory cannot be made. */
  lemma {:induction false} HostPathExactly(v: Volume, cfgs: map<string, Configuration>, host: Host, path: string)
    ensures v.hostPath == Some(Given(path)) ==>
              if |path| > 0 && path[0] == '/' then Prepared(v, cfgs, host) == v && !MkdirFails(v, host)
              else Prepared(v, cfgs, host) ==
                   Volume(v.name, Some(Given(host.under(path))), v.config, v.secret) &&
                   (MkdirFails(v, host) <==> !host.mkdirOk(host.under(path)))
    ensures v.hostPath.None? || v.hostPath.value.ObjectDir? ==> !MkdirFails(v, host)
  {
  }

  // the volume a mount of that name gets; the last one wins
  function VolumeNamed(volumes: seq<Volume>, n: string): Option<Volume> {
    if volumes == [] then None
    else if volumes[|volumes| - 1].name == n then Some(volumes[|volumes| - 1])
    else VolumeNamed(volumes[..|volumes| - 1], n)
  }

  lemma {:induction false} NamedVolumeRefers(volumes: seq<Volume>, n: string)
    ensures VolumeNamed(volumes, n).Some? ==> VolumeNamed(volumes, n).value in volumes
    ensures VolumeNamed(volumes, n).Some? && VolumeNamed(volumes, n).value.config.Some? ==>
              n in Garbage.Refers(volumes) && Garbage.Refers(volumes)[n] == VolumeNamed(volumes, n).value.config.value
  {
    if volumes != [] {
      NamedVolumeRefers(volumes[..|volumes| - 1], n);
    }
  }

  // mount i of application a, prepared with what was looked up in loaded, is the object directory n/v
  ghost predicate MountsDirectory(app: Application, i: nat, loaded: Store, host: Host, n: string, v: string) {
    && Closure.DashFreeRefs(app.volumes)
    && WellKeyed(loaded) && Closure.DashFreeConfigs(loaded) && Closure.ResolvesAll(loaded, app.volumes)
    && i < |Garbage.MountsOf(app.services)|
    && var vol := VolumeNamed(app.volumes, Garbage.MountsOf(app.services)[i].name);
       vol.Some? && vol.value.hostPath.None? &&
         Prepared(vol.value, Closure.LoadedConfigs(loaded, app.volumes), host).hostPath == Some(ObjectDir(n, v))
  }

  /** The mounted directory is that of the last version the volumes name, whichever the mounted volume names. */
  lemma {:induction false} MountedIsLast(app: Application, i: nat, loaded: Store, host: Host, n: string, v: string)
    requires MountsDirectory(app, i, loaded, host, n, v)
    ensures n in Sync.ConfigVersions(app.volumes) && v == Sync.ConfigVersions(app.volumes)[n]
    ensures var vol := VolumeNamed(app.volumes, Garbage.MountsOf(app.services)[i].name).value;
            && vol.config.Some? && vol.config.value.name == n && Garbage.Mounts(app, vol.config.value)
            && (Closure.IsLast(app.volumes, vol) <==> vol.config.value.version == v)
  {
    var cfgs := Closure.LoadedConfigs(loaded, app.volumes);
    var vol := VolumeNamed(app.volumes, Garbage.MountsOf(app.services)[i].name).value;
    RedirectedExactly(vol, cfgs, host);
    NamedVolumeRefers(app.volumes, Garbage.MountsOf(app.services)[i].name);
    Closure.LoadedAtLast(loaded, app.volumes, vol.config.value.name);
  }

  /** The collector spares the object directory that a service of an occupied, unfinished application mounts through
      a volume at the last version named, under the one-version hypothesis, for every order and whichever file
      operations fail. */
  lemma {:induction false} MountedDirectorySurvives(sto: Store, node: Garbage.NodeShadow, scan: seq<string>,
                                                    order: seq<string>, visit: seq<string>, tree: Tree, disk: Disk,
                                                    a: string, i: nat, loaded: Store, host: Host, n: string, v: string)
    requires WellKeyed(sto) && Complete(sto, scan)
    requires IsOrder(order, OccupiedIn(sto.apps, scan, OccupiedVersions(node)).Keys)
    requires IsOrder(visit, PassDels(sto, node, scan, order).Keys)
    requires var occ := OccupiedIn(sto.apps, scan, OccupiedVersions(node));
             var finished := FinishedSet(occ, node.appStats);
             && OneVersion(occ, finished)
             && a in sto.apps && IsOccupied(sto.apps[a], OccupiedVersions(node))
             && !Garbage.IsFinished(sto.apps[a], finished)
    requires MountsDirectory(sto.apps[a], i, loaded, host, n, v)
    requires var app := sto.apps[a];
             Closure.IsLast(app.volumes, VolumeNamed(app.volumes, Garbage.MountsOf(app.services)[i].name).value)
    requires HasDir(tree, n, v)
    ensures HasDir(RemoveFiles(tree, PassDels(sto, node, scan, order), visit, disk), n, v)
  {
    MountedIsLast(sto.apps[a], i, loaded, host, n, v);
    assert Garbage.Mounts(sto.apps[a], ObjectRef(n, v));
    var dels := PassDels(sto, node, scan, order);
    MountedSurvives(sto, node, scan, order, a, ObjectRef(n, v));
    assert forall k :: k in dels ==> k == ConfigKey(dels[k]);
    OtherVersionsSurvive(tree, dels, visit, disk, n, v);
  }

  // directory n/v is still there after a pass that took these orders
  ghost predicate SparedBy(sto: Store, node: Garbage.NodeShadow, scan: seq<string>, order: seq<string>,
                           visit: seq<string>, tree: Tree, disk: Disk, n: string, v: string)
    requires forall i :: 0 <= i < |scan| ==> scan[i] in sto.apps
    requires IsOrder(order, OccupiedIn(sto.apps, scan, OccupiedVersions(node)).Keys)
    requires IsOrder(visit, PassDels(sto, node, scan, order).Keys)
  {
    HasDir(RemoveFiles(tree, PassDels(sto, node, scan, order), visit, disk), n, v)
  }

  lemma {:induction false} SparedExactly(sto: Store, node: Garbage.NodeShadow, scan: seq<string>, order: seq<string>,
                                         visit: seq<string>, tree: Tree, disk: Disk, n: string, v: string)
    requires WellKeyed(sto) && Closure.DashFreeConfigs(sto) && forall j :: 0 <= j < |scan| ==> scan[j] in sto.apps
    requires IsOrder(order, OccupiedIn(sto.apps, scan, OccupiedVersions(node)).Keys)
    requires IsOrder(visit, PassDels(sto, node, scan, order).Keys)
    requires '-' !in v && MakeKey(CONFIGURATION, n, v) != "" && Sound(disk) && HasDir(tree, n, v)
    ensures SparedBy(sto, node, scan, order, visit, tree, disk, n, v) <==>
            MakeKey(CONFIGURATION, n, v) !in PassDels(sto, node, scan, order)
  {
    var dels, key := PassDels(sto, node, scan, order), MakeKey(CONFIGURATION, n, v);
    assert forall k :: k in dels ==> k in sto.configs && dels[k] == sto.configs[k];
    if key in dels {
      Injective(CONFIGURATION, dels[key].name, dels[key].version, n, v);
      TreeAfter(tree, dels, visit, disk, n);
      GoneOfOrder(dels, visit, n);
      assert v in VersionsOf(dels, n);
    } else {
      OtherVersionsSurvive(tree, dels, visit, disk, n, v);
    }
  }

  /** Exactly when a version directory survives a pass without file errors whatever the orders, for any scan. */
  lemma {:induction false} DirectorySafeExactly(sto: Store, node: Garbage.NodeShadow, scan: seq<string>, tree: Tree,
                                                disk: Disk, n: string, v: string)
    requires WellKeyed(sto) && Closure.DashFreeConfigs(sto) && forall j :: 0 <= j < |scan| ==> scan[j] in sto.apps
    requires var occ := OccupiedIn(sto.apps, scan, OccupiedVersions(node)); DashFree(occ, FinishedSet(occ, node.appStats))
    requires '-' !in v && MakeKey(CONFIGURATION, n, v) != "" && Sound(disk) && HasDir(tree, n, v)
    ensures var occ := OccupiedIn(sto.apps, scan, OccupiedVersions(node));
            (forall order, visit | IsOrder(order, occ.Keys) && IsOrder(visit, PassDels(sto, node, scan, order).Keys) ::
               SparedBy(sto, node, scan, order, visit, tree, disk, n, v)) <==>
            MakeKey(CONFIGURATION, n, v) !in Cleanable(sto, node, scan) ||
            Unanimous(occ, FinishedSet(occ, node.appStats), n, v)
  {
    var occ := OccupiedIn(sto.apps, scan, OccupiedVersions(node));
    var key := MakeKey(CONFIGURATION, n, v);
    SafeExactly(sto, node, scan, n, v);
    if order :| IsOrder(order, occ.Keys) && key in PassDels(sto, node, scan, order) {
      var visit := SomeOrder(PassDels(sto, node, scan, order).Keys);
      SparedExactly(sto, node, scan, order, visit, tree, disk, n, v);
    } else {
      forall order, visit | IsOrder(order, occ.Keys) && IsOrder(visit, PassDels(sto, node, scan, order).Keys)
        ensures SparedBy(sto, node, scan, order, visit, tree, disk, n, v)
      {
        SparedExactly(sto, node, scan, order, visit, tree, disk, n, v);
      }
    }
  }

  /** So for the directory a service mounts, without any one-version hypothesis: it is always spared exactly when the
      last version the volumes name is not cleanable or is what every live application with that name last mounts. */
  lemma {:induction false} MountedDirectoryExactly(sto: Store, node: Garbage.NodeShadow, scan: seq<string>, tree: Tree,
                                                   disk: Disk, a: string, i: nat, loaded: Store, host: Host, n: string,
                                                   v: string)
    requires WellKeyed(sto) && Closure.DashFreeConfigs(sto) && forall j :: 0 <= j < |scan| ==> scan[j] in sto.apps
    requires var occ := OccupiedIn(sto.apps, scan, OccupiedVersions(node)); DashFree(occ, FinishedSet(occ, node.appStats))
    requires a in sto.apps && MountsDirectory(sto.apps[a], i, loaded, host, n, v)
    requires Sound(disk) && HasDir(tree, n, v)
    ensures n in Sync.ConfigVersions(sto.apps[a].volumes) && v == Sync.ConfigVersions(sto.apps[a].volumes)[n]
    ensures var occ := OccupiedIn(sto.apps, scan, OccupiedVersions(node));
            (forall order, visit | IsOrder(order, occ.Keys) && IsOrder(visit, PassDels(sto, node, scan, order).Keys) ::
               SparedBy(sto, node, scan, order, visit, tree, disk, n, v)) <==>
            MakeKey(CONFIGURATION, n, v) !in Cleanable(sto, node, scan) ||
            Unanimous(occ, FinishedSet(occ, node.appStats), n, v)
  {
    MountedIsLast(sto.apps[a], i, loaded, host, n, v);
    LastIsStored(sto.apps[a], i, loaded, host, n, v);
    DirectorySafeExactly(sto, node, scan, tree, disk, n, v);
  }

  lemma {:induction false} LastIsStored(app: Application, i: nat, loaded: Store, host: Host, n: string, v: string)
    requires MountsDirectory(app, i, loaded, host, n, v)
    ensures '-' !in v && MakeKey(CONFIGURATION, n, v) != ""
  {
    MountedIsLast(app, i, loaded, host, n, v);
    Closure.VersionsComeFrom(app.volumes, n);
  }
}
