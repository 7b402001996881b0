/** After a successful synchronization the lookups that applying an application makes cannot miss, and over
    whole runs the store stays a coherent cache of the cloud. */
module Closure {
  import opened Model
  import opened Keys
  import opened Storage
  import opened Sync

  datatype Loaded = Loaded(app: Application, cfgs: map<string, Configuration>, secs: map<string, Secret>)

  // the record a volume names is in the store
  predicate Resolves(sto: Store, v: Volume) {
    if v.config.Some? then RefKey(CONFIGURATION, v.config.value) in sto.configs
    else v.secret.Some? ==> RefKey(SECRET, v.secret.value) in sto.secrets
  }

  predicate ResolvesAll(sto: Store, volumes: seq<Volume>) {
    forall i :: 0 <= i < |volumes| ==> Resolves(sto, volumes[i])
  }

  function LoadedConfigs(sto: Store, volumes: seq<Volume>): map<string, Configuration>
    requires ResolvesAll(sto, volumes)
  {
    if volumes == [] then map[]
    else
      var before, v := LoadedConfigs(sto, volumes[..|volumes| - 1]), volumes[|volumes| - 1];
      if v.config.None? then before
      else var cfg := sto.configs[RefKey(CONFIGURATION, v.config.value)]; before[cfg.name := cfg]
  }

  function LoadedSecrets(sto: Store, volumes: seq<Volume>): map<string, Secret>
    requires ResolvesAll(sto, volumes)
  {
    if volumes == [] then map[]
    else
      var before, v := LoadedSecrets(sto, volumes[..|volumes| - 1]), volumes[|volumes| - 1];
      if v.config.Some? || v.secret.None? then before
      else var sec := sto.secrets[RefKey(SECRET, v.secret.value)]; before[sec.name := sec]
  }

  /** The lookups of applyApp, which fail exactly when a record is missing. */
  method LookupApp(sto: Store, info: AppInfo) returns (r: Option<Loaded>)
    requires WellKeyed(sto)
    ensures r.Some? <==> InfoKey(info) in sto.apps && ResolvesAll(sto, sto.apps[InfoKey(info)].volumes)
    ensures r.Some? <==> MakeKey("application", info.name, info.version) in sto.apps &&
                         forall v :: v in sto.apps[MakeKey("application", info.name, info.version)].volumes ==>
                           if v.config.Some? then
                             MakeKey("configuration", v.config.value.name, v.config.value.version) in sto.configs
                           else v.secret.Some? ==>
                             MakeKey("secret", v.secret.value.name, v.secret.value.version) in sto.secrets
    ensures r.Some? ==>
              && r.value.app == sto.apps[InfoKey(info)]
              && r.value.cfgs == LoadedConfigs(sto, r.value.app.volumes)
              && r.value.secs == LoadedSecrets(sto, r.value.app.volumes)
  {
    var key := MakeKey(APPLICATION, info.name, info.version);
    if key !in sto.apps {
      return None;
    }
    var app := sto.apps[key];
    var cfgs: map<string, Configuration> := map[];
    var secs: map<string, Secret> := map[];
    for i := 0 to |app.volumes|
      invariant ResolvesAll(sto, app.volumes[..i])
      invariant cfgs == LoadedConfigs(sto, app.volumes[..i]) && secs == LoadedSecrets(sto, app.volumes[..i])
    {
      ghost var longer := app.volumes[..i + 1];
      assert longer[..i] == app.volumes[..i] && longer[i] == app.volumes[i];
      var v := app.volumes[i];
      if v.config.Some? {
        var key := RefKey(CONFIGURATION, v.config.value);
        if key == "" || key !in sto.configs {
          assert !Resolves(sto, app.volumes[i]);
          return None;
        }
        cfgs := cfgs[sto.configs[key].name := sto.configs[key]];
      } else if v.secret.Some? {
        var key := RefKey(SECRET, v.secret.value);
        if key == "" || key !in sto.secrets {
          assert !Resolves(sto, app.volumes[i]);
          return None;
        }
        secs := secs[sto.secrets[key].name := sto.secrets[key]];
      }
    }
    assert app.volumes[..|app.volumes|] == app.volumes;
    r := Some(Loaded(app, cfgs, secs));
  }

  // versions in the cloud hold no dash, so keys do not collide
  ghost predicate DashFree(cloud: Cloud) {
    && (forall n, v :: cloud.apps(n, v).Some? ==> '-' !in v)
    && (forall n, v :: cloud.configs(n, v).Some? ==> '-' !in v)
    && (forall n, v :: cloud.secrets(n, v).Some? ==> '-' !in v)
  }

  predicate SameRefs(a: Option<ObjectRef>, b: Option<ObjectRef>) {
    a.Some? && b.Some? && a.value.name == b.value.name ==> a == b
  }

  // the secret a volume is taken to name
  function SecretOf(v: Volume): Option<ObjectRef> {
    if v.config.Some? then None else v.secret
  }

  /** Volumes name each configuration and each secret at one version. */
  predicate OneVersionEach(volumes: seq<Volume>) {
    forall i, j :: 0 <= i < |volumes| && 0 <= j < |volumes| ==>
      SameRefs(volumes[i].config, volumes[j].config) && SameRefs(SecretOf(volumes[i]), SecretOf(volumes[j]))
  }

  // the version recorded for what the volume names is the volume's own
  predicate IsLast(volumes: seq<Volume>, v: Volume) {
    if v.config.Some? then
      v.config.value.name in ConfigVersions(volumes) &&
        ConfigVersions(volumes)[v.config.value.name] == v.config.value.version
    else v.secret.Some? ==>
      v.secret.value.name in SecretVersions(volumes) &&
        SecretVersions(volumes)[v.secret.value.name] == v.secret.value.version
  }

  lemma {:induction false} VersionsComeFrom(volumes: seq<Volume>, n: string)
    ensures n in ConfigVersions(volumes) ==>
              exists i :: 0 <= i < |volumes| && volumes[i].config == Some(ObjectRef(n, ConfigVersions(volumes)[n]))
    ensures n in SecretVersions(volumes) ==>
              exists i :: 0 <= i < |volumes| && volumes[i].config.None? &&
                          volumes[i].secret == Some(ObjectRef(n, SecretVersions(volumes)[n]))
  {
    if volumes != [] {
      var front := volumes[..|volumes| - 1];
      VersionsComeFrom(front, n);
      assert forall i :: 0 <= i < |front| ==> volumes[i] == front[i];
    }
  }

  lemma {:induction false} OneVersionIsLast(volumes: seq<Volume>, i: nat)
    requires OneVersionEach(volumes) && i < |volumes|
    ensures IsLast(volumes, volumes[i])
  {
    var v := volumes[i];
    if v.config.Some? {
      VersionsNamed(volumes, v.config.value.name);
      VersionsComeFrom(volumes, v.config.value.name);
    } else if v.secret.Some? {
      VersionsNamed(volumes, v.secret.value.name);
      VersionsComeFrom(volumes, v.secret.value.name);
    }
  }

  /** The stored application is the cloud's, even when the store held it before. */
  lemma {:induction false} StoredIsCloud(cloud: Cloud, before: Store, after: Store, info: AppInfo, platform: string)
    requires WellNamed(cloud) && DashFree(cloud) && Mirrors(before, cloud, platform)
    requires Synced(cloud, before, after, info, platform, true)
    ensures InfoKey(info) in after.apps && Some(after.apps[InfoKey(info)]) == cloud.apps(info.name, info.version)
  {
    var rec := after.apps[InfoKey(info)];
    Injective(APPLICATION, rec.name, rec.version, info.name, info.version);
  }

  /** Referential closure: a successful synchronization of an application that names each record at one
      version leaves every lookup successful, from any mirror, however much of it was collected before. */
  lemma {:induction false} Closed(cloud: Cloud, before: Store, after: Store, info: AppInfo, platform: string)
    requires WellNamed(cloud) && DashFree(cloud) && Mirrors(before, cloud, platform)
    requires Synced(cloud, before, after, info, platform, true)
    requires OneVersionEach(cloud.apps(info.name, info.version).value.volumes)
    ensures InfoKey(info) in after.apps && Some(after.apps[InfoKey(info)]) == cloud.apps(info.name, info.version)
    ensures ResolvesAll(after, after.apps[InfoKey(info)].volumes)
  {
    StoredIsCloud(cloud, before, after, info, platform);
    var volumes := after.apps[InfoKey(info)].volumes;
    forall i | 0 <= i < |volumes| ensures Resolves(after, volumes[i]) {
      OneVersionIsLast(volumes, i);
      LastResolves(after, volumes, volumes[i]);
    }
  }

  lemma {:induction false} LastResolves(sto: Store, volumes: seq<Volume>, v: Volume)
    requires VersionKeys(CONFIGURATION, ConfigVersions(volumes)) <= sto.configs.Keys
    requires VersionKeys(SECRET, SecretVersions(volumes)) <= sto.secrets.Keys
    requires IsLast(volumes, v)
    ensures Resolves(sto, v)
  {
  }

  predicate DashFreeRefs(volumes: seq<Volume>) {
    forall i :: 0 <= i < |volumes| ==>
      (volumes[i].config.Some? ==> '-' !in volumes[i].config.value.version) &&
      (volumes[i].secret.Some? ==> '-' !in volumes[i].secret.value.version)
  }

  lemma {:induction false} KeyIsLast(kind: string, versions: map<string, string>, ref: ObjectRef)
    requires '-' !in ref.version && forall n :: n in versions ==> '-' !in versions[n]
    requires RefKey(kind, ref) != ""
    ensures RefKey(kind, ref) in VersionKeys(kind, versions) <==>
        ref.name in versions && versions[ref.name] == ref.version
  {
    if RefKey(kind, ref) in VersionKeys(kind, versions) {
      var n :| n in versions && MakeKey(kind, n, versions[n]) == RefKey(kind, ref);
      Injective(kind, n, versions[n], ref.name, ref.version);
    }
  }

  // the key of what the volume names is the key of some last version named
  predicate AtLastKey(volumes: seq<Volume>, v: Volume) {
    if v.config.Some? then RefKey(CONFIGURATION, v.config.value) in VersionKeys(CONFIGURATION, ConfigVersions(volumes))
    else v.secret.Some? ==> RefKey(SECRET, v.secret.value) in VersionKeys(SECRET, SecretVersions(volumes))
  }

  lemma {:induction false} ResolvesMore(before: Store, after: Store, volumes: seq<Volume>, v: Volume)
    requires after.configs.Keys == before.configs.Keys + VersionKeys(CONFIGURATION, ConfigVersions(volumes))
    requires after.secrets.Keys == before.secrets.Keys + VersionKeys(SECRET, SecretVersions(volumes))
    ensures Resolves(after, v) <==> Resolves(before, v) || AtLastKey(volumes, v)
  {
  }

  /** Exactly when the lookups succeed: each volume's record was there before or is at the key of a last version the
      application names, which for versions without a dash means that it is that version. */
  lemma {:induction false} ClosedExactly(cloud: Cloud, before: Store, after: Store, info: AppInfo, platform: string)
    requires WellNamed(cloud) && DashFree(cloud) && Mirrors(before, cloud, platform)
    requires Synced(cloud, before, after, info, platform, true)
    ensures var volumes := cloud.apps(info.name, info.version).value.volumes;
            && (ResolvesAll(after, volumes) <==>
                  forall i :: 0 <= i < |volumes| ==> Resolves(before, volumes[i]) || AtLastKey(volumes, volumes[i]))
            && (DashFreeRefs(volumes) ==>
                  forall i :: 0 <= i < |volumes| ==> (AtLastKey(volumes, volumes[i]) <==> IsLast(volumes, volumes[i])))
  {
    StoredIsCloud(cloud, before, after, info, platform);
    var volumes := cloud.apps(info.name, info.version).value.volumes;
    forall v ensures Resolves(after, v) <==> Resolves(before, v) || AtLastKey(volumes, v) {
      ResolvesMore(before, after, volumes, v);
    }
    if DashFreeRefs(volumes) {
      forall i | 0 <= i < |volumes| ensures AtLastKey(volumes, volumes[i]) <==> IsLast(volumes, volumes[i]) {
        LastKeyExactly(after, volumes, volumes[i]);
      }
    }
  }

  lemma {:induction false} LastKeyExactly(after: Store, volumes: seq<Volume>, v: Volume)
    requires WellKeyed(after) && DashFreeRefs(volumes) && v in volumes
    requires VersionKeys(CONFIGURATION, ConfigVersions(volumes)) <= after.configs.Keys
    requires VersionKeys(SECRET, SecretVersions(volumes)) <= after.secrets.Keys
    ensures AtLastKey(volumes, v) <==> IsLast(volumes, v)
  {
    forall n
      ensures n in ConfigVersions(volumes) ==> '-' !in ConfigVersions(volumes)[n]
      ensures n in SecretVersions(volumes) ==> '-' !in SecretVersions(volumes)[n]
    {
      VersionsComeFrom(volumes, n);
    }
    if AtLastKey(volumes, v) && v.config.Some? {
      KeyIsLast(CONFIGURATION, ConfigVersions(volumes), v.config.value);
    } else if AtLastKey(volumes, v) && v.secret.Some? {
      KeyIsLast(SECRET, SecretVersions(volumes), v.secret.value);
    }
  }

  /** The start of applyApp: synchronize, then look everything up. */
  method SyncAndLookup(syncer: Syncer, info: AppInfo, link: Link, local: Local, ghost cloud: Cloud)
    returns (ok: bool, r: Option<Loaded>)
    requires WellKeyed(syncer.sto)
    modifies syncer
    ensures WellKeyed(syncer.sto) && Grows(old(syncer.sto), syncer.sto)
    ensures Faithful(link, cloud) && WellNamed(cloud) && ok ==> Syncable(cloud, old(syncer.sto), info, local)
    ensures (Faithful(link, cloud) && WellNamed(cloud) && Syncable(cloud, old(syncer.sto), info, local) &&
             (forall crds: seq<ResourceInfo> {:trigger link(crds)} ::
                crds != [] && (forall i, j :: 0 <= i < j < |crds| ==> crds[i] != crds[j]) ==> link(crds).Some?)) ==>
              ok
    ensures r.Some? <==> ok && InfoKey(info) in syncer.sto.apps &&
                         ResolvesAll(syncer.sto, syncer.sto.apps[InfoKey(info)].volumes)
    ensures (ok && Faithful(link, cloud) && WellNamed(cloud) && DashFree(cloud) &&
             Mirrors(old(syncer.sto), cloud, local.platform)) ==>
              cloud.apps(info.name, info.version).Some? &&
              (OneVersionEach(cloud.apps(info.name, info.version).value.volumes) ==>
                 r.Some? && Some(r.value.app) == cloud.apps(info.name, info.version))
  {
    ok := syncer.SyncResource(info, link, local, cloud);
    if !ok {
      return ok, None;
    }
    r := LookupApp(syncer.sto, info);
    if Faithful(link, cloud) && WellNamed(cloud) && DashFree(cloud) &&
        Mirrors(old(syncer.sto), cloud, local.platform) &&
       OneVersionEach(cloud.apps(info.name, info.version).value.volumes) {
      Closed(cloud, old(syncer.sto), syncer.sto, info, local.platform);
    }
  }

  /** Versions of the stored configurations hold no dash. */
  ghost predicate DashFreeConfigs(sto: Store) {
    forall k :: k in sto.configs ==> '-' !in sto.configs[k].version
  }

  /** The lookups load each configuration under its own name, at the last version the volumes name. */
  lemma {:induction false} LoadedAtLast(sto: Store, volumes: seq<Volume>, n: string)
    requires WellKeyed(sto) && ResolvesAll(sto, volumes) && DashFreeRefs(volumes) && DashFreeConfigs(sto)
    ensures n in LoadedConfigs(sto, volumes) <==> n in ConfigVersions(volumes)
    ensures n in ConfigVersions(volumes) ==>
              var cfg := LoadedConfigs(sto, volumes)[n]; cfg.name == n && cfg.version == ConfigVersions(volumes)[n]
  {
    if volumes != [] {
      var front, last := volumes[..|volumes| - 1], volumes[|volumes| - 1];
      assert forall i :: 0 <= i < |front| ==> front[i] == volumes[i];
      LoadedAtLast(sto, front, n);
      if last.config.Some? {
        var ref := last.config.value;
        var cfg := sto.configs[RefKey(CONFIGURATION, ref)];
        Injective(CONFIGURATION, cfg.name, cfg.version, ref.name, ref.version);
      }
    }
  }

  /** What the lookups load for each configuration name is the cloud's record, filtered, at the last version
      the volumes name. */
  lemma {:induction false} LoadedIsCloud(cloud: Cloud, sto: Store, volumes: seq<Volume>, platform: string, n: string)
    requires Mirrors(sto, cloud, platform) && DashFree(cloud) && ResolvesAll(sto, volumes) && DashFreeRefs(volumes)
    ensures n in LoadedConfigs(sto, volumes) <==> n in ConfigVersions(volumes)
    ensures n in ConfigVersions(volumes) ==>
              var v := ConfigVersions(volumes)[n];
              cloud.configs(n, v).Some? &&
                LoadedConfigs(sto, volumes)[n] == Filtered(cloud.configs(n, v).value, platform)
  {
    if volumes != [] {
      var front, last := volumes[..|volumes| - 1], volumes[|volumes| - 1];
      assert forall i :: 0 <= i < |front| ==> front[i] == volumes[i];
      LoadedIsCloud(cloud, sto, front, platform, n);
      if last.config.Some? {
        var ref := last.config.value;
        var cfg := sto.configs[RefKey(CONFIGURATION, ref)];
        Injective(CONFIGURATION, cfg.name, cfg.version, ref.name, ref.version);
      }
    }
  }

  /** And likewise for each secret. */
  lemma {:induction false} LoadedSecretIsCloud(cloud: Cloud, sto: Store, volumes: seq<Volume>, platform: string,
                                               n: string)
    requires Mirrors(sto, cloud, platform) && DashFree(cloud) && ResolvesAll(sto, volumes) && DashFreeRefs(volumes)
    ensures n in LoadedSecrets(sto, volumes) <==> n in SecretVersions(volumes)
    ensures n in SecretVersions(volumes) ==>
              Some(LoadedSecrets(sto, volumes)[n]) == cloud.secrets(n, SecretVersions(volumes)[n])
  {
    if volumes != [] {
      var front, last := volumes[..|volumes| - 1], volumes[|volumes| - 1];
      assert forall i :: 0 <= i < |front| ==> front[i] == volumes[i];
      LoadedSecretIsCloud(cloud, sto, front, platform, n);
      if last.config.None? && last.secret.Some? {
        var ref := last.secret.value;
        var sec := sto.secrets[RefKey(SECRET, ref)];
        Injective(SECRET, sec.name, sec.version, ref.name, ref.version);
      }
    }
  }

  // one synchronization, or one collection of configurations
  ghost predicate StoreStep(cloud: Cloud, platform: string, s: Store, t: Store) {
    || (exists info, ok :: Performed(cloud, s, t, info, platform, ok))
    || (exists gone :: t == s.(configs := s.configs - gone))
  }

  lemma {:induction false} StepMirrors(cloud: Cloud, platform: string, s: Store, t: Store)
    requires WellNamed(cloud) && StoreStep(cloud, platform, s, t) && Mirrors(s, cloud, platform)
    ensures Mirrors(t, cloud, platform)
  {
    if info, ok :| Performed(cloud, s, t, info, platform, ok) {
      PerformedIsSynced(cloud, s, t, info, platform, ok);
    }
  }

  ghost predicate IsStoreRun(cloud: Cloud, platform: string, stores: seq<Store>) {
    WellNamed(cloud) && forall i :: 0 < i < |stores| ==> StoreStep(cloud, platform, stores[i - 1], stores[i])
  }

  /** Over any run of synchronizations and collections the store mirrors the cloud. */
  lemma {:induction false} RunMirrors(cloud: Cloud, platform: string, stores: seq<Store>, i: nat)
    requires IsStoreRun(cloud, platform, stores) && i < |stores| && Mirrors(stores[0], cloud, platform)
    ensures Mirrors(stores[i], cloud, platform)
  {
    if i > 0 {
      RunMirrors(cloud, platform, stores, i - 1);
      StepMirrors(cloud, platform, stores[i - 1], stores[i]);
    }
  }

  /** A key always stands for the same record: what is collected and fetched again comes back unchanged. */
  lemma {:induction false} RunCoherent(cloud: Cloud, platform: string, stores: seq<Store>, i: nat, j: nat, k: string)
    requires IsStoreRun(cloud, platform, stores) && i < |stores| && j < |stores| && Mirrors(stores[0], cloud, platform)
    requires DashFree(cloud)
    ensures k in stores[i].configs && k in stores[j].configs ==> stores[i].configs[k] == stores[j].configs[k]
    ensures k in stores[i].apps && k in stores[j].apps ==> stores[i].apps[k] == stores[j].apps[k]
    ensures k in stores[i].secrets && k in stores[j].secrets ==> stores[i].secrets[k] == stores[j].secrets[k]
  {
    RunMirrors(cloud, platform, stores, i);
    RunMirrors(cloud, platform, stores, j);
    MirrorsCohere(cloud, platform, stores[i], stores[j], k);
  }

  lemma {:induction false} MirrorsCohere(cloud: Cloud, platform: string, s: Store, t: Store, k: string)
    requires Mirrors(s, cloud, platform) && Mirrors(t, cloud, platform) && DashFree(cloud)
    ensures k in s.configs && k in t.configs ==> s.configs[k] == t.configs[k]
    ensures k in s.apps && k in t.apps ==> s.apps[k] == t.apps[k]
    ensures k in s.secrets && k in t.secrets ==> s.secrets[k] == t.secrets[k]
  {
    if k in s.configs && k in t.configs {
      var a, b := s.configs[k], t.configs[k];
      Injective(CONFIGURATION, a.name, a.version, b.name, b.version);
    }
    if k in s.apps && k in t.apps {
      var a, b := s.apps[k], t.apps[k];
      Injective(APPLICATION, a.name, a.version, b.name, b.version);
    }
    if k in s.secrets && k in t.secrets {
      var a, b := s.secrets[k], t.secrets[k];
      Injective(SECRET, a.name, a.version, b.name, b.version);
    }
  }

  // ----- one configuration at two versions -----

  const SECOND := Configuration("c", "2", false, map[])
  const TWICE := Application("a", "1", OtherWorkload, 0, 1, [], [
    Volume("v", None, Some(ObjectRef("c", "1")), None), Volume("w", None, Some(ObjectRef("c", "2")), None)])

  // the cloud knows the application and both versions
  const CLOUD := Cloud((n, v) => if n == "a" && v == "1" then Some(TWICE) else None,
                       (n, v) => if n == "c" &&
                         (v == "1" || v == "2") then Some(Configuration(n, v, false, map[])) else None,
                       (n, v) => None)

  /** From an empty store this synchronization succeeds and stores only the last version named, so the lookup of
      the first one misses. */
  lemma {:induction false} TwoVersionsMiss(after: Store, platform: string)
    requires Performed(CLOUD, Store(map[], map[], map[]), after, AppInfo("a", "1"), platform, true)
    ensures !ResolvesAll(after, TWICE.volumes)
  {
    PerformedIsSynced(CLOUD, Store(map[], map[], map[]), after, AppInfo("a", "1"), platform, true);
    TwoVersionsSynced(after, platform);
  }

  lemma {:induction false} TwoVersionsSynced(after: Store, platform: string)
    requires Synced(CLOUD, Store(map[], map[], map[]), after, AppInfo("a", "1"), platform, true)
    ensures !ResolvesAll(after, TWICE.volumes)
  {
    var before, volumes := Store(map[], map[], map[]), TWICE.volumes;
    assert '-' !in "1" && '-' !in "2";
    assert CLOUD.apps("a", "1") == Some(TWICE);
    ClosedExactly(CLOUD, before, after, AppInfo("a", "1"), platform);
    TwoVersionsRecorded();
    assert !Resolves(before, volumes[0]) && !IsLast(volumes, volumes[0]);
  }

  lemma {:induction false} TwoVersionsRecorded()
    ensures ConfigVersions(TWICE.volumes) == map["c" := "2"] && SecretVersions(TWICE.volumes) == map[]
  {
    var volumes := TWICE.volumes;
    assert volumes[..1][..0] == [] && ConfigVersions([]) == map[] && SecretVersions([]) == map[];
    assert ConfigVersions(volumes[..1]) == map["c" := "1"] && SecretVersions(volumes[..1]) == map[];
  }

  /** Such a synchronization does succeed, over any link that answers and on a disk that takes the writes. */
  lemma {:induction false} TwoVersionsSyncable(local: Local)
    requires (forall cfg :: local.downloadOk(cfg)) && (forall k :: local.writeOk(k))
    ensures WellNamed(CLOUD) && Syncable(CLOUD, Store(map[], map[], map[]), AppInfo("a", "1"), local)
  {
    TwoVersionsRecorded();
    assert CLOUD.apps("a", "1") == Some(TWICE);
    SyncableWhen(CLOUD, Store(map[], map[], map[]), AppInfo("a", "1"), local);
  }

  // the store it leaves, and the replies that lead to it
  const LEFT := Store(map[AppKey(TWICE) := TWICE], map[ConfigKey(SECOND) := SECOND], map[])
  const APP_REPLY := [Answer(CLOUD, ResourceInfo(APPLICATION, "a", "1"))]
  const CONFIG_REPLY := [Answer(CLOUD, ResourceInfo(CONFIGURATION, "c", "2"))]

  lemma {:induction false} TwoVersionsPerformed(platform: string)
    ensures Performed(CLOUD, Store(map[], map[], map[]), LEFT, AppInfo("a", "1"), platform, true)
  {
    TwoVersionsFetched();
    TwoVersionsWritten(platform);
  }

  lemma {:induction false} TwoVersionsFetched()
    ensures Fetched(CLOUD, AppInfo("a", "1"), APP_REPLY, CONFIG_REPLY, [])
    ensures AppsOf(APP_REPLY) == map["a" := TWICE] && VolumesOf(APP_REPLY) == TWICE.volumes
  {
    TwoVersionsRecorded();
    assert APP_REPLY[..0] == [] && APP_REPLY[0].app == Some(TWICE) && CONFIG_REPLY[0].config == Some(SECOND);
    assert VolumesOf(APP_REPLY) == VolumesOf([]) + TWICE.volumes;
    assert APP_REPLY[0].info.name == "a" && CONFIG_REPLY[0].info.name == "c";
  }

  lemma {:induction false} TwoVersionsWritten(platform: string)
    requires AppsOf(APP_REPLY) == map["a" := TWICE]
    requires forall i :: 0 <= i < |CONFIG_REPLY| ==> CONFIG_REPLY[i].config.Some?
    ensures WroteReplies(Store(map[], map[], map[]), LEFT, APP_REPLY, CONFIG_REPLY, [], platform, true)
  {
    TwoVersionsReplied(platform);
    SecondIsWritten(AppsOf(APP_REPLY), ConfigsOf(CONFIG_REPLY, platform));
  }

  lemma {:induction false} TwoVersionsReplied(platform: string)
    requires forall i :: 0 <= i < |CONFIG_REPLY| ==> CONFIG_REPLY[i].config.Some?
    ensures ConfigsOf(CONFIG_REPLY, platform) == map["c" := SECOND] && SecretsOf([]) == map[]
  {
    assert CONFIG_REPLY[..0] == [] && CONFIG_REPLY[0].config == Some(SECOND) && Filtered(SECOND, platform) == SECOND;
    assert ConfigsOf([], platform) == map[];
    assert ConfigsOf(CONFIG_REPLY, platform) == map[][SECOND.name := SECOND];
  }

  lemma {:induction false} SecondIsWritten(apps: map<string, Application>, configs: map<string, Configuration>)
    requires apps == map["a" := TWICE] && configs == map["c" := SECOND]
    ensures WroteAll(Store(map[], map[], map[]), LEFT, apps, configs, map[])
    ensures AppStored(LEFT, TWICE, configs, map[])
  {
    assert "a" in apps && apps["a"] == TWICE;
    assert UsesConfig(TWICE.volumes[1], configs);
    assert ConfigKey(SECOND) in WrittenConfigs(TWICE.volumes, configs);
  }
}
