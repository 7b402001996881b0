/** Fetching an application with its configurations and secrets into the store (sync/desire.go), and the
    lookups that applying it makes (engine/engine.go applyApp). */
module Sync {
  import opened Model
  import opened Keys
  import opened Storage
  import opened AppLists
  import opened Reconcile

  datatype ResourceInfo = ResourceInfo(kind: string, name: string, version: string)

  // App(), Config() and Secret() of a value; None when the value is of another kind or missing
  datatype ResourceValue = ResourceValue(info: ResourceInfo, app: Option<Application>, config: Option<Configuration>,
                                         secret: Option<Secret>)

  // the answer to one request; None when the request or its decoding fails
  type Link = seq<ResourceInfo> -> Option<seq<ResourceValue>>

  // which downloads and store writes succeed, and the platform string of the node
  datatype Local = Local(platform: string, downloadOk: Configuration -> bool, writeOk: string -> bool)

  /** The cloud as a fixed function of kind, name and version. */
  datatype Cloud = Cloud(apps: (string, string) -> Option<Application>,
                         configs: (string, string) -> Option<Configuration>,
                         secrets: (string, string) -> Option<Secret>)

  ghost predicate WellNamed(cloud: Cloud) {
    && (forall n, v :: cloud.apps(n, v).Some? ==> cloud.apps(n, v).value.name == n && cloud.apps(n, v).value.version == v)
    && (forall n, v :: cloud.configs(n, v).Some? ==>
          cloud.configs(n, v).value.name == n && cloud.configs(n, v).value.version == v)
    && (forall n, v :: cloud.secrets(n, v).Some? ==>
          cloud.secrets(n, v).value.name == n && cloud.secrets(n, v).value.version == v)
  }

  function Answer(cloud: Cloud, info: ResourceInfo): ResourceValue {
    ResourceValue(info,
                  if info.kind == APPLICATION then cloud.apps(info.name, info.version) else None,
                  if info.kind == CONFIGURATION then cloud.configs(info.name, info.version) else None,
                  if info.kind == SECRET then cloud.secrets(info.name, info.version) else None)
  }

  // a reply holds the cloud's answer to each request once, in any order
  ghost predicate Faithful(link: Link, cloud: Cloud) {
    forall crds {:trigger link(crds)} :: link(crds).Some? ==> Replies(cloud, crds, link(crds).value)
  }

  ghost predicate Replies(cloud: Cloud, crds: seq<ResourceInfo>, values: seq<ResourceValue>) {
    && (forall i :: 0 <= i < |values| ==> values[i].info in crds && values[i] == Answer(cloud, values[i].info))
    && (forall i, j :: 0 <= i < j < |values| ==> values[i].info != values[j].info)
    && (forall c :: c in crds ==> exists i :: 0 <= i < |values| && values[i].info == c)
  }

  /** Programs keep only the objects of the node's platform. */
  function Filtered(cfg: Configuration, platform: string): Configuration {
    if !cfg.isProgram then cfg
    else cfg.(data := map k | k in cfg.data && (!IsConfigObject(k) || Contains(k, platform)) :: cfg.data[k])
  }

  method FilterConfig(cfg0: Configuration, platform: string) returns (cfg: Configuration)
    ensures cfg == Filtered(cfg0, platform)
    ensures cfg.name == cfg0.name && cfg.version == cfg0.version && cfg.isProgram == cfg0.isProgram
    ensures !cfg0.isProgram ==> cfg.data == cfg0.data
    ensures cfg0.isProgram ==> forall k ::
              (k in cfg.data <==> k in cfg0.data && ("_object_" <= k ==> exists a, b :: k == a + platform + b)) &&
              (k in cfg.data ==> cfg.data[k] == cfg0.data[k])
  {
    forall k ensures Contains(k, platform) <==> exists a, b :: k == a + platform + b {
      ContainsExactly(k, platform);
    }
    cfg := cfg0;
    if !cfg.isProgram {
      return;
    }
    var rest := cfg0.data.Keys;
    while rest != {}
      invariant rest <= cfg0.data.Keys && cfg == cfg0.(data := cfg.data)
      invariant cfg.data == map k | k in cfg0.data &&
          (k in rest || !IsConfigObject(k) || Contains(k, platform)) :: cfg0.data[k]
    {
      var k := Pick(rest);
      rest := rest - {k};
      if !IsConfigObject(k) || Contains(k, platform) {
        continue;
      }
      cfg := cfg.(data := cfg.data - {k});
    }
  }

  // versions named by the volumes; the last volume of a name wins
  function ConfigVersions(volumes: seq<Volume>): map<string, string> {
    if volumes == [] then map[]
    else
      var before, v := ConfigVersions(volumes[..|volumes| - 1]), volumes[|volumes| - 1];
      if v.config.Some? then before[v.config.value.name := v.config.value.version] else before
  }

  function SecretVersions(volumes: seq<Volume>): map<string, string> {
    if volumes == [] then map[]
    else
      var before, v := SecretVersions(volumes[..|volumes| - 1]), volumes[|volumes| - 1];
      if v.config.None? && v.secret.Some? then before[v.secret.value.name := v.secret.value.version] else before
  }

  /** The store is a mirror: every record is the cloud's, filtered, under its own key. */
  ghost predicate Mirrors(sto: Store, cloud: Cloud, platform: string) {
    && WellKeyed(sto)
    && (forall k :: k in sto.apps ==> cloud.apps(sto.apps[k].name, sto.apps[k].version) == Some(sto.apps[k]))
    && (forall k :: k in sto.configs ==> FromCloud(sto.configs[k], cloud, platform))
    && (forall k :: k in sto.secrets ==> cloud.secrets(sto.secrets[k].name, sto.secrets[k].version) == Some(sto.secrets[k]))
  }

  ghost predicate FromCloud(cfg: Configuration, cloud: Cloud, platform: string) {
    cloud.configs(cfg.name, cfg.version).Some? && cfg == Filtered(cloud.configs(cfg.name, cfg.version).value, platform)
  }

  /** No record changes or goes away. */
  ghost predicate Grows(before: Store, after: Store) {
    && (forall k :: k in before.apps ==> k in after.apps && after.apps[k] == before.apps[k])
    && (forall k :: k in before.configs ==> k in after.configs && after.configs[k] == before.configs[k])
    && (forall k :: k in before.secrets ==> k in after.secrets && after.secrets[k] == before.secrets[k])
  }

  /** One request for each entry, in any order. */
  method GenResourceInfos(kind: string, infos: map<string, string>) returns (crds: seq<ResourceInfo>)
    ensures forall c :: c in crds <==> c.kind == kind && c.name in infos && c.version == infos[c.name]
    ensures forall i, j :: 0 <= i < j < |crds| ==> crds[i].name != crds[j].name
  {
    crds := [];
    var rest := infos.Keys;
    while rest != {}
      invariant rest <= infos.Keys
      invariant forall c :: c in crds <==> c.kind == kind && c.name in infos.Keys - rest && c.version == infos[c.name]
      invariant forall i, j :: 0 <= i < j < |crds| ==> crds[i].name != crds[j].name
    {
      var n := Pick(rest);
      assert forall i :: 0 <= i < |crds| ==> crds[i] in crds;
      crds := crds + [ResourceInfo(kind, n, infos[n])];
      rest := rest - {n};
    }
  }

  // no request is sent for an empty list
  method SyncResourceValues(crds: seq<ResourceInfo>, link: Link) returns (r: Option<seq<ResourceValue>>)
    ensures r == if crds == [] then Some([]) else link(crds)
  {
    if |crds| == 0 {
      return Some([]);
    }
    r := link(crds);
  }

  // a request without repetition that the link does not answer
  ghost predicate Refused(link: Link, crds: seq<ResourceInfo>) {
    crds != [] && (forall i, j :: 0 <= i < j < |crds| ==> crds[i] != crds[j]) && link(crds).None?
  }

  /** A link that answers each request by the cloud's records, in order, is faithful. */
  lemma {:induction false} AnswersAreFaithful(link: Link, cloud: Cloud)
    requires forall crds: seq<ResourceInfo> {:trigger link(crds)} :: link(crds).Some? ==>
               && (forall i, j :: 0 <= i < j < |crds| ==> crds[i] != crds[j]) && |link(crds).value| == |crds|
               && forall i :: 0 <= i < |crds| ==>
                    link(crds).value[i] ==
                    ResourceValue(crds[i],
                                  if crds[i].kind == "application" then cloud.apps(crds[i].name, crds[i].version) else None,
                                  if crds[i].kind == "configuration" then cloud.configs(crds[i].name, crds[i].version)
                                  else None,
                                  if crds[i].kind == "secret" then cloud.secrets(crds[i].name, crds[i].version) else None)
    ensures Faithful(link, cloud)
  {
    forall crds | link(crds).Some? ensures Replies(cloud, crds, link(crds).value) {
      forall c | c in crds ensures exists i :: 0 <= i < |link(crds).value| && link(crds).value[i].info == c {
        var i :| 0 <= i < |crds| && crds[i] == c;
        assert link(crds).value[i].info == c;
      }
    }
  }

  // the request for a map of versions, and what a faithful link makes of it
  method Fetch(kind: string, infos: map<string, string>, link: Link) returns (r: Option<seq<ResourceValue>>)
    ensures forall cloud :: Faithful(link, cloud) && r.Some? ==> Answers(cloud, kind, infos, r.value)
    ensures r.None? ==> exists crds: seq<ResourceInfo> :: Refused(link, crds)
    ensures infos != map[] ==> exists crds: seq<ResourceInfo> :: crds != [] && r == link(crds)
    ensures infos == map[] ==> r == Some([])
  {
    var crds := GenResourceInfos(kind, infos);
    r := SyncResourceValues(crds, link);
    assert r.None? ==> Refused(link, crds);
    assert infos != map[] ==> crds != [] by {
      if n :| n in infos {
        assert ResourceInfo(kind, n, infos[n]) in crds;
      }
    }
    HeadIn(crds);
    forall cloud | Faithful(link, cloud) && r.Some? ensures Answers(cloud, kind, infos, r.value) {
      assert Replies(cloud, crds, r.value) by {
        if crds != [] { assert link(crds).Some?; }
      }
      forall n | n in infos ensures Answered(r.value, n) {
        assert ResourceInfo(kind, n, infos[n]) in crds;
      }
    }
  }

  predicate Answered(values: seq<ResourceValue>, n: string) {
    exists i :: 0 <= i < |values| && values[i].info.name == n
  }

  // one value for each entry, in any order, and each is the cloud's
  ghost predicate Answers(cloud: Cloud, kind: string, infos: map<string, string>, values: seq<ResourceValue>) {
    && (forall i :: 0 <= i < |values| ==> AnswersEntry(cloud, kind, infos, values[i]))
    && (forall i, j :: 0 <= i < j < |values| ==> values[i].info.name != values[j].info.name)
    && (forall n :: n in infos ==> Answered(values, n))
  }

  ghost predicate AnswersEntry(cloud: Cloud, kind: string, infos: map<string, string>, v: ResourceValue) {
    v.info.name in infos && v == Answer(cloud, ResourceInfo(kind, v.info.name, infos[v.info.name]))
  }

  // the records of a reply by name; fails when a value is missing
  method CollectConfigs(values: seq<ResourceValue>, platform: string)
    returns (ok: bool, configs: map<string, Configuration>)
    ensures ok <==> forall i :: 0 <= i < |values| ==> values[i].config.Some?
    ensures ok ==> configs == ConfigsOf(values, platform)
  {
    configs := map[];
    for i := 0 to |values|
      invariant forall j :: 0 <= j < i ==> values[j].config.Some?
      invariant configs == ConfigsOf(values[..i], platform)
    {
      assert values[..i + 1][..i] == values[..i];
      if values[i].config.None? {
        return false, configs;
      }
      var cfg := FilterConfig(values[i].config.value, platform);
      configs := configs[cfg.name := cfg];
    }
    assert values[..|values|] == values;
    ok := true;
  }

  function ConfigsOf(values: seq<ResourceValue>, platform: string): map<string, Configuration>
    requires forall i :: 0 <= i < |values| ==> values[i].config.Some?
  {
    if values == [] then map[]
    else
      var cfg := Filtered(values[|values| - 1].config.value, platform);
      ConfigsOf(values[..|values| - 1], platform)[cfg.name := cfg]
  }

  method CollectSecrets(values: seq<ResourceValue>) returns (ok: bool, secrets: map<string, Secret>)
    ensures ok <==> forall i :: 0 <= i < |values| ==> values[i].secret.Some?
    ensures ok ==> secrets == SecretsOf(values)
  {
    secrets := map[];
    for i := 0 to |values|
      invariant forall j :: 0 <= j < i ==> values[j].secret.Some?
      invariant secrets == SecretsOf(values[..i])
    {
      assert values[..i + 1][..i] == values[..i];
      if values[i].secret.None? {
        return false, secrets;
      }
      secrets := secrets[values[i].secret.value.name := values[i].secret.value];
    }
    assert values[..|values|] == values;
    ok := true;
  }

  function SecretsOf(values: seq<ResourceValue>): map<string, Secret>
    requires forall i :: 0 <= i < |values| ==> values[i].secret.Some?
  {
    if values == [] then map[]
    else
      var sec := values[|values| - 1].secret.value;
      SecretsOf(values[..|values| - 1])[sec.name := sec]
  }

  // applications by name, and the volumes of all of them in order
  method CollectApps(values: seq<ResourceValue>)
    returns (ok: bool, apps: map<string, Application>, cInfo: map<string, string>, sInfo: map<string, string>)
    ensures ok <==> forall i :: 0 <= i < |values| ==> values[i].app.Some?
    ensures ok ==> apps == AppsOf(values)
    ensures ok ==> cInfo == ConfigVersions(VolumesOf(values)) && sInfo == SecretVersions(VolumesOf(values))
  {
    apps, cInfo, sInfo := map[], map[], map[];
    for i := 0 to |values|
      invariant forall j :: 0 <= j < i ==> values[j].app.Some?
      invariant apps == AppsOf(values[..i])
      invariant cInfo == ConfigVersions(VolumesOf(values[..i])) && sInfo == SecretVersions(VolumesOf(values[..i]))
    {
      assert values[..i + 1][..i] == values[..i];
      if values[i].app.None? {
        return false, apps, cInfo, sInfo;
      }
      var app := values[i].app.value;
      apps := apps[app.name := app];
      cInfo, sInfo := CollectVersions(cInfo, sInfo, app.volumes, VolumesOf(values[..i]));
    }
    assert values[..|values|] == values;
    ok := true;
  }

  // the applications of a reply by name; values without one are skipped
  function PresentApps(values: seq<ResourceValue>): (apps: map<string, Application>)
    ensures forall n :: n in apps ==> apps[n].name == n
  {
    if values == [] then map[]
    else
      var before, v := PresentApps(values[..|values| - 1]), values[|values| - 1];
      if v.app.Some? then before[v.app.value.name := v.app.value] else before
  }

  /** The desired applications by name. From a faithful link these are the cloud's, at the wanted versions. */
  method SyncApps(infos: seq<AppInfo>, link: Link, ghost cloud: Cloud) returns (r: Option<map<string, Application>>)
    ensures r.Some? ==> forall n :: n in r.value ==> r.value[n].name == n
    ensures (forall crds: seq<ResourceInfo> {:trigger link(crds)} ::
               crds != [] && (forall i, j :: 0 <= i < j < |crds| ==> crds[i] != crds[j]) ==> link(crds).Some?) ==>
              r.Some?
    ensures infos != [] && (forall crds: seq<ResourceInfo> {:trigger link(crds)} :: crds != [] ==> link(crds).None?) ==>
              r.None?
    ensures infos == [] ==> r == Some(map[])
    ensures r.Some? && Faithful(link, cloud) && WellNamed(cloud) ==>
              forall n :: (n in r.value <==> n in Wanted(infos) && cloud.apps(n, Wanted(infos)[n]).Some?) &&
                          (n in r.value ==> Some(r.value[n]) == cloud.apps(n, Wanted(infos)[n]))
  {
    var byName := IndexByName(infos);
    var versions := map n | n in byName :: byName[n].version;
    assert versions == Wanted(infos);
    assert infos != [] ==> infos[0].name in versions;
    var values := Fetch(APPLICATION, versions, link);
    if values.None? {
      return None;
    }
    var apps: map<string, Application> := map[];
    for i := 0 to |values.value|
      invariant apps == PresentApps(values.value[..i])
    {
      assert values.value[..i + 1][..i] == values.value[..i];
      if values.value[i].app.Some? {
        apps := apps[values.value[i].app.value.name := values.value[i].app.value];
      }
    }
    assert values.value[..|values.value|] == values.value;
    if Faithful(link, cloud) && WellNamed(cloud) {
      forall n ensures (n in apps <==> n in versions && cloud.apps(n, versions[n]).Some?) &&
                       (n in apps ==> Some(apps[n]) == cloud.apps(n, versions[n])) {
        FaithfulApps(cloud, versions, values.value, n);
      }
    }
    r := Some(apps);
  }

  lemma {:induction false} FaithfulApps(cloud: Cloud, infos: map<string, string>, values: seq<ResourceValue>, n: string)
    requires WellNamed(cloud)
    requires forall i :: 0 <= i < |values| ==> AnswersEntry(cloud, APPLICATION, infos, values[i])
    ensures var apps := PresentApps(values);
            && (n in apps <==> Answered(values, n) && n in infos && cloud.apps(n, infos[n]).Some?)
            && (n in apps ==> Some(apps[n]) == cloud.apps(n, infos[n]))
  {
    if values != [] {
      FaithfulApps(cloud, infos, values[..|values| - 1], n);
      AnsweredMore(values, n);
    }
  }

  lemma {:induction false} AnsweredMore(values: seq<ResourceValue>, n: string)
    requires values != []
    ensures Answered(values, n) <==> Answered(values[..|values| - 1], n) || values[|values| - 1].info.name == n
  {
    var front := values[..|values| - 1];
    if i :| 0 <= i < |front| && front[i].info.name == n {
      assert values[i] == front[i];
    }
  }

  method CollectVersions(cInfo0: map<string, string>, sInfo0: map<string, string>, volumes: seq<Volume>,
                         ghost done: seq<Volume>)
    returns (cInfo: map<string, string>, sInfo: map<string, string>)
    requires cInfo0 == ConfigVersions(done) && sInfo0 == SecretVersions(done)
    ensures cInfo == ConfigVersions(done + volumes) && sInfo == SecretVersions(done + volumes)
  {
    cInfo, sInfo := cInfo0, sInfo0;
    ghost var seen := done;
    assert seen == done + volumes[..0];
    for j := 0 to |volumes|
      invariant seen == done + volumes[..j]
      invariant cInfo == ConfigVersions(seen) && sInfo == SecretVersions(seen)
    {
      var v := volumes[j];
      VersionsGrow(seen, v);
      seen := seen + [v];
      assert seen == done + volumes[..j + 1];
      if v.config.Some? {
        cInfo := cInfo[v.config.value.name := v.config.value.version];
      } else if v.secret.Some? {
        sInfo := sInfo[v.secret.value.name := v.secret.value.version];
      }
    }
    assert volumes[..|volumes|] == volumes;
  }

  lemma {:induction false} VersionsGrow(volumes: seq<Volume>, v: Volume)
    ensures ConfigVersions(volumes + [v]) ==
            if v.config.Some? then ConfigVersions(volumes)[v.config.value.name := v.config.value.version]
            else ConfigVersions(volumes)
    ensures SecretVersions(volumes + [v]) ==
            if v.config.None? &&
                v.secret.Some? then SecretVersions(volumes)[v.secret.value.name := v.secret.value.version]
            else SecretVersions(volumes)
  {
  }

  function AppsOf(values: seq<ResourceValue>): map<string, Application>
    requires forall i :: 0 <= i < |values| ==> values[i].app.Some?
  {
    if values == [] then map[]
    else
      var app := values[|values| - 1].app.value;
      AppsOf(values[..|values| - 1])[app.name := app]
  }

  function VolumesOf(values: seq<ResourceValue>): seq<Volume>
    requires forall i :: 0 <= i < |values| ==> values[i].app.Some?
  {
    if values == [] then [] else VolumesOf(values[..|values| - 1]) + values[|values| - 1].app.value.volumes
  }

  // keys of the records a map of versions names
  function VersionKeys(kind: string, infos: map<string, string>): set<string> {
    set n | n in infos :: MakeKey(kind, n, infos[n])
  }

  // the volume is stored as a configuration
  predicate UsesConfig(v: Volume, configs: map<string, Configuration>) {
    v.config.Some? && v.config.value.name in configs
  }

  predicate UsesSecret(v: Volume, configs: map<string, Configuration>, secrets: map<string, Secret>) {
    !UsesConfig(v, configs) && v.secret.Some? && v.secret.value.name in secrets
  }

  // the keys the volumes write
  function WrittenConfigs(volumes: seq<Volume>, configs: map<string, Configuration>): set<string> {
    set i | 0 <= i < |volumes| && UsesConfig(volumes[i], configs) :: ConfigKey(configs[volumes[i].config.value.name])
  }

  function WrittenSecrets(volumes: seq<Volume>, configs: map<string, Configuration>,
                          secrets: map<string, Secret>): set<string> {
    set i | 0 <= i < |volumes| &&
      UsesSecret(volumes[i], configs, secrets) :: SecretKey(secrets[volumes[i].secret.value.name])
  }

  ghost predicate NewConfigsFrom(before: Store, after: Store, configs: map<string, Configuration>) {
    forall k :: k in after.configs && k !in before.configs ==>
      exists n :: n in configs && after.configs[k] == configs[n]
  }

  ghost predicate NewSecretsFrom(before: Store, after: Store, secrets: map<string, Secret>) {
    forall k :: k in after.secrets && k !in before.secrets ==>
      exists n :: n in secrets && after.secrets[k] == secrets[n]
  }

  class Syncer {
    var sto: Store

    constructor (sto: Store)
      ensures this.sto == sto
    {
      this.sto := sto;
    }

    method ProcessConfiguration(cfg: Configuration, local: Local) returns (ok: bool)
      requires WellKeyed(sto)
      modifies this
      ensures WellKeyed(sto)
      ensures sto == old(sto) ||
              (ConfigKey(cfg) !in old(sto).configs && sto == old(sto).(configs := old(sto).configs[ConfigKey(cfg) := cfg]))
      ensures ok <==> local.downloadOk(cfg) && cfg.name != "" && cfg.version != "" &&
                      (ConfigKey(cfg) in old(sto).configs || local.writeOk(ConfigKey(cfg)))
      ensures ok ==> ConfigKey(cfg) in sto.configs
      ensures ok || sto == old(sto)
    {
      if !local.downloadOk(cfg) {
        return false;
      }
      var key := MakeKey(CONFIGURATION, cfg.name, cfg.version);
      if key == "" {
        return false;
      }
      if key in sto.configs {
        return true;
      }
      if !local.writeOk(key) {
        return false;
      }
      sto := sto.(configs := sto.configs[key := cfg]);
      ok := true;
    }

    method StoreApplication(app: Application, local: Local) returns (ok: bool)
      requires WellKeyed(sto)
      modifies this
      ensures WellKeyed(sto)
      ensures sto == old(sto) ||
              (AppKey(app) !in old(sto).apps && sto == old(sto).(apps := old(sto).apps[AppKey(app) := app]))
      ensures ok <==> app.name != "" && app.version != "" &&
                      (AppKey(app) in old(sto).apps || local.writeOk(AppKey(app)))
      ensures ok ==> AppKey(app) in sto.apps
      ensures ok || sto == old(sto)
    {
      var key := MakeKey(APPLICATION, app.name, app.version);
      if key == "" {
        return false;
      }
      if key in sto.apps {
        return true;
      }
      if !local.writeOk(key) {
        return false;
      }
      sto := sto.(apps := sto.apps[key := app]);
      ok := true;
    }

    method StoreSecret(secret: Secret, local: Local) returns (ok: bool)
      requires WellKeyed(sto)
      modifies this
      ensures WellKeyed(sto)
      ensures sto == old(sto) ||
              (SecretKey(secret) !in old(sto).secrets &&
               sto == old(sto).(secrets := old(sto).secrets[SecretKey(secret) := secret]))
      ensures ok <==> secret.name != "" && secret.version != "" &&
                      (SecretKey(secret) in old(sto).secrets || local.writeOk(SecretKey(secret)))
      ensures ok ==> SecretKey(secret) in sto.secrets
      ensures ok || sto == old(sto)
    {
      var key := MakeKey(SECRET, secret.name, secret.version);
      if key == "" {
        return false;
      }
      if key in sto.secrets {
        return true;
      }
      if !local.writeOk(key) {
        return false;
      }
      sto := sto.(secrets := sto.secrets[key := secret]);
      ok := true;
    }

    method ProcessVolumes(volumes: seq<Volume>, configs: map<string, Configuration>, secrets: map<string, Secret>,
                          local: Local)
      returns (ok: bool)
      requires WellKeyed(sto)
      modifies this
      ensures Wrote(old(sto), sto, volumes, configs, secrets)
      ensures ok ==> PrefixStored(sto, volumes, |volumes|, configs, secrets)
      ensures Writable(old(sto), sto, local)
      ensures ok <==> VolumesStorable(old(sto), volumes, configs, secrets, local)
    {
      WroteNothing(sto, volumes, configs, secrets);
      for i := 0 to |volumes|
        invariant Wrote(old(sto), sto, volumes, configs, secrets)
        invariant PrefixStored(sto, volumes, i, configs, secrets)
        invariant Writable(old(sto), sto, local)
        invariant PrefixStorable(old(sto), volumes, i, configs, secrets, local)
      {
        ok := ProcessNext(volumes, i, configs, secrets, local, old(sto));
        if !ok {
          return;
        }
      }
      ok := true;
    }

    method ProcessNext(volumes: seq<Volume>, i: nat, configs: map<string, Configuration>,
                       secrets: map<string, Secret>, local: Local, ghost before: Store)
      returns (ok: bool)
      requires i < |volumes| && Wrote(before, sto, volumes, configs, secrets)
      requires PrefixStored(sto, volumes, i, configs, secrets) && Writable(before, sto, local)
      requires PrefixStorable(before, volumes, i, configs, secrets, local)
      modifies this
      ensures Wrote(before, sto, volumes, configs, secrets)
      ensures PrefixStored(sto, volumes, if ok then i + 1 else i, configs, secrets)
      ensures Writable(before, sto, local)
      ensures if ok then PrefixStorable(before, volumes, i + 1, configs, secrets, local)
              else !VolumesStorable(before, volumes, configs, secrets, local)
    {
      StorableStays(before, sto, local, volumes[i], configs, secrets);
      ok := ProcessVolume(volumes[i], configs, secrets, local);
      WroteMore(before, old(sto), sto, volumes, i, configs, secrets);
      PrefixMore(old(sto), sto, volumes, i, configs, secrets, ok);
    }

    method ProcessVolume(v: Volume, configs: map<string, Configuration>, secrets: map<string, Secret>, local: Local)
      returns (ok: bool)
      requires WellKeyed(sto)
      modifies this
      ensures Wrote(old(sto), sto, [v], configs, secrets)
      ensures ok ==> VolumeStored(sto, v, configs, secrets)
      ensures Writable(old(sto), sto, local)
      ensures ok <==> VolumeStorable(old(sto), v, configs, secrets, local)
    {
      ok := true;
      ghost var one := [v];
      assert one[0] == v;
      if v.config.Some? && v.config.value.name in configs {
        ok := ProcessConfiguration(configs[v.config.value.name], local);
        assert ConfigKey(configs[v.config.value.name]) in WrittenConfigs(one, configs);
      } else if v.secret.Some? && v.secret.value.name in secrets {
        ok := StoreSecret(secrets[v.secret.value.name], local);
        assert SecretKey(secrets[v.secret.value.name]) in WrittenSecrets(one, configs, secrets);
      }
    }

    // stores the volumes of every application, then the application itself
    method StoreAll(apps: map<string, Application>, configs: map<string, Configuration>, secrets: map<string, Secret>,
                    local: Local)
      returns (ok: bool)
      requires WellKeyed(sto)
      modifies this
      ensures WroteAll(old(sto), sto, apps, configs, secrets)
      ensures ok ==> forall n :: n in apps ==> AppStored(sto, apps[n], configs, secrets)
      ensures ok <==> AllStorable(old(sto), apps, configs, secrets, local)
      ensures ok || sto.apps == old(sto).apps || exists m, n :: m in apps && n in apps && m != n
    {
      var rest := apps.Keys;
      while rest != {}
        invariant rest <= apps.Keys
        invariant Progress(old(sto), sto, apps, apps.Keys - rest, configs, secrets, local)
        invariant rest == apps.Keys ==> sto == old(sto)
      {
        var n := Pick(rest);
        assert apps.Keys - rest + {n} == apps.Keys - (rest - {n});
        ok := StoreNext(apps, n, configs, secrets, local, old(sto), apps.Keys - rest);
        if !ok {
          assert rest != apps.Keys ==> exists m :: m in apps && m !in rest;
          return;
        }
        rest := rest - {n};
      }
      assert apps.Keys - rest == apps.Keys;
      ProgressAll(old(sto), sto, apps, configs, secrets, local);
      ok := true;
    }

    method StoreNext(apps: map<string, Application>, n: string, configs: map<string, Configuration>,
                     secrets: map<string, Secret>, local: Local, ghost before: Store, ghost done: set<string>)
      returns (ok: bool)
      requires n in apps && Progress(before, sto, apps, done, configs, secrets, local)
      modifies this
      ensures WroteAll(before, sto, apps, configs, secrets)
      ensures ok ==> Progress(before, sto, apps, done + {n}, configs, secrets, local)
      ensures ok <==>
          VolumesStorable(before, apps[n].volumes, configs, secrets, local) && AppStorable(before, apps[n], local)
      ensures ok || sto.apps == old(sto).apps
    {
      ok := StoreOne(apps, n, configs, secrets, local, before);
      if ok {
        ProgressOn(before, old(sto), sto, apps, done, n, configs, secrets, local);
      }
    }

    method StoreOne(apps: map<string, Application>, n: string, configs: map<string, Configuration>,
                     secrets: map<string, Secret>, local: Local, ghost before: Store)
      returns (ok: bool)
      requires n in apps && WroteAll(before, sto, apps, configs, secrets) && Writable(before, sto, local)
      modifies this
      ensures WroteAll(before, sto, apps, configs, secrets) && Writable(before, sto, local)
      ensures forall m :: m in apps && AppStored(old(sto), apps[m], configs, secrets) ==>
          AppStored(sto, apps[m], configs, secrets)
      ensures ok ==> AppStored(sto, apps[n], configs, secrets)
      ensures ok <==>
          VolumesStorable(before, apps[n].volumes, configs, secrets, local) && AppStorable(before, apps[n], local)
      ensures ok || sto.apps == old(sto).apps
    {
      ok := VolumesNext(apps, n, configs, secrets, local, before);
      if !ok {
        return;
      }
      ghost var mid := sto;
      AppStorableStays(before, sto, local, apps[n]);
      ok := StoreApplication(apps[n], local);
      WroteApp(before, mid, sto, apps, n, configs, secrets);
      StoredStays(mid, sto, configs, secrets);
    }

    method VolumesNext(apps: map<string, Application>, n: string, configs: map<string, Configuration>,
                       secrets: map<string, Secret>, local: Local, ghost before: Store)
      returns (ok: bool)
      requires n in apps && WroteAll(before, sto, apps, configs, secrets) && Writable(before, sto, local)
      modifies this
      ensures WroteAll(before, sto, apps, configs, secrets)
      ensures forall m :: m in apps && AppStored(old(sto), apps[m], configs, secrets) ==>
          AppStored(sto, apps[m], configs, secrets)
      ensures ok ==> forall j :: 0 <= j < |apps[n].volumes| ==> VolumeStored(sto, apps[n].volumes[j], configs, secrets)
      ensures Writable(before, sto, local)
      ensures ok <==> VolumesStorable(before, apps[n].volumes, configs, secrets, local)
      ensures sto.apps == old(sto).apps
    {
      VolumesStorableStay(before, sto, local, apps[n].volumes, configs, secrets);
      ok := ProcessVolumes(apps[n].volumes, configs, secrets, local);
      WritableOn(before, old(sto), sto, local);
      WroteVolumes(before, old(sto), sto, apps, n, configs, secrets);
      StoredStays(old(sto), sto, configs, secrets);
    }

    /** Fetch and store one application with all it names. Whatever the link answers and whatever fails,
        no record changes; if the link is faithful to the cloud, see Synced. */
    method SyncResource(info: AppInfo, link: Link, local: Local, ghost cloud: Cloud) returns (ok: bool)
      requires WellKeyed(sto)
      modifies this
      ensures WellKeyed(sto) && Grows(old(sto), sto)
      ensures Faithful(link, cloud) ==> Performed(cloud, old(sto), sto, info, local.platform, ok)
      ensures Faithful(link, cloud) && WellNamed(cloud) ==> Synced(cloud, old(sto), sto, info, local.platform, ok)
      ensures Faithful(link, cloud) && WellNamed(cloud) && ok ==> Syncable(cloud, old(sto), info, local)
      ensures (Faithful(link, cloud) && WellNamed(cloud) && Syncable(cloud, old(sto), info, local) &&
               (forall crds: seq<ResourceInfo> {:trigger link(crds)} ::
                  crds != [] && (forall i, j :: 0 <= i < j < |crds| ==> crds[i] != crds[j]) ==> link(crds).Some?)) ==>
                ok
      ensures (forall crds: seq<ResourceInfo> {:trigger link(crds)} :: crds != [] ==> link(crds).None?) ==>
                !ok && sto == old(sto)
      // the application is written last
      ensures Faithful(link, cloud) && WellNamed(cloud) && !ok ==> sto.apps == old(sto).apps
    {
      NothingSynced(cloud, sto, info, local.platform);
      var apps, configs, secrets;
      ghost var replies;
      ok, apps, configs, secrets, replies := FetchAll(info, link, local.platform, cloud);
      if !ok {
        return;
      }
      ok := StoreAll(apps, configs, secrets, local);
      if Faithful(link, cloud) {
        assert WroteReplies(old(sto), sto, replies.0, replies.1, replies.2, local.platform, ok);
        if WellNamed(cloud) {
          PerformedIsSynced(cloud, old(sto), sto, info, local.platform, ok);
          StorableExactly(cloud, old(sto), info, replies.0, replies.1, replies.2, local);
          OneApp(cloud, info, replies.0);
        }
      }
    }

    // the three requests; ok when every record asked for has come
    method FetchAll(info: AppInfo, link: Link, platform: string, ghost cloud: Cloud)
      returns (ok: bool, apps: map<string, Application>, configs: map<string, Configuration>,
               secrets: map<string, Secret>,
               ghost replies: (seq<ResourceValue>, seq<ResourceValue>, seq<ResourceValue>))
      ensures ok ==>
                && (forall i :: 0 <= i < |replies.0| ==> replies.0[i].app.Some?)
                && (forall i :: 0 <= i < |replies.1| ==> replies.1[i].config.Some?)
                && (forall i :: 0 <= i < |replies.2| ==> replies.2[i].secret.Some?)
                && apps == AppsOf(replies.0) && configs == ConfigsOf(replies.1, platform)
                && secrets == SecretsOf(replies.2)
      ensures Faithful(link, cloud) && ok ==> Fetched(cloud, info, replies.0, replies.1, replies.2)
      ensures Faithful(link, cloud) && WellNamed(cloud) && !ok ==>
                !Known(cloud, info) || exists crds :: Refused(link, crds)
      ensures (forall crds: seq<ResourceInfo> {:trigger link(crds)} :: crds != [] ==> link(crds).None?) ==> !ok
    {
      var cInfo, sInfo;
      apps, configs, secrets, replies := map[], map[], map[], ([], [], []);
      assert info.name in map[info.name := info.version];
      var values := Fetch(APPLICATION, map[info.name := info.version], link);
      if values.None? {
        return false, apps, configs, secrets, replies;
      }
      ok, apps, cInfo, sInfo := CollectApps(values.value);
      if !ok {
        return;
      }
      if Faithful(link, cloud) && WellNamed(cloud) {
        var app := OnlyApp(cloud, info, values.value);
      }
      var cValues := Fetch(CONFIGURATION, cInfo, link);
      if cValues.None? {
        return false, apps, configs, secrets, replies;
      }
      ok, configs := CollectConfigs(cValues.value, platform);
      if !ok {
        return;
      }
      var sValues := Fetch(SECRET, sInfo, link);
      if sValues.None? {
        return false, apps, configs, secrets, replies;
      }
      ok, secrets := CollectSecrets(sValues.value);
      replies := (values.value, cValues.value, sValues.value);
    }
  }

  // the applications of these names, which could be stored, are stored with what they name
  ghost predicate Progress(before: Store, after: Store, apps: map<string, Application>, names: set<string>,
                           configs: map<string, Configuration>, secrets: map<string, Secret>, local: Local)
  {
    && WroteAll(before, after, apps, configs, secrets) && Writable(before, after, local)
    && forall n :: n in names && n in apps ==>
         && AppStored(after, apps[n], configs, secrets) && AppStorable(before, apps[n], local)
         && VolumesStorable(before, apps[n].volumes, configs, secrets, local)
  }

  lemma {:induction false} ProgressAll(before: Store, after: Store, apps: map<string, Application>,
                                       configs: map<string, Configuration>, secrets: map<string, Secret>, local: Local)
    requires Progress(before, after, apps, apps.Keys, configs, secrets, local)
    ensures AllStorable(before, apps, configs, secrets, local)
    ensures forall n :: n in apps ==> AppStored(after, apps[n], configs, secrets)
  {
  }

  lemma {:induction false} ProgressOn(before: Store, mid: Store, after: Store, apps: map<string, Application>,
                                      names: set<string>, n: string, configs: map<string, Configuration>,
                                      secrets: map<string, Secret>, local: Local)
    requires Progress(before, mid, apps, names, configs, secrets, local) && n in apps
    requires WroteAll(before, after, apps, configs, secrets) && Writable(before, after, local)
    requires forall m :: m in apps && AppStored(mid, apps[m], configs, secrets) ==>
               AppStored(after, apps[m], configs, secrets)
    requires AppStored(after, apps[n], configs, secrets) && AppStorable(before, apps[n], local)
    requires VolumesStorable(before, apps[n].volumes, configs, secrets, local)
    ensures Progress(before, after, apps, names + {n}, configs, secrets, local)
  {
  }

  // the cloud has the application and every last version its volumes name
  ghost predicate Known(cloud: Cloud, info: AppInfo) {
    && cloud.apps(info.name, info.version).Some?
    && var volumes := cloud.apps(info.name, info.version).value.volumes;
       && (forall n :: n in ConfigVersions(volumes) ==> cloud.configs(n, ConfigVersions(volumes)[n]).Some?)
       && (forall n :: n in SecretVersions(volumes) ==> cloud.secrets(n, SecretVersions(volumes)[n]).Some?)
  }

  // the cloud has all of it, and all of it can be stored or is there already
  ghost predicate Syncable(cloud: Cloud, sto: Store, info: AppInfo, local: Local) {
    && Known(cloud, info) && AppStorable(sto, cloud.apps(info.name, info.version).value, local)
    && var volumes := cloud.apps(info.name, info.version).value.volumes;
       && (forall n :: n in ConfigVersions(volumes) ==>
             ConfigStorable(sto, Filtered(cloud.configs(n, ConfigVersions(volumes)[n]).value, local.platform), local))
       && (forall n :: n in SecretVersions(volumes) ==>
             SecretStorable(sto, cloud.secrets(n, SecretVersions(volumes)[n]).value, local))
  }

  /** A synchronization can succeed when the cloud has the application and every last version its volumes name, all
      have names and versions, the objects of each filtered configuration can be downloaded, and each record
      is there already or can be written. */
  lemma {:induction false} SyncableWhen(cloud: Cloud, sto: Store, info: AppInfo, local: Local)
    requires WellNamed(cloud)
    requires cloud.apps(info.name, info.version).Some? && info.name != "" && info.version != ""
    requires MakeKey("application", info.name, info.version) in sto.apps ||
      local.writeOk(MakeKey("application", info.name, info.version))
    requires forall n :: n in ConfigVersions(cloud.apps(info.name, info.version).value.volumes) ==>
        var v := ConfigVersions(cloud.apps(info.name, info.version).value.volumes)[n];
        && cloud.configs(n, v).Some? && n != "" && v != ""
        && local.downloadOk(Filtered(cloud.configs(n, v).value, local.platform))
        && (MakeKey("configuration", n, v) in sto.configs || local.writeOk(MakeKey("configuration", n, v)))
    requires forall n :: n in SecretVersions(cloud.apps(info.name, info.version).value.volumes) ==>
        var v := SecretVersions(cloud.apps(info.name, info.version).value.volumes)[n];
        && cloud.secrets(n, v).Some? && n != "" && v != ""
        && (MakeKey("secret", n, v) in sto.secrets || local.writeOk(MakeKey("secret", n, v)))
    ensures Syncable(cloud, sto, info, local)
  {
    var volumes := cloud.apps(info.name, info.version).value.volumes;
    forall n | n in ConfigVersions(volumes)
      ensures cloud.configs(n, ConfigVersions(volumes)[n]).Some? &&
              ConfigStorable(sto, Filtered(cloud.configs(n, ConfigVersions(volumes)[n]).value, local.platform), local)
    {
    }
    forall n | n in SecretVersions(volumes)
      ensures cloud.secrets(n, SecretVersions(volumes)[n]).Some? &&
              SecretStorable(sto, cloud.secrets(n, SecretVersions(volumes)[n]).value, local)
    {
    }
  }

  /** And only then. */
  lemma {:induction false} SyncableOnlyWhen(cloud: Cloud, sto: Store, info: AppInfo, local: Local)
    requires WellNamed(cloud) && Syncable(cloud, sto, info, local)
    ensures cloud.apps(info.name, info.version).Some? && info.name != "" && info.version != ""
    ensures MakeKey("application", info.name, info.version) in sto.apps ||
      local.writeOk(MakeKey("application", info.name, info.version))
    ensures forall n :: n in ConfigVersions(cloud.apps(info.name, info.version).value.volumes) ==>
        var v := ConfigVersions(cloud.apps(info.name, info.version).value.volumes)[n];
        && cloud.configs(n, v).Some? && n != "" && v != ""
        && local.downloadOk(Filtered(cloud.configs(n, v).value, local.platform))
        && (MakeKey("configuration", n, v) in sto.configs || local.writeOk(MakeKey("configuration", n, v)))
    ensures forall n :: n in SecretVersions(cloud.apps(info.name, info.version).value.volumes) ==>
        var v := SecretVersions(cloud.apps(info.name, info.version).value.volumes)[n];
        && cloud.secrets(n, v).Some? && n != "" && v != ""
        && (MakeKey("secret", n, v) in sto.secrets || local.writeOk(MakeKey("secret", n, v)))
  {
    var volumes := cloud.apps(info.name, info.version).value.volumes;
    forall n | n in ConfigVersions(volumes)
      ensures var v := ConfigVersions(volumes)[n];
              && n != "" && v != "" && local.downloadOk(Filtered(cloud.configs(n, v).value, local.platform))
              && (MakeKey("configuration", n, v) in sto.configs || local.writeOk(MakeKey("configuration", n, v)))
    {
      assert ConfigStorable(sto, Filtered(cloud.configs(n, ConfigVersions(volumes)[n]).value, local.platform), local);
    }
    forall n | n in SecretVersions(volumes)
      ensures var v := SecretVersions(volumes)[n];
              && n != "" && v != ""
              && (MakeKey("secret", n, v) in sto.secrets || local.writeOk(MakeKey("secret", n, v)))
    {
      assert SecretStorable(sto, cloud.secrets(n, SecretVersions(volumes)[n]).value, local);
    }
  }

  /** Of several versions named for one configuration or secret the last one counts. */
  lemma {:induction false} LastVersionCounts(volumes: seq<Volume>, i: nat)
    requires i < |volumes|
    ensures volumes[i].config.Some? &&
            (forall j :: i < j < |volumes| && volumes[j].config.Some? ==>
                           volumes[j].config.value.name != volumes[i].config.value.name) ==>
              volumes[i].config.value.name in ConfigVersions(volumes) &&
              ConfigVersions(volumes)[volumes[i].config.value.name] == volumes[i].config.value.version
    ensures volumes[i].config.None? && volumes[i].secret.Some? &&
            (forall j :: i < j < |volumes| && volumes[j].config.None? && volumes[j].secret.Some? ==>
                           volumes[j].secret.value.name != volumes[i].secret.value.name) ==>
              volumes[i].secret.value.name in SecretVersions(volumes) &&
              SecretVersions(volumes)[volumes[i].secret.value.name] == volumes[i].secret.value.version
  {
    var front, last := volumes[..|volumes| - 1], |volumes| - 1;
    if i < last {
      assert forall j :: 0 <= j < last ==> front[j] == volumes[j];
      LastVersionCounts(front, i);
    }
  }

  lemma {:induction false} StorableExactly(cloud: Cloud, sto: Store, info: AppInfo, values: seq<ResourceValue>,
                                           cValues: seq<ResourceValue>, sValues: seq<ResourceValue>, local: Local)
    requires WellNamed(cloud) && Fetched(cloud, info, values, cValues, sValues)
    ensures AllStorable(sto, AppsOf(values), ConfigsOf(cValues, local.platform), SecretsOf(sValues), local) <==>
            Syncable(cloud, sto, info, local)
  {
    var app := OnlyApp(cloud, info, values);
    var configs, secrets := ConfigsOf(cValues, local.platform), SecretsOf(sValues);
    RepliesMatch(cloud, app.volumes, cValues, sValues, local.platform);
    PartsStorable(cloud, sto, info, app, AppsOf(values), configs, secrets, local);
  }

  lemma {:induction false} PartsStorable(cloud: Cloud, sto: Store, info: AppInfo, app: Application,
                                         apps: map<string, Application>, configs: map<string, Configuration>,
                                         secrets: map<string, Secret>, local: Local)
    requires cloud.apps(info.name, info.version) == Some(app) && apps == map[app.name := app]
    requires Matching(app.volumes, configs, secrets)
    requires forall n :: n in configs ==> FromCloud(configs[n], cloud, local.platform)
    requires forall n :: n in secrets ==> cloud.secrets(secrets[n].name, secrets[n].version) == Some(secrets[n])
    ensures AllStorable(sto, apps, configs, secrets, local) <==> Syncable(cloud, sto, info, local)
  {
    MatchingStorable(sto, app.volumes, configs, secrets, local);
    assert AllStorable(sto, apps, configs, secrets, local) <==>
           VolumesStorable(sto, app.volumes, configs, secrets, local) && AppStorable(sto, app, local) by {
      assert apps[app.name] == app;
    }
  }

  lemma {:induction false} MatchingStorable(sto: Store, volumes: seq<Volume>, configs: map<string, Configuration>,
                                            secrets: map<string, Secret>, local: Local)
    requires Matching(volumes, configs, secrets)
    ensures VolumesStorable(sto, volumes, configs, secrets, local) <==>
            && (forall n :: n in configs ==> ConfigStorable(sto, configs[n], local))
            && (forall n :: n in secrets ==> SecretStorable(sto, secrets[n], local))
  {
    if VolumesStorable(sto, volumes, configs, secrets, local) {
      forall n | n in configs ensures ConfigStorable(sto, configs[n], local) {
        VersionsNamed(volumes, n);
        var i :| 0 <= i < |volumes| && volumes[i].config.Some? && volumes[i].config.value.name == n;
        assert VolumeStorable(sto, volumes[i], configs, secrets, local);
      }
      forall n | n in secrets ensures SecretStorable(sto, secrets[n], local) {
        VersionsNamed(volumes, n);
        var i :| 0 <= i < |volumes| && volumes[i].config.None? && volumes[i].secret.Some? &&
                 volumes[i].secret.value.name == n;
        assert VolumeStorable(sto, volumes[i], configs, secrets, local);
      }
    }
  }

  // the record can be stored, or is there already
  // the record can be stored, or is there already
  predicate ConfigStorable(sto: Store, cfg: Configuration, local: Local) {
    && local.downloadOk(cfg) && cfg.name != "" && cfg.version != ""
    && (ConfigKey(cfg) in sto.configs || local.writeOk(ConfigKey(cfg)))
  }

  predicate SecretStorable(sto: Store, secret: Secret, local: Local) {
    secret.name != "" && secret.version != "" && (SecretKey(secret) in sto.secrets || local.writeOk(SecretKey(secret)))
  }

  predicate AppStorable(sto: Store, app: Application, local: Local) {
    app.name != "" && app.version != "" && (AppKey(app) in sto.apps || local.writeOk(AppKey(app)))
  }

  predicate VolumeStorable(sto: Store, v: Volume, configs: map<string, Configuration>, secrets: map<string, Secret>,
                           local: Local) {
    && (UsesConfig(v, configs) ==> ConfigStorable(sto, configs[v.config.value.name], local))
    && (UsesSecret(v, configs, secrets) ==> SecretStorable(sto, secrets[v.secret.value.name], local))
  }

  predicate VolumesStorable(sto: Store, volumes: seq<Volume>, configs: map<string, Configuration>,
                            secrets: map<string, Secret>, local: Local) {
    PrefixStorable(sto, volumes, |volumes|, configs, secrets, local)
  }

  predicate PrefixStorable(sto: Store, volumes: seq<Volume>, n: nat, configs: map<string, Configuration>,
                           secrets: map<string, Secret>, local: Local)
    requires n <= |volumes|
  {
    forall j :: 0 <= j < n ==> VolumeStorable(sto, volumes[j], configs, secrets, local)
  }

  predicate AllStorable(sto: Store, apps: map<string, Application>, configs: map<string, Configuration>,
                        secrets: map<string, Secret>, local: Local) {
    forall n :: n in apps ==>
      VolumesStorable(sto, apps[n].volumes, configs, secrets, local) && AppStorable(sto, apps[n], local)
  }

  // what was added could be written
  ghost predicate Writable(before: Store, after: Store, local: Local) {
    && (forall k :: k in after.apps && k !in before.apps ==> local.writeOk(k))
    && (forall k :: k in after.configs && k !in before.configs ==> local.writeOk(k))
    && (forall k :: k in after.secrets && k !in before.secrets ==> local.writeOk(k))
  }

  lemma {:induction false} StorableStays(before: Store, after: Store, local: Local, v: Volume,
                                         configs: map<string, Configuration>, secrets: map<string, Secret>)
    requires Grows(before, after) && Writable(before, after, local)
    ensures VolumeStorable(after, v, configs, secrets, local) <==> VolumeStorable(before, v, configs, secrets, local)
  {
  }

  lemma {:induction false} VolumesStorableStay(before: Store, after: Store, local: Local, volumes: seq<Volume>,
                                               configs: map<string, Configuration>, secrets: map<string, Secret>)
    requires Grows(before, after) && Writable(before, after, local)
    ensures VolumesStorable(after, volumes, configs, secrets, local) <==>
            VolumesStorable(before, volumes, configs, secrets, local)
  {
    forall j | 0 <= j < |volumes|
      ensures VolumeStorable(after, volumes[j], configs, secrets, local) <==>
              VolumeStorable(before, volumes[j], configs, secrets, local)
    {
      StorableStays(before, after, local, volumes[j], configs, secrets);
    }
  }

  lemma {:induction false} WritableOn(before: Store, mid: Store, after: Store, local: Local)
    requires Writable(before, mid, local) && Writable(mid, after, local)
    ensures Writable(before, after, local)
  {
  }

  lemma {:induction false} AppStorableStays(before: Store, after: Store, local: Local, app: Application)
    requires Grows(before, after) && Writable(before, after, local)
    ensures AppStorable(after, app, local) <==> AppStorable(before, app, local)
  {
  }

  predicate VolumeStored(sto: Store, v: Volume, configs: map<string, Configuration>, secrets: map<string, Secret>) {
    && (UsesConfig(v, configs) ==> ConfigKey(configs[v.config.value.name]) in sto.configs)
    && (UsesSecret(v, configs, secrets) ==> SecretKey(secrets[v.secret.value.name]) in sto.secrets)
  }

  predicate PrefixStored(sto: Store, volumes: seq<Volume>, n: nat, configs: map<string, Configuration>,
                         secrets: map<string, Secret>)
    requires n <= |volumes|
  {
    forall j :: 0 <= j < n ==> VolumeStored(sto, volumes[j], configs, secrets)
  }

  lemma {:induction false} PrefixMore(before: Store, after: Store, volumes: seq<Volume>, i: nat,
                                      configs: map<string, Configuration>, secrets: map<string, Secret>, ok: bool)
    requires i < |volumes| && PrefixStored(before, volumes, i, configs, secrets)
    requires Wrote(before, after, [volumes[i]], configs, secrets) &&
        (ok ==> VolumeStored(after, volumes[i], configs, secrets))
    ensures PrefixStored(after, volumes, if ok then i + 1 else i, configs, secrets)
  {
  }

  lemma {:induction false} WroteNothing(sto: Store, volumes: seq<Volume>, configs: map<string, Configuration>,
                                        secrets: map<string, Secret>)
    requires WellKeyed(sto)
    ensures Wrote(sto, sto, volumes, configs, secrets)
  {
  }

  lemma {:induction false} StoredStays(before: Store, after: Store, configs: map<string, Configuration>,
                                       secrets: map<string, Secret>)
    requires Grows(before, after)
    ensures forall v :: VolumeStored(before, v, configs, secrets) ==> VolumeStored(after, v, configs, secrets)
  {
  }

  lemma {:induction false} WroteMore(before: Store, mid: Store, after: Store, volumes: seq<Volume>, i: nat,
                                     configs: map<string, Configuration>, secrets: map<string, Secret>)
    requires i < |volumes| && Wrote(before, mid, volumes, configs, secrets) &&
        Wrote(mid, after, [volumes[i]], configs, secrets)
    ensures Wrote(before, after, volumes, configs, secrets)
  {
  }

  predicate AppStored(sto: Store, app: Application, configs: map<string, Configuration>, secrets: map<string, Secret>) {
    && AppKey(app) in sto.apps
    && forall j :: 0 <= j < |app.volumes| ==> VolumeStored(sto, app.volumes[j], configs, secrets)
  }

  ghost predicate WroteAll(before: Store, after: Store, apps: map<string, Application>,
                           configs: map<string, Configuration>, secrets: map<string, Secret>) {
    && WellKeyed(after) && Grows(before, after)
    && (forall k :: k in after.apps && k !in before.apps ==>
          exists n :: n in apps && after.apps[k] == apps[n] && k == AppKey(apps[n]))
    && NewConfigsFrom(before, after, configs) && NewSecretsFrom(before, after, secrets)
    && (forall k :: k in after.configs && k !in before.configs ==>
          exists n :: n in apps && k in WrittenConfigs(apps[n].volumes, configs))
    && (forall k :: k in after.secrets && k !in before.secrets ==>
          exists n :: n in apps && k in WrittenSecrets(apps[n].volumes, configs, secrets))
  }

  lemma {:induction false} WroteVolumes(before: Store, mid: Store, after: Store, apps: map<string, Application>,
                                        n: string, configs: map<string, Configuration>, secrets: map<string, Secret>)
    requires n in apps && WroteAll(before, mid, apps, configs, secrets)
    requires Wrote(mid, after, apps[n].volumes, configs, secrets)
    ensures WroteAll(before, after, apps, configs, secrets)
  {
  }

  lemma {:induction false} WroteApp(before: Store, mid: Store, after: Store, apps: map<string, Application>,
                                    n: string, configs: map<string, Configuration>, secrets: map<string, Secret>)
    requires n in apps && WroteAll(before, mid, apps, configs, secrets) && WellKeyed(after)
    requires after == mid ||
             (AppKey(apps[n]) !in mid.apps && after == mid.(apps := mid.apps[AppKey(apps[n]) := apps[n]]))
    ensures WroteAll(before, after, apps, configs, secrets) && Grows(mid, after)
  {
  }

  // what storing volumes may have done, whether or not it got to the end
  ghost predicate Wrote(before: Store, after: Store, volumes: seq<Volume>, configs: map<string, Configuration>,
                        secrets: map<string, Secret>) {
    && WellKeyed(after) && Grows(before, after) && after.apps == before.apps
    && NewConfigsFrom(before, after, configs) && NewSecretsFrom(before, after, secrets)
    && after.configs.Keys <= before.configs.Keys + WrittenConfigs(volumes, configs)
    && after.secrets.Keys <= before.secrets.Keys + WrittenSecrets(volumes, configs, secrets)
  }

  /** What one synchronization with a faithful link does: a mirror stays a mirror, and on success exactly the
      application, the configurations and the secrets it names, each at the last version named, are there. */
  ghost predicate Synced(cloud: Cloud, before: Store, after: Store, info: AppInfo, platform: string, ok: bool) {
    && (Mirrors(before, cloud, platform) ==> Mirrors(after, cloud, platform))
    && (ok ==>
          && cloud.apps(info.name, info.version).Some?
          && var app := cloud.apps(info.name, info.version).value;
             && after.apps.Keys == before.apps.Keys + {AppKey(app)}
             && after.configs.Keys == before.configs.Keys + VersionKeys(CONFIGURATION, ConfigVersions(app.volumes))
             && after.secrets.Keys == before.secrets.Keys + VersionKeys(SECRET, SecretVersions(app.volumes)))
  }

  lemma {:induction false} NothingSynced(cloud: Cloud, sto: Store, info: AppInfo, platform: string)
    ensures Synced(cloud, sto, sto, info, platform, false)
  {
  }

  lemma {:induction false} FaithfulConfigs(cloud: Cloud, infos: map<string, string>, values: seq<ResourceValue>,
                                           platform: string, n: string)
    requires WellNamed(cloud)
    requires forall i :: 0 <= i < |values| ==>
        values[i].config.Some? && AnswersEntry(cloud, CONFIGURATION, infos, values[i])
    ensures var configs := ConfigsOf(values, platform);
            && (n in configs <==> Answered(values, n))
            && (n in configs ==>
                  n in infos && configs[n].name == n && configs[n].version == infos[n] &&
                  FromCloud(configs[n], cloud, platform))
  {
    if values != [] {
      FaithfulConfigs(cloud, infos, values[..|values| - 1], platform, n);
      AnsweredMore(values, n);
    }
  }

  lemma {:induction false} FaithfulSecrets(cloud: Cloud, infos: map<string, string>, values: seq<ResourceValue>,
                                           n: string)
    requires WellNamed(cloud)
    requires forall i :: 0 <= i < |values| ==> values[i].secret.Some? && AnswersEntry(cloud, SECRET, infos, values[i])
    ensures var secrets := SecretsOf(values);
            && (n in secrets <==> Answered(values, n))
            && (n in secrets ==> n in infos && secrets[n].name == n && secrets[n].version == infos[n] &&
                                 cloud.secrets(n, infos[n]) == Some(secrets[n]))
  {
    if values != [] {
      FaithfulSecrets(cloud, infos, values[..|values| - 1], n);
      AnsweredMore(values, n);
    }
  }

  lemma {:induction false} VersionsNamed(volumes: seq<Volume>, n: string)
    ensures n in ConfigVersions(volumes) <==>
            exists i :: 0 <= i < |volumes| && volumes[i].config.Some? && volumes[i].config.value.name == n
    ensures n in SecretVersions(volumes) <==>
            exists i :: 0 <= i < |volumes| && volumes[i].config.None? && volumes[i].secret.Some? &&
                        volumes[i].secret.value.name == n
  {
    if volumes != [] {
      VersionsNamed(volumes[..|volumes| - 1], n);
    }
  }

  // configs and secrets hold one record for each name the volumes name, at the recorded version
  ghost predicate Matching(volumes: seq<Volume>, configs: map<string, Configuration>, secrets: map<string, Secret>) {
    && configs.Keys == ConfigVersions(volumes).Keys && secrets.Keys == SecretVersions(volumes).Keys
    && (forall n :: n in configs ==> configs[n].name == n && configs[n].version == ConfigVersions(volumes)[n])
    && (forall n :: n in secrets ==> secrets[n].name == n && secrets[n].version == SecretVersions(volumes)[n])
  }

  lemma {:induction false} WrittenExactly(volumes: seq<Volume>, configs: map<string, Configuration>,
                                          secrets: map<string, Secret>)
    requires Matching(volumes, configs, secrets)
    ensures WrittenConfigs(volumes, configs) == VersionKeys(CONFIGURATION, ConfigVersions(volumes))
    ensures WrittenSecrets(volumes, configs, secrets) == VersionKeys(SECRET, SecretVersions(volumes))
  {
    forall n | n in ConfigVersions(volumes) ensures ConfigKey(configs[n]) in WrittenConfigs(volumes, configs) {
      VersionsNamed(volumes, n);
    }
    forall n | n in SecretVersions(volumes) ensures SecretKey(secrets[n]) in WrittenSecrets(volumes, configs, secrets) {
      VersionsNamed(volumes, n);
      var i :| 0 <= i < |volumes| && volumes[i].config.None? && volumes[i].secret.Some? &&
          volumes[i].secret.value.name == n;
      assert UsesSecret(volumes[i], configs, secrets);
    }
    forall i | 0 <= i < |volumes| && UsesConfig(volumes[i], configs)
      ensures ConfigKey(configs[volumes[i].config.value.name]) in VersionKeys(CONFIGURATION, ConfigVersions(volumes))
    {
    }
    forall i | 0 <= i < |volumes| && UsesSecret(volumes[i], configs, secrets)
      ensures SecretKey(secrets[volumes[i].secret.value.name]) in VersionKeys(SECRET, SecretVersions(volumes))
    {
    }
  }

  // complete replies from the cloud to the three requests of one synchronization
  ghost predicate Fetched(cloud: Cloud, info: AppInfo, values: seq<ResourceValue>, cValues: seq<ResourceValue>,
                          sValues: seq<ResourceValue>) {
    && Answers(cloud, APPLICATION, map[info.name := info.version], values)
    && (forall i :: 0 <= i < |values| ==> values[i].app.Some?)
    && Answers(cloud, CONFIGURATION, ConfigVersions(VolumesOf(values)), cValues)
    && (forall i :: 0 <= i < |cValues| ==> cValues[i].config.Some?)
    && Answers(cloud, SECRET, SecretVersions(VolumesOf(values)), sValues)
    && (forall i :: 0 <= i < |sValues| ==> sValues[i].secret.Some?)
  }

  // what came of them: some prefix of the writes, all of them on success
  ghost predicate WroteReplies(before: Store, after: Store, values: seq<ResourceValue>, cValues: seq<ResourceValue>,
                               sValues: seq<ResourceValue>, platform: string, ok: bool)
    requires forall i :: 0 <= i < |values| ==> values[i].app.Some?
    requires forall i :: 0 <= i < |cValues| ==> cValues[i].config.Some?
    requires forall i :: 0 <= i < |sValues| ==> sValues[i].secret.Some?
  {
    var apps, configs, secrets := AppsOf(values), ConfigsOf(cValues, platform), SecretsOf(sValues);
    && WroteAll(before, after, apps, configs, secrets)
    && (ok ==> forall n :: n in apps ==> AppStored(after, apps[n], configs, secrets))
  }

  /** One synchronization as it acts on the store: it fails before the first write, or writes what the replies hold. */
  ghost predicate Performed(cloud: Cloud, before: Store, after: Store, info: AppInfo, platform: string, ok: bool) {
    || (!ok && after == before)
    || (exists values, cValues, sValues :: Fetched(cloud, info, values, cValues, sValues) &&
                                           WroteReplies(before, after, values, cValues, sValues, platform, ok))
  }

  lemma {:induction false} PerformedIsSynced(cloud: Cloud, before: Store, after: Store, info: AppInfo,
                                             platform: string, ok: bool)
    requires WellNamed(cloud) && Performed(cloud, before, after, info, platform, ok)
    ensures Synced(cloud, before, after, info, platform, ok)
  {
    if !(!ok && after == before) {
      var values, cValues, sValues :| Fetched(cloud, info, values, cValues, sValues) &&
          WroteReplies(before, after, values, cValues, sValues, platform, ok);
      FaithfulSync(cloud, before, after, info, values, cValues, sValues, platform, ok);
    }
  }

  lemma {:induction false} FaithfulSync(cloud: Cloud, before: Store, after: Store, info: AppInfo,
                                        values: seq<ResourceValue>, cValues: seq<ResourceValue>,
                                        sValues: seq<ResourceValue>, platform: string, ok: bool)
    requires WellNamed(cloud) && Fetched(cloud, info, values, cValues, sValues)
    requires WroteReplies(before, after, values, cValues, sValues, platform, ok)
    ensures Synced(cloud, before, after, info, platform, ok)
  {
    var app := OnlyApp(cloud, info, values);
    var configs, secrets := ConfigsOf(cValues, platform), SecretsOf(sValues);
    var apps := map[app.name := app];
    assert AppsOf(values) == apps && VolumesOf(values) == app.volumes;
    assert WroteAll(before, after, apps, configs, secrets);
    assert ok ==> AppStored(after, apps[app.name], configs, secrets);
    RepliesMatch(cloud, app.volumes, cValues, sValues, platform);
    WrittenExactly(app.volumes, configs, secrets);
    SyncedFromParts(cloud, before, after, info, app, configs, secrets, platform, ok);
  }

  lemma {:induction false} RepliesMatch(cloud: Cloud, volumes: seq<Volume>, cValues: seq<ResourceValue>,
                                        sValues: seq<ResourceValue>, platform: string)
    requires WellNamed(cloud)
    requires Answers(cloud, CONFIGURATION, ConfigVersions(volumes), cValues)
    requires forall i :: 0 <= i < |cValues| ==> cValues[i].config.Some?
    requires Answers(cloud, SECRET, SecretVersions(volumes), sValues)
    requires forall i :: 0 <= i < |sValues| ==> sValues[i].secret.Some?
    ensures var configs, secrets := ConfigsOf(cValues, platform), SecretsOf(sValues);
            && Matching(volumes, configs, secrets)
            && (forall n :: n in configs ==> FromCloud(configs[n], cloud, platform))
            && (forall n :: n in secrets ==> cloud.secrets(secrets[n].name, secrets[n].version) == Some(secrets[n]))
  {
    var configs, secrets := ConfigsOf(cValues, platform), SecretsOf(sValues);
    forall n
      ensures n in configs <==> n in ConfigVersions(volumes)
      ensures n in configs ==> configs[n].name == n && configs[n].version == ConfigVersions(volumes)[n] &&
                               FromCloud(configs[n], cloud, platform)
    {
      FaithfulConfigs(cloud, ConfigVersions(volumes), cValues, platform, n);
    }
    forall n
      ensures n in secrets <==> n in SecretVersions(volumes)
      ensures n in secrets ==> secrets[n].name == n && secrets[n].version == SecretVersions(volumes)[n] &&
                               cloud.secrets(n, secrets[n].version) == Some(secrets[n])
    {
      FaithfulSecrets(cloud, SecretVersions(volumes), sValues, n);
    }
  }

  lemma {:induction false} OnlyApp(cloud: Cloud, info: AppInfo, values: seq<ResourceValue>) returns (app: Application)
    requires WellNamed(cloud) && Answers(cloud, APPLICATION, map[info.name := info.version], values)
    requires forall i :: 0 <= i < |values| ==> values[i].app.Some?
    ensures cloud.apps(info.name, info.version) == Some(app)
    ensures AppsOf(values) == map[app.name := app] && VolumesOf(values) == app.volumes
  {
    assert Answered(values, info.name);
    var names := seq(|values|, i requires 0 <= i < |values| => values[i].info.name);
    assert names[0] == info.name && forall x :: x in {info.name} ==> x in names;
    OrderLength(names, {info.name});
    app := values[0].app.value;
    assert values == [values[0]] && values[..0] == [];
    assert VolumesOf(values) == VolumesOf([]) + app.volumes;
  }

  lemma {:induction false} OneApp(cloud: Cloud, info: AppInfo, values: seq<ResourceValue>)
    requires WellNamed(cloud) && Answers(cloud, APPLICATION, map[info.name := info.version], values)
    requires forall i :: 0 <= i < |values| ==> values[i].app.Some?
    ensures forall m, n :: m in AppsOf(values) && n in AppsOf(values) ==> m == n
  {
    var app := OnlyApp(cloud, info, values);
  }

  lemma {:induction false} SyncedFromParts(cloud: Cloud, before: Store, after: Store, info: AppInfo, app: Application,
                                           configs: map<string, Configuration>, secrets: map<string, Secret>,
                                           platform: string, ok: bool)
    requires cloud.apps(info.name, info.version) == Some(app) && app.name == info.name && app.version == info.version
    requires WroteAll(before, after, map[app.name := app], configs, secrets)
    requires ok ==> AppStored(after, app, configs, secrets)
    requires forall n :: n in configs ==> FromCloud(configs[n], cloud, platform)
    requires forall n :: n in secrets ==> cloud.secrets(secrets[n].name, secrets[n].version) == Some(secrets[n])
    requires WrittenConfigs(app.volumes, configs) == VersionKeys(CONFIGURATION, ConfigVersions(app.volumes))
    requires WrittenSecrets(app.volumes, configs, secrets) == VersionKeys(SECRET, SecretVersions(app.volumes))
    ensures Synced(cloud, before, after, info, platform, ok)
  {
    MirrorsKept(cloud, before, after, app, configs, secrets, platform);
    if ok {
      KeysAdded(before, after, app, configs, secrets);
    }
  }

  lemma {:induction false} MirrorsKept(cloud: Cloud, before: Store, after: Store, app: Application,
                                       configs: map<string, Configuration>, secrets: map<string, Secret>,
                                       platform: string)
    requires cloud.apps(app.name, app.version) == Some(app)
    requires WroteAll(before, after, map[app.name := app], configs, secrets)
    requires forall n :: n in configs ==> FromCloud(configs[n], cloud, platform)
    requires forall n :: n in secrets ==> cloud.secrets(secrets[n].name, secrets[n].version) == Some(secrets[n])
    ensures Mirrors(before, cloud, platform) ==> Mirrors(after, cloud, platform)
  {
  }

  lemma {:induction false} KeysAdded(before: Store, after: Store, app: Application,
                                     configs: map<string, Configuration>, secrets: map<string, Secret>)
    requires WroteAll(before, after, map[app.name := app], configs, secrets) && AppStored(after, app, configs, secrets)
    ensures after.apps.Keys == before.apps.Keys + {AppKey(app)}
    ensures after.configs.Keys == before.configs.Keys + WrittenConfigs(app.volumes, configs)
    ensures after.secrets.Keys == before.secrets.Keys + WrittenSecrets(app.volumes, configs, secrets)
  {
    AppKeyAdded(before, after, app, configs, secrets);
    ConfigKeysAdded(after, app, configs, secrets);
    SecretKeysAdded(after, app, configs, secrets);
    NoOtherKeys(before, after, app, configs, secrets);
  }

  lemma {:induction false} AppKeyAdded(before: Store, after: Store, app: Application,
                                       configs: map<string, Configuration>, secrets: map<string, Secret>)
    requires WroteAll(before, after, map[app.name := app], configs, secrets) && AppKey(app) in after.apps
    ensures after.apps.Keys == before.apps.Keys + {AppKey(app)}
  {
  }

  lemma {:induction false} NoOtherKeys(before: Store, after: Store, app: Application,
                                       configs: map<string, Configuration>, secrets: map<string, Secret>)
    requires WroteAll(before, after, map[app.name := app], configs, secrets)
    ensures before.configs.Keys <= after.configs.Keys <= before.configs.Keys + WrittenConfigs(app.volumes, configs)
    ensures before.secrets.Keys <= after.secrets.Keys <= before.secrets.Keys + WrittenSecrets(app.volumes, configs, secrets)
  {
  }

  lemma {:induction false} ConfigKeysAdded(after: Store, app: Application, configs: map<string, Configuration>,
                                           secrets: map<string, Secret>)
    requires AppStored(after, app, configs, secrets)
    ensures WrittenConfigs(app.volumes, configs) <= after.configs.Keys
  {
  }

  lemma {:induction false} SecretKeysAdded(after: Store, app: Application, configs: map<string, Configuration>,
                                           secrets: map<string, Secret>)
    requires AppStored(after, app, configs, secrets)
    ensures WrittenSecrets(app.volumes, configs, secrets) <= after.secrets.Keys
  {
  }
}
