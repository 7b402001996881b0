/** Who keeps a contested service name or port, and what exactly the others are told. */
module ServiceComplaints {
  import opened Model
  import opened Ports
  import opened Services
  import PortExclusion
  import PortComplaints
  import ServiceExclusion

  /** The user that keeps a service is the first one with an entry in the stats, else the first one. */
  lemma {:induction false} FirstPresentMeans(names: seq<string>, stats: map<string, AppStats>, first: string)
    requires first != "" || (names != [] && names[0] != "")
    ensures var w := FirstPresent(names, stats, first);
            if exists i :: 0 <= i < |names| && names[i] in stats then
              exists i :: 0 <= i < |names| && w == names[i] && w in stats && forall j :: 0 <= j < i ==> names[j] !in stats
            else w == if first != "" then first else names[0]
  {
    if names != [] && names[0] !in stats {
      var rest, next := names[1..], if first == "" then names[0] else first;
      FirstPresentMeans(rest, stats, next);
      assert forall i :: 0 <= i < |rest| ==> rest[i] == names[i + 1];
      if i :| 0 <= i < |names| && names[i] in stats {
        assert rest[i - 1] in stats;
        var k :| 0 <= k < |rest| && FirstPresent(rest, stats, next) == rest[k] && rest[k] in stats &&
          forall j :: 0 <= j < k ==> rest[j] !in stats;
        forall j | 0 <= j < k + 1 ensures names[j] !in stats {
          if j > 0 { assert names[j] == rest[j - 1]; }
        }
        assert names[k + 1] == rest[k];
      }
    }
  }

  // the owner of the service has an instance of it
  predicate Runs(owners: map<string, string>, stats: map<string, AppStats>, s: string) {
    var n := if s in owners then owners[s] else "";
    n in stats && s in stats[n].instances
  }

  /** The service that keeps a port is the first one whose application has an instance of it, else the first one. */
  lemma {:induction false} FavouriteServiceMeans(names: seq<string>, owners: map<string, string>,
                                                 stats: map<string, AppStats>, first: string)
    requires first != "" || (names != [] && names[0] != "")
    ensures forall s :: Runs(owners, stats, s) <==>
              if s in owners then owners[s] in stats && s in stats[owners[s]].instances
              else "" in stats && s in stats[""].instances
    ensures var w := FavouriteService(names, owners, stats, first);
            if exists i :: 0 <= i < |names| && Runs(owners, stats, names[i]) then
              exists i :: 0 <= i < |names| && w == names[i] && Runs(owners, stats, w) &&
                          forall j :: 0 <= j < i ==> !Runs(owners, stats, names[j])
            else w == if first != "" then first else names[0]
  {
    if names != [] && !Runs(owners, stats, names[0]) {
      var rest, next := names[1..], if first == "" then names[0] else first;
      FavouriteServiceMeans(rest, owners, stats, next);
      assert forall i :: 0 <= i < |rest| ==> rest[i] == names[i + 1];
      if i :| 0 <= i < |names| && Runs(owners, stats, names[i]) {
        assert Runs(owners, stats, rest[i - 1]);
        var k :| 0 <= k < |rest| && FavouriteService(rest, owners, stats, next) == rest[k] &&
          Runs(owners, stats, rest[k]) && forall j :: 0 <= j < k ==> !Runs(owners, stats, rest[j]);
        forall j | 0 <= j < k + 1 ensures !Runs(owners, stats, names[j]) {
          if j > 0 { assert names[j] == rest[j - 1]; }
        }
        assert names[k + 1] == rest[k];
      }
    }
  }

  /** Offering a service and asking for a port, on the services. */
  lemma {:induction false} AsksExactly(app: Application, s: string, p: int)
    ensures ServiceExclusion.Offers(app, s) <==> exists i :: 0 <= i < |app.services| && app.services[i].name == s
    ensures ServiceExclusion.Asks(app, s, p) <==>
            exists i :: 0 <= i < |app.services| && app.services[i].name == s && app.services[i].replica <= 1 &&
                        p != 0 && p in app.services[i].hostPorts
  {
    if i :| 0 <= i < |app.services| && app.services[i].name == s && app.services[i].replica <= 1 && p != 0 &&
            p in app.services[i].hostPorts {
      assert ServiceExclusion.AsksAt(app.services[i], p);
    }
  }

  // what the instance of n under key has as its cause
  function CauseAt(stats: map<string, AppStats>, n: string, key: string): seq<Complaint> {
    if n in stats && key in stats[n].instances then stats[n].instances[key].cause else []
  }

  lemma {:induction false} BlameCause(stats: map<string, AppStats>, app: AppInfo, own: string, blank: InstanceStats,
                                      c: Complaint, n: string, key: string)
    requires blank.cause == []
    ensures CauseAt(Blame(stats, app, own, blank, c), n, key) ==
            CauseAt(stats, n, key) + if n == app.name && key == own then [c] else []
  {
  }

  function Times(k: nat, c: Complaint): seq<Complaint> {
    seq(k, _ => c)
  }

  lemma {:induction false} OnceMore(was: seq<Complaint>, k: nat, c: Complaint)
    ensures was + Times(k, c) + [c] == was + Times(k + 1, c)
  {
  }

  lemma {:induction false} CountMore(names: seq<string>, n: string)
    requires names != []
    ensures multiset(names)[n] == multiset(names[..|names| - 1])[n] + if names[|names| - 1] == n then 1 else 0
  {
    assert names == names[..|names| - 1] + [names[|names| - 1]];
  }

  lemma {:induction false} RefusedComplains(b: ServiceBook, apps: map<string, Application>, s: string,
                                            names: seq<string>, first: string, n: string, key: string)
    ensures CauseAt(RefuseUsers(b, apps, s, names, first).stats, n, key) ==
            CauseAt(b.stats, n, key) +
              Times(if key != s || n == first then 0 else multiset(names)[n], ServiceTaken(s, n, first))
  {
    if names != [] {
      var front, last := names[..|names| - 1], names[|names| - 1];
      RefusedComplains(b, apps, s, front, first, n, key);
      CountMore(names, n);
      if last != first {
        BlameCause(RefuseUsers(b, apps, s, front, first).stats, AppInfo(last, VersionIn(apps, last)), s,
                   InstanceStats(s, last, UnknownStatus, []), ServiceTaken(s, last, first), n, key);
        if last == n && key == s {
          OnceMore(CauseAt(b.stats, n, key), multiset(front)[n], ServiceTaken(s, n, first));
        }
      }
    }
  }

  /** A contested service name: each user but the one that keeps it gets the complaint that names the service, itself
      and the keeper, under that service and once for each time it is listed; no other cause changes. */
  lemma {:induction false} ContestServiceComplains(b: ServiceBook, apps: map<string, Application>, s: string, n: string,
                                                   key: string)
    requires s in b.users
    ensures var names, after := b.users[s], ContestService(b, apps, s);
            var first := FirstPresent(names, b.stats, "");
            CauseAt(after.stats, n, key) ==
            if |names| > 1 && key == s && n != first then
              CauseAt(b.stats, n, key) + seq(multiset(names)[n], _ => ServiceTaken(s, n, first))
            else CauseAt(b.stats, n, key)
  {
    RefusedComplains(b, apps, s, b.users[s], FirstPresent(b.users[s], b.stats, ""), n, key);
  }

  lemma {:induction false} RefusedServiceComplains(b: PortBook, apps: map<string, Application>, p: int,
                                                   names: seq<string>, first: string, n: string, s: string)
    ensures CauseAt(RefuseServices(b, apps, p, names, first).stats, n, s) ==
            CauseAt(b.stats, n, s) +
              Times(if n != OwnerOf(b.owners, s) || s == first then 0 else multiset(names)[s], PortTaken(p, s, first))
  {
    if names != [] {
      var front, last := names[..|names| - 1], names[|names| - 1];
      RefusedServiceComplains(b, apps, p, front, first, n, s);
      CountMore(names, s);
      if last != first {
        var m := OwnerOf(b.owners, last);
        BlameCause(RefuseServices(b, apps, p, front, first).stats, AppInfo(m, VersionIn(apps, m)), last,
                   InstanceStats(last, "", UnknownStatus, []), PortTaken(p, last, first), n, s);
        if last == s && n == m {
          OnceMore(CauseAt(b.stats, n, s), multiset(front)[s], PortTaken(p, s, first));
        }
      }
    }
  }

  /** A contested port: each service but the one that keeps it leaves the complaint that names the port, itself and the
      keeper with its owner, once for each time it asks; no other cause changes. */
  lemma {:induction false} ContestPortComplains(b: PortBook, apps: map<string, Application>, p: int, n: string,
                                                s: string)
    requires p in b.ports
    ensures var names, after := b.ports[p], ContestPort(b, apps, p);
            var first := FavouriteService(names, b.owners, b.stats, "");
            CauseAt(after.stats, n, s) ==
            if |names| > 1 && n == (if s in b.owners then b.owners[s] else "") && s != first then
              CauseAt(b.stats, n, s) + seq(multiset(names)[s], _ => PortTaken(p, s, first))
            else CauseAt(b.stats, n, s)
  {
    RefusedServiceComplains(b, apps, p, b.ports[p], FavouriteService(b.ports[p], b.owners, b.stats, ""), n, s);
  }

  /** A replicated service gets its complaint once for each nonzero host port, and its application is rejected. */
  lemma {:induction false} ReplicasComplain(b: PortBook, app: Application, svc: Service, ports: seq<int>, n: string,
                                            s: string)
    ensures var after := BlameReplicas(b, app, svc, ports);
            && CauseAt(after.stats, n, s) ==
               CauseAt(b.stats, n, s) +
                 seq(if n == app.name && s == svc.name then |ports| else 0, _ => ReplicaWithHostPort(svc.name))
            && after.del == b.del + (if ports == [] then {} else {app.name})
            && after.ports == b.ports && after.owners == b.owners
  {
    if ports != [] {
      ReplicasComplain(b, app, svc, ports[..|ports| - 1], n, s);
    }
  }

  lemma {:induction false} OwnerAfter(b: PortBook, app: Application, services: seq<Service>, s: string)
    ensures var owners := EnrollServices(b, app, services).owners;
            if exists i :: 0 <= i < |services| && services[i].name == s then s in owners && owners[s] == app.name
            else (s in owners <==> s in b.owners) && (s in owners ==> owners[s] == b.owners[s])
  {
    if services != [] {
      var front, last := services[..|services| - 1], services[|services| - 1];
      OwnerAfter(b, app, front, s);
      assert services == front + [last];
      if i :| 0 <= i < |front| && front[i].name == s {
        assert services[i] == front[i];
      }
      OwnerKept(EnrollServices(b, app, front), app, last);
    }
  }

  lemma {:induction false} OwnerKept(b: PortBook, app: Application, svc: Service)
    ensures EnrollService(b, app, svc).owners == b.owners[svc.name := app.name]
  {
    ReplicasComplain(b.(owners := b.owners[svc.name := app.name]), app, svc, NonZero(svc.hostPorts), "", "");
  }

  /** The application behind a service name is the last listed one with such a service. */
  lemma {:induction false} OwnerIsLast(infos: seq<AppInfo>, apps: map<string, Application>,
                                       stats: map<string, AppStats>, s: string)
    returns (i: int)
    requires PortExclusion.Keyed(apps)
    ensures var owners := EnrollApps(infos, apps, stats).owners;
            if s in owners then
              && 0 <= i < |infos| && owners[s] == infos[i].name && infos[i].name in apps
              && ServiceExclusion.Offers(apps[infos[i].name], s)
              && forall j :: i < j < |infos| && infos[j].name in apps ==>
                               !ServiceExclusion.Offers(apps[infos[j].name], s)
            else forall j :: 0 <= j < |infos| && infos[j].name in apps ==>
                               !ServiceExclusion.Offers(apps[infos[j].name], s)
  {
    i := -1;
    if infos != [] {
      var front, last := infos[..|infos| - 1], infos[|infos| - 1].name;
      i := OwnerIsLast(front, apps, stats, s);
      if last in apps {
        OwnerAfter(EnrollApps(front, apps, stats), apps[last], apps[last].services, s);
        if ServiceExclusion.Offers(apps[last], s) {
          i := |infos| - 1;
        }
      }
    }
  }

  lemma {:induction false} EnlistExtends(users: map<string, seq<string>>, services: seq<Service>, name: string, s: string)
    ensures UsersOf(users, s) <= UsersOf(Enlist(users, services, name), s)
  {
    if services != [] {
      EnlistExtends(users, services[..|services| - 1], name, s);
    }
  }

  /** Users queue in the order of the list. */
  lemma {:induction false} UsersQueue(infos: seq<AppInfo>, apps: map<string, Application>, k: nat, s: string)
    requires k <= |infos|
    ensures UsersOf(EnlistAll(infos[..k], apps), s) <= UsersOf(EnlistAll(infos, apps), s)
  {
    if k < |infos| {
      var front, last := infos[..|infos| - 1], infos[|infos| - 1].name;
      UsersQueue(front, apps, k, s);
      assert front[..k] == infos[..k];
      if last in apps {
        EnlistExtends(EnlistAll(front, apps), apps[last].services, apps[last].name, s);
      }
    } else {
      assert infos[..k] == infos;
    }
  }

  lemma {:induction false} ServicesExtend(b: PortBook, app: Application, services: seq<Service>, p: int)
    ensures Claimants(b.ports, p) <= Claimants(EnrollServices(b, app, services).ports, p)
  {
    if services != [] {
      var front, svc := services[..|services| - 1], services[|services| - 1];
      ServicesExtend(b, app, front, p);
      var before := EnrollServices(b, app, front);
      PortComplaints.ClaimExtends(before.ports, NonZero(svc.hostPorts), svc.name, p);
      ReplicasComplain(before.(owners := before.owners[svc.name := app.name]), app, svc, NonZero(svc.hostPorts), "", "");
    }
  }

  /** Services queue for a port in the order of the list. */
  lemma {:induction false} ServicesQueue(infos: seq<AppInfo>, apps: map<string, Application>,
                                         stats: map<string, AppStats>, k: nat, p: int)
    requires k <= |infos|
    ensures Claimants(EnrollApps(infos[..k], apps, stats).ports, p) <= Claimants(EnrollApps(infos, apps, stats).ports, p)
  {
    if k < |infos| {
      var front, last := infos[..|infos| - 1], infos[|infos| - 1].name;
      ServicesQueue(front, apps, stats, k, p);
      assert front[..k] == infos[..k];
      if last in apps {
        ServicesExtend(EnrollApps(front, apps, stats), apps[last], apps[last].services, p);
      }
    } else {
      assert infos[..k] == infos;
    }
  }

  // what later has beyond stats under n: entries and instances keep all but their causes, and new ones are blank
  ghost predicate OnlyCauses(stats: map<string, AppStats>, later: map<string, AppStats>, n: string, version: string,
                             key: string, blank: InstanceStats)
  {
    && (n in stats ==> n in later && later[n].(instances := map[]) == stats[n].(instances := map[]))
    && (n !in stats && n in later ==>
          later[n].(instances := map[]) == AppStats(AppInfo(n, version), UnknownStatus, [], map[]))
    && (n in stats && key in stats[n].instances ==>
          key in later[n].instances && later[n].instances[key].(cause := []) == stats[n].instances[key].(cause := []))
    && (n in later && key in later[n].instances && !(n in stats && key in stats[n].instances) ==>
          later[n].instances[key].(cause := []) == blank)
  }

  lemma {:induction false} RefusedFrame(b: ServiceBook, apps: map<string, Application>, s: string, names: seq<string>,
                                        first: string, n: string, key: string)
    ensures OnlyCauses(b.stats, RefuseUsers(b, apps, s, names, first).stats, n, VersionIn(apps, n), key,
                       InstanceStats(key, n, UnknownStatus, []))
  {
    if names != [] {
      RefusedFrame(b, apps, s, names[..|names| - 1], first, n, key);
    }
  }

  /** Contesting a service name touches nothing of the stats but causes; a missing entry or instance starts blank, under
      the name of the service and of the application. */
  lemma {:induction false} ContestServiceFrame(b: ServiceBook, apps: map<string, Application>, s: string, n: string,
                                               key: string)
    ensures var was, now := b.stats, ContestService(b, apps, s).stats;
            && (n in was ==> n in now && now[n].info == was[n].info && now[n].status == was[n].status &&
                             now[n].cause == was[n].cause)
            && (n !in was && n in now ==>
                  now[n].info == AppInfo(n, if n in apps then apps[n].version else "") &&
                  now[n].status == UnknownStatus && now[n].cause == [])
            && (n in was && key in was[n].instances ==>
                  key in now[n].instances && now[n].instances[key].(cause := []) == was[n].instances[key].(cause := []))
            && (n in now && key in now[n].instances && !(n in was && key in was[n].instances) ==>
                  now[n].instances[key].(cause := []) == InstanceStats(key, n, UnknownStatus, []))
  {
    var names := UsersOf(b.users, s);
    RefusedFrame(b, apps, s, names, FirstPresent(names, b.stats, ""), n, key);
  }

  lemma {:induction false} RefusedServiceFrame(b: PortBook, apps: map<string, Application>, p: int, names: seq<string>,
                                               first: string, n: string, key: string)
    ensures OnlyCauses(b.stats, RefuseServices(b, apps, p, names, first).stats, n, VersionIn(apps, n), key,
                       InstanceStats(key, "", UnknownStatus, []))
  {
    if names != [] {
      RefusedServiceFrame(b, apps, p, names[..|names| - 1], first, n, key);
    }
  }

  /** Likewise contesting a port; here a new instance has no application name. */
  lemma {:induction false} ContestPortFrame(b: PortBook, apps: map<string, Application>, p: int, n: string, key: string)
    ensures var was, now := b.stats, ContestPort(b, apps, p).stats;
            && (n in was ==> n in now && now[n].info == was[n].info && now[n].status == was[n].status &&
                             now[n].cause == was[n].cause)
            && (n !in was && n in now ==>
                  now[n].info == AppInfo(n, if n in apps then apps[n].version else "") &&
                  now[n].status == UnknownStatus && now[n].cause == [])
            && (n in was && key in was[n].instances ==>
                  key in now[n].instances && now[n].instances[key].(cause := []) == was[n].instances[key].(cause := []))
            && (n in now && key in now[n].instances && !(n in was && key in was[n].instances) ==>
                  now[n].instances[key].(cause := []) == InstanceStats(key, "", UnknownStatus, []))
  {
    var names := Claimants(b.ports, p);
    RefusedServiceFrame(b, apps, p, names, FavouriteService(names, b.owners, b.stats, ""), n, key);
  }
}
