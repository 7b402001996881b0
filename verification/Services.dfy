/** The pair checkService and checkPort (engine/utils.go): service names first, then host ports by service. */
module Services {
  import opened Model
  import opened Ports

  // ----- checkService -----

  datatype ServiceBook = ServiceBook(users: map<string, seq<string>>, stats: map<string, AppStats>, del: set<string>)

  function UsersOf(users: map<string, seq<string>>, s: string): seq<string> {
    if s in users then users[s] else []
  }

  // append the application to the users of each of its services
  function Enlist(users: map<string, seq<string>>, services: seq<Service>, name: string): map<string, seq<string>> {
    if services == [] then users
    else
      var before, s := Enlist(users, services[..|services| - 1], name), services[|services| - 1].name;
      before[s := UsersOf(before, s) + [name]]
  }

  function EnlistAll(infos: seq<AppInfo>, apps: map<string, Application>): map<string, seq<string>> {
    if infos == [] then map[]
    else
      var before, n := EnlistAll(infos[..|infos| - 1], apps), infos[|infos| - 1].name;
      if n in apps then Enlist(before, apps[n].services, apps[n].name) else before
  }

  // the user that keeps a contested service: the first one present in the stats, else the first
  function FirstPresent(names: seq<string>, stats: map<string, AppStats>, first: string): string {
    if names == [] then first
    else if names[0] in stats then names[0]
    else FirstPresent(names[1..], stats, if first == "" then names[0] else first)
  }

  function RefuseUsers(b: ServiceBook, apps: map<string, Application>, s: string, names: seq<string>,
                       first: string): ServiceBook {
    if names == [] then b
    else
      var before, n := RefuseUsers(b, apps, s, names[..|names| - 1], first), names[|names| - 1];
      if n == first then before
      else before.(stats := Blame(before.stats, AppInfo(n, VersionIn(apps, n)), s, InstanceStats(s, n, UnknownStatus, []),
                                  ServiceTaken(s, n, first)),
                   del := before.del + {n})
  }

  function ContestService(b: ServiceBook, apps: map<string, Application>, s: string): ServiceBook {
    var names := UsersOf(b.users, s);
    if |names| <= 1 then b else RefuseUsers(b, apps, s, names, FirstPresent(names, b.stats, ""))
  }

  function SettleServices(b: ServiceBook, apps: map<string, Application>, order: seq<string>): ServiceBook {
    if order == [] then b
    else ContestService(SettleServices(b, apps, order[..|order| - 1]), apps, order[|order| - 1])
  }

  // ----- checkPort -----

  // owners: the last listed application with a service of that name; ports: services asking for a host port
  datatype PortBook = PortBook(owners: map<string, string>, ports: map<int, seq<string>>,
                               stats: map<string, AppStats>, del: set<string>)

  function EnrollService(b: PortBook, app: Application, svc: Service): PortBook {
    EnrollPorts(b.(owners := b.owners[svc.name := app.name]), app, svc, NonZero(svc.hostPorts))
  }

  // a replicated service is blamed for each host port, another one claims it
  function EnrollPorts(b: PortBook, app: Application, svc: Service, ports: seq<int>): PortBook {
    if svc.replica > 1 then BlameReplicas(b, app, svc, ports) else b.(ports := Claim(b.ports, ports, svc.name))
  }

  function BlameReplicas(b: PortBook, app: Application, svc: Service, ports: seq<int>): PortBook {
    if ports == [] then b
    else
      var before := BlameReplicas(b, app, svc, ports[..|ports| - 1]);
      before.(stats := Blame(before.stats, AppInfo(app.name, app.version), svc.name,
                             InstanceStats(svc.name, "", UnknownStatus, []), ReplicaWithHostPort(svc.name)),
              del := before.del + {app.name})
  }

  function EnrollServices(b: PortBook, app: Application, services: seq<Service>): PortBook {
    if services == [] then b
    else EnrollService(EnrollServices(b, app, services[..|services| - 1]), app, services[|services| - 1])
  }

  function EnrollApps(infos: seq<AppInfo>, apps: map<string, Application>, stats: map<string, AppStats>): PortBook {
    if infos == [] then PortBook(map[], map[], stats, {})
    else
      var before, n := EnrollApps(infos[..|infos| - 1], apps, stats), infos[|infos| - 1].name;
      if n in apps then EnrollServices(before, apps[n], apps[n].services) else before
  }

  function OwnerOf(owners: map<string, string>, s: string): string {
    if s in owners then owners[s] else ""
  }

  predicate HasServiceInstance(stats: map<string, AppStats>, owner: string, s: string) {
    owner in stats && s in stats[owner].instances
  }

  function FavouriteService(names: seq<string>, owners: map<string, string>, stats: map<string, AppStats>,
                            first: string): string {
    if names == [] then first
    else if HasServiceInstance(stats, OwnerOf(owners, names[0]), names[0]) then names[0]
    else FavouriteService(names[1..], owners, stats, if first == "" then names[0] else first)
  }

  function RefuseServices(b: PortBook, apps: map<string, Application>, p: int, names: seq<string>,
                          first: string): PortBook {
    if names == [] then b
    else
      var before, s := RefuseServices(b, apps, p, names[..|names| - 1], first), names[|names| - 1];
      if s == first then before
      else
        var n := OwnerOf(b.owners, s);
        before.(stats := Blame(before.stats, AppInfo(n, VersionIn(apps, n)), s, InstanceStats(s, "", UnknownStatus, []),
                               PortTaken(p, s, first)),
                del := before.del + {n})
  }

  function ContestPort(b: PortBook, apps: map<string, Application>, p: int): PortBook {
    var names := Claimants(b.ports, p);
    if |names| <= 1 then b else RefuseServices(b, apps, p, names, FavouriteService(names, b.owners, b.stats, ""))
  }

  function SettlePorts(b: PortBook, apps: map<string, Application>, order: seq<int>): PortBook {
    if order == [] then b
    else ContestPort(SettlePorts(b, apps, order[..|order| - 1]), apps, order[|order| - 1])
  }

  class ServiceMaps {
    var apps: map<string, Application>
    var stats: map<string, AppStats>
    var update: map<string, AppInfo>

    constructor (apps: map<string, Application>, stats: map<string, AppStats>, update: map<string, AppInfo>)
      ensures this.apps == apps && this.stats == stats && this.update == update
    {
      this.apps, this.stats, this.update := apps, stats, update;
    }

    method CheckService(infos: seq<AppInfo>) returns (ghost order: seq<string>)
      modifies this
      ensures IsOrder(order, EnlistAll(infos, old(apps)).Keys)
      ensures var b := SettleServices(ServiceBook(EnlistAll(infos, old(apps)), old(stats), {}), old(apps), order);
              stats == b.stats && apps == old(apps) - b.del && update == old(update) - b.del
    {
      var users := ListUsers(infos);
      var del: set<string> := {};
      order := [];
      ghost var book := ServiceBook(users, stats, del);
      var rest := users.Keys;
      while rest != {}
        invariant apps == old(apps) && update == old(update)
        invariant rest <= users.Keys && IsOrder(order, users.Keys - rest)
        invariant ServiceBook(users, stats, del) == SettleServices(book, apps, order)
      {
        var s := Pick(rest);
        ghost var before := order;
        ExtendOrder(order, users.Keys - rest, s);
        assert users.Keys - (rest - {s}) == users.Keys - rest + {s};
        order := order + [s];
        assert order[..|order| - 1] == before;
        rest := rest - {s};
        del := RefuseService(users, s, del);
      }
      assert users.Keys - rest == users.Keys;
      apps, update := apps - del, update - del;
    }

    method ListUsers(infos: seq<AppInfo>) returns (users: map<string, seq<string>>)
      ensures users == EnlistAll(infos, apps)
    {
      users := map[];
      for i := 0 to |infos|
        invariant users == EnlistAll(infos[..i], apps)
      {
        assert infos[..i + 1][..i] == infos[..i];
        if infos[i].name in apps {
          var app := apps[infos[i].name];
          ghost var done := users;
          for j := 0 to |app.services|
            invariant users == Enlist(done, app.services[..j], app.name)
          {
            assert app.services[..j + 1][..j] == app.services[..j];
            var s := app.services[j].name;
            users := users[s := (if s in users then users[s] else []) + [app.name]];
          }
          assert app.services[..|app.services|] == app.services;
        }
      }
      assert infos[..|infos|] == infos;
    }

    method RefuseService(users: map<string, seq<string>>, s: string, del0: set<string>) returns (del: set<string>)
      requires s in users
      modifies this`stats
      ensures ServiceBook(users, stats, del) == ContestService(ServiceBook(users, old(stats), del0), apps, s)
    {
      del := del0;
      var names := users[s];
      if |names| <= 1 {
        return;
      }
      var first := FindPresent(names);
      ghost var was := ServiceBook(users, stats, del);
      for j := 0 to |names|
        invariant ServiceBook(users, stats, del) == RefuseUsers(was, apps, s, names[..j], first)
      {
        assert names[..j + 1][..j] == names[..j];
        if names[j] != first {
          stats := Blame(stats, AppInfo(names[j], VersionIn(apps, names[j])), s, InstanceStats(s, names[j], UnknownStatus, []),
                         ServiceTaken(s, names[j], first));
          del := del + {names[j]};
        }
      }
      assert names[..|names|] == names;
    }

    method FindPresent(names: seq<string>) returns (first: string)
      ensures first == FirstPresent(names, stats, "")
    {
      first := "";
      var i := 0;
      while i < |names|
        invariant 0 <= i <= |names|
        invariant FirstPresent(names, stats, "") == FirstPresent(names[i..], stats, first)
      {
        if first == "" {
          first := names[i];
        }
        if names[i] in stats {
          first := names[i];
          return;
        }
        i := i + 1;
      }
    }

    method CheckPort(infos: seq<AppInfo>) returns (ghost order: seq<int>)
      modifies this
      ensures IsOrder(order, EnrollApps(infos, old(apps), old(stats)).ports.Keys)
      ensures var b := SettlePorts(EnrollApps(infos, old(apps), old(stats)), old(apps), order);
              stats == b.stats && apps == old(apps) - b.del && update == old(update) - b.del
    {
      var book := EnrollListed(infos);
      stats := book.stats;
      var del := book.del;
      order := [];
      var rest := book.ports.Keys;
      while rest != {}
        invariant apps == old(apps) && update == old(update)
        invariant rest <= book.ports.Keys && IsOrder(order, book.ports.Keys - rest)
        invariant book.(stats := stats, del := del) == SettlePorts(book, apps, order)
      {
        var p := Pick(rest);
        ghost var before := order;
        ExtendOrder(order, book.ports.Keys - rest, p);
        assert book.ports.Keys - (rest - {p}) == book.ports.Keys - rest + {p};
        order := order + [p];
        assert order[..|order| - 1] == before;
        rest := rest - {p};
        del := RefusePort(book, p, del);
      }
      assert book.ports.Keys - rest == book.ports.Keys;
      apps, update := apps - del, update - del;
    }

    // the first loop of checkPort; the four maps it builds travel together
    method EnrollListed(infos: seq<AppInfo>) returns (book: PortBook)
      ensures book == EnrollApps(infos, apps, stats)
    {
      book := PortBook(map[], map[], stats, {});
      for i := 0 to |infos|
        invariant book == EnrollApps(infos[..i], apps, stats)
      {
        assert infos[..i + 1][..i] == infos[..i];
        if infos[i].name in apps {
          book := EnrollApp(book, apps[infos[i].name]);
        }
      }
      assert infos[..|infos|] == infos;
    }

    method RefusePort(book: PortBook, p: int, del0: set<string>) returns (del: set<string>)
      requires p in book.ports
      modifies this`stats
      ensures book.(stats := stats, del := del) == ContestPort(book.(stats := old(stats), del := del0), apps, p)
    {
      del := del0;
      var names := book.ports[p];
      if |names| <= 1 {
        return;
      }
      var first := FindService(names, book.owners);
      ghost var was := book.(stats := stats, del := del);
      for j := 0 to |names|
        invariant book.(stats := stats, del := del) == RefuseServices(was, apps, p, names[..j], first)
      {
        assert names[..j + 1][..j] == names[..j];
        if names[j] != first {
          var n := OwnerOf(book.owners, names[j]);
          stats := Blame(stats, AppInfo(n, VersionIn(apps, n)), names[j], InstanceStats(names[j], "", UnknownStatus, []),
                         PortTaken(p, names[j], first));
          del := del + {n};
        }
      }
      assert names[..|names|] == names;
    }

    method FindService(names: seq<string>, owners: map<string, string>) returns (first: string)
      ensures first == FavouriteService(names, owners, stats, "")
    {
      first := "";
      var i := 0;
      while i < |names|
        invariant 0 <= i <= |names|
        invariant FavouriteService(names, owners, stats, "") == FavouriteService(names[i..], owners, stats, first)
      {
        var n := OwnerOf(owners, names[i]);
        if first == "" {
          first := names[i];
        }
        if n in stats && names[i] in stats[n].instances {
          first := names[i];
          return;
        }
        i := i + 1;
      }
    }
  }

  method EnrollApp(book0: PortBook, app: Application) returns (book: PortBook)
    ensures book == EnrollServices(book0, app, app.services)
  {
    book := book0;
    for j := 0 to |app.services|
      invariant book == EnrollServices(book0, app, app.services[..j])
    {
      assert app.services[..j + 1][..j] == app.services[..j];
      book := EnrollOne(book, app, app.services[j]);
    }
    assert app.services[..|app.services|] == app.services;
  }

  method EnrollOne(book0: PortBook, app: Application, svc: Service) returns (book: PortBook)
    ensures book == EnrollService(book0, app, svc)
  {
    book := book0.(owners := book0.owners[svc.name := app.name]);
    ghost var owned := book;
    for j := 0 to |svc.hostPorts|
      invariant book == EnrollPorts(owned, app, svc, NonZero(svc.hostPorts[..j]))
    {
      assert svc.hostPorts[..j + 1][..j] == svc.hostPorts[..j];
      var p := svc.hostPorts[j];
      if p == 0 {
        continue;
      }
      EnrollPortsMore(owned, app, svc, NonZero(svc.hostPorts[..j]), p);
      if svc.replica > 1 {
        book := book.(stats := Blame(book.stats, AppInfo(app.name, app.version), svc.name,
                                     InstanceStats(svc.name, "", UnknownStatus, []), ReplicaWithHostPort(svc.name)),
                      del := book.del + {app.name});
      } else {
        book := book.(ports := book.ports[p := (if p in book.ports then book.ports[p] else []) + [svc.name]]);
      }
    }
    assert svc.hostPorts[..|svc.hostPorts|] == svc.hostPorts;
  }

  lemma {:induction false} EnrollPortsMore(b: PortBook, app: Application, svc: Service, ports: seq<int>, p: int)
    ensures var before, after := EnrollPorts(b, app, svc, ports), EnrollPorts(b, app, svc, ports + [p]);
            after == if svc.replica > 1
                     then before.(stats := Blame(before.stats, AppInfo(app.name, app.version), svc.name,
                                                 InstanceStats(svc.name, "", UnknownStatus, []), ReplicaWithHostPort(svc.name)),
                                  del := before.del + {app.name})
                     else before.(ports := before.ports[p := Claimants(before.ports, p) + [svc.name]])
  {
  }
}
