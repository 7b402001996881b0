/** checkService then checkPort: the first makes service names unique, and the second needs that to find the
    application behind a service. */
module ServiceExclusion {
  import opened Model
  import opened Ports
  import opened PortExclusion
  import opened Services

  predicate NamedAmong(services: seq<Service>, s: string) {
    exists i :: 0 <= i < |services| && services[i].name == s
  }

  predicate Offers(app: Application, s: string) {
    NamedAmong(app.services, s)
  }

  // some service of that name, with one replica at most, asks for host port p
  predicate AskedAmong(services: seq<Service>, s: string, p: int) {
    exists i :: 0 <= i < |services| && services[i].name == s && AsksAt(services[i], p)
  }

  predicate Asks(app: Application, s: string, p: int) {
    AskedAmong(app.services, s, p)
  }

  predicate AsksAt(svc: Service, p: int) {
    svc.replica <= 1 && p != 0 && p in svc.hostPorts
  }

  /** No service name belongs to two listed applications. */
  ghost predicate UniqueServices(infos: seq<AppInfo>, apps: map<string, Application>) {
    forall a, b, s ::
      Listed(infos, apps, a) && Listed(infos, apps, b) && Offers(apps[a], s) && Offers(apps[b], s) ==> a == b
  }

  /** A service name that asks for host port p belongs to one listed application. */
  ghost predicate OneOwnerAt(infos: seq<AppInfo>, apps: map<string, Application>, p: int) {
    forall a, b, s ::
      Listed(infos, apps, a) && Listed(infos, apps, b) && Asks(apps[a], s, p) && Offers(apps[b], s) ==> a == b
  }

  lemma {:induction false} EnlistExactly(users: map<string, seq<string>>, services: seq<Service>, name: string,
                                         s: string, n: string)
    ensures n in UsersOf(Enlist(users, services, name), s) <==>
            n in UsersOf(users, s) || (n == name && NamedAmong(services, s))
  {
    if services != [] {
      EnlistExactly(users, services[..|services| - 1], name, s, n);
    }
  }

  lemma {:induction false} UsersExactly(infos: seq<AppInfo>, apps: map<string, Application>, s: string, n: string)
    requires Keyed(apps)
    ensures n in UsersOf(EnlistAll(infos, apps), s) <==> Listed(infos, apps, n) && Offers(apps[n], s)
  {
    if infos != [] {
      var front, last := infos[..|infos| - 1], infos[|infos| - 1].name;
      UsersExactly(front, apps, s, n);
      assert Listed(infos, apps, n) <==> Listed(front, apps, n) || (n in apps && n == last);
      if last in apps {
        EnlistExactly(EnlistAll(front, apps), apps[last].services, last, s, n);
      }
    }
  }

  lemma {:induction false} RefusedExactly(b: ServiceBook, apps: map<string, Application>, s: string,
                                          names: seq<string>, first: string, n: string)
    ensures var r := RefuseUsers(b, apps, s, names, first);
            r.users == b.users && (n in r.del <==> n in b.del || (n in names && n != first))
  {
    if names != [] {
      RefusedExactly(b, apps, s, names[..|names| - 1], first, n);
      assert n in names <==> n in names[..|names| - 1] || n == names[|names| - 1];
    }
  }

  lemma {:induction false} PresentUses(names: seq<string>, stats: map<string, AppStats>, first: string)
    ensures FirstPresent(names, stats, first) in names + [first]
    ensures names != [] && first == "" ==> FirstPresent(names, stats, first) in names
  {
    if names != [] {
      PresentUses(names[1..], stats, if first == "" then names[0] else first);
    }
  }

  predicate OneUserLeft(users: seq<string>, del: set<string>) {
    exists w :: w in users && forall n :: n in users && n != w ==> n in del
  }

  lemma {:induction false} ContestLeavesOne(b: ServiceBook, apps: map<string, Application>, s: string)
    ensures var c := ContestService(b, apps, s);
            c.users == b.users && b.del <= c.del &&
              (UsersOf(b.users, s) != [] ==> OneUserLeft(UsersOf(b.users, s), c.del))
  {
    var names := UsersOf(b.users, s);
    if |names| == 1 {
      assert names[0] in names && forall m :: m in names ==> m == names[0];
    } else if |names| > 1 {
      var first := FirstPresent(names, b.stats, "");
      PresentUses(names, b.stats, "");
      forall n ensures n in ContestService(b, apps, s).del <==> n in b.del || (n in names && n != first) {
        RefusedExactly(b, apps, s, names, first, n);
      }
      RefusedExactly(b, apps, s, names, first, "");
    }
  }

  lemma {:induction false} ServicesSettled(b: ServiceBook, apps: map<string, Application>, order: seq<string>)
    ensures var c := SettleServices(b, apps, order);
            && c.users == b.users && b.del <= c.del
            && forall s :: s in order && UsersOf(b.users, s) != [] ==> OneUserLeft(UsersOf(b.users, s), c.del)
  {
    if order != [] {
      var front, last := order[..|order| - 1], order[|order| - 1];
      ServicesSettled(b, apps, front);
      var before := SettleServices(b, apps, front);
      ContestLeavesOne(before, apps, last);
      forall s | s in order && UsersOf(b.users, s) != []
        ensures OneUserLeft(UsersOf(b.users, s), SettleServices(b, apps, order).del)
      {
        assert s in front || s == last;
      }
    }
  }

  function AfterService(infos: seq<AppInfo>, apps: map<string, Application>, stats: map<string, AppStats>,
                        order: seq<string>): ServiceBook {
    SettleServices(ServiceBook(EnlistAll(infos, apps), stats, {}), apps, order)
  }

  /** After checkService, whatever the order, no service name is in two listed applications. */
  lemma {:induction false} ServiceNamesUnique(infos: seq<AppInfo>, apps: map<string, Application>,
                                              stats: map<string, AppStats>, order: seq<string>)
    requires Keyed(apps) && IsOrder(order, EnlistAll(infos, apps).Keys)
    ensures UniqueServices(infos, apps - AfterService(infos, apps, stats, order).del)
  {
    var users, del := EnlistAll(infos, apps), AfterService(infos, apps, stats, order).del;
    ServicesSettled(ServiceBook(users, stats, {}), apps, order);
    var left := apps - del;
    forall a, b, s | Listed(infos, left, a) && Listed(infos, left, b) && Offers(left[a], s) &&
      Offers(left[b], s) ensures a == b {
      UsersExactly(infos, apps, s, a);
      UsersExactly(infos, apps, s, b);
      assert s in order && OneUserLeft(UsersOf(users, s), del);
    }
  }

  // ----- checkPort -----

  lemma {:induction false} BlameExactly(b: PortBook, app: Application, svc: Service, ports: seq<int>)
    ensures var r := BlameReplicas(b, app, svc, ports);
            r.owners == b.owners && r.ports == b.ports && r.del == b.del + if ports == [] then {} else {app.name}
  {
    if ports != [] {
      BlameExactly(b, app, svc, ports[..|ports| - 1]);
    }
  }

  predicate ReplicatedAmong(services: seq<Service>) {
    exists i :: 0 <= i < |services| && ReplicatedAt(services[i])
  }

  predicate ReplicatedAt(svc: Service) {
    svc.replica > 1 && exists p :: p in svc.hostPorts && p != 0
  }

  lemma {:induction false} EnrolledServices(b: PortBook, app: Application, services: seq<Service>, s: string, p: int)
    ensures var r := EnrollServices(b, app, services);
            && (s in Claimants(r.ports, p) <==> s in Claimants(b.ports, p) || AskedAmong(services, s, p))
            && r.del == b.del + (if ReplicatedAmong(services) then {app.name} else {})
            && (if NamedAmong(services, s)
                then s in r.owners && r.owners[s] == app.name
                else (s in r.owners <==> s in b.owners) && (s in r.owners ==> r.owners[s] == b.owners[s]))
  {
    if services != [] {
      var front, svc := services[..|services| - 1], services[|services| - 1];
      EnrolledServices(b, app, front, s, p);
      var before := EnrollServices(b, app, front);
      assert services == front + [svc];
      AmongMore(front, svc, s, p);
      OneEnrolled(before, app, svc, s, p);
    }
  }

  lemma {:induction false} AmongMore(front: seq<Service>, svc: Service, s: string, p: int)
    ensures AskedAmong(front + [svc], s, p) <==> AskedAmong(front, s, p) || (svc.name == s && AsksAt(svc, p))
    ensures ReplicatedAmong(front + [svc]) <==> ReplicatedAmong(front) || ReplicatedAt(svc)
    ensures NamedAmong(front + [svc], s) <==> NamedAmong(front, s) || svc.name == s
  {
    var services := front + [svc];
    assert services[|front|] == svc && forall i :: 0 <= i < |front| ==> services[i] == front[i];
  }

  lemma {:induction false} OneEnrolled(b: PortBook, app: Application, svc: Service, s: string, p: int)
    ensures var r := EnrollService(b, app, svc);
            && (s in Claimants(r.ports, p) <==> s in Claimants(b.ports, p) || (svc.name == s && AsksAt(svc, p)))
            && r.del == b.del + (if ReplicatedAt(svc) then {app.name} else {})
            && r.owners == b.owners[svc.name := app.name]
  {
    var owned, ports := b.(owners := b.owners[svc.name := app.name]), NonZero(svc.hostPorts);
    BlameExactly(owned, app, svc, ports);
    ClaimMembers(b.ports, ports, svc.name, p, s);
    HeadIn(ports);
  }

  lemma {:induction false} EnrolledApps(infos: seq<AppInfo>, apps: map<string, Application>,
                                        stats: map<string, AppStats>, s: string, p: int)
    requires Keyed(apps)
    ensures var b := EnrollApps(infos, apps, stats);
            && (s in Claimants(b.ports, p) <==> exists a :: Listed(infos, apps, a) && Asks(apps[a], s, p))
            && (forall a :: a in b.del <==> Listed(infos, apps, a) && ReplicatedAmong(apps[a].services))
            && (forall a :: Listed(infos, apps, a) && Offers(apps[a], s) ==>
                  s in b.owners && Listed(infos, apps, b.owners[s]) && Offers(apps[b.owners[s]], s))
  {
    if infos != [] {
      var front, last := infos[..|infos| - 1], infos[|infos| - 1].name;
      EnrolledApps(front, apps, stats, s, p);
      assert forall a :: Listed(infos, apps, a) <==> (Listed(front, apps, a) || (a in apps && a == last));
      if last in apps {
        EnrolledServices(EnrollApps(front, apps, stats), apps[last], apps[last].services, s, p);
      }
    }
  }

  lemma {:induction false} RefusedServicesExactly(b: PortBook, apps: map<string, Application>, p: int,
                                                  names: seq<string>, first: string, s: string)
    ensures var r := RefuseServices(b, apps, p, names, first);
            && r.ports == b.ports && r.owners == b.owners && b.del <= r.del
            && (s in names && s != first ==> OwnerOf(b.owners, s) in r.del)
  {
    if names != [] {
      RefusedServicesExactly(b, apps, p, names[..|names| - 1], first, s);
      assert s in names <==> s in names[..|names| - 1] || s == names[|names| - 1];
    }
  }

  lemma {:induction false} FavouriteServiceClaims(names: seq<string>, owners: map<string, string>,
                                                  stats: map<string, AppStats>, first: string)
    ensures FavouriteService(names, owners, stats, first) in names + [first]
    ensures names != [] && first == "" ==> FavouriteService(names, owners, stats, first) in names
  {
    if names != [] {
      FavouriteServiceClaims(names[1..], owners, stats, if first == "" then names[0] else first);
    }
  }

  predicate OneServiceLeft(names: seq<string>, owners: map<string, string>, del: set<string>) {
    exists w :: w in names && forall s :: s in names && s != w ==> OwnerOf(owners, s) in del
  }

  lemma {:induction false} PortLeavesOne(b: PortBook, apps: map<string, Application>, p: int)
    ensures var c := ContestPort(b, apps, p);
            && c.ports == b.ports && c.owners == b.owners && b.del <= c.del
            && (Claimants(b.ports, p) != [] ==> OneServiceLeft(Claimants(b.ports, p), b.owners, c.del))
  {
    var names := Claimants(b.ports, p);
    if |names| == 1 {
      assert names[0] in names && forall m :: m in names ==> m == names[0];
    } else if |names| > 1 {
      var first := FavouriteService(names, b.owners, b.stats, "");
      FavouriteServiceClaims(names, b.owners, b.stats, "");
      forall s ensures s in names && s != first ==> OwnerOf(b.owners, s) in ContestPort(b, apps, p).del {
        RefusedServicesExactly(b, apps, p, names, first, s);
      }
      RefusedServicesExactly(b, apps, p, names, first, "");
    }
  }

  lemma {:induction false} PortsSettled(b: PortBook, apps: map<string, Application>, order: seq<int>)
    ensures var c := SettlePorts(b, apps, order);
            && c.ports == b.ports && c.owners == b.owners && b.del <= c.del
            && forall p :: p in order && Claimants(b.ports, p) != [] ==>
              OneServiceLeft(Claimants(b.ports, p), b.owners, c.del)
  {
    if order != [] {
      var front, last := order[..|order| - 1], order[|order| - 1];
      PortsSettled(b, apps, front);
      PortLeavesOne(SettlePorts(b, apps, front), apps, last);
      forall p | p in order && Claimants(b.ports, p) != []
        ensures OneServiceLeft(Claimants(b.ports, p), b.owners, SettlePorts(b, apps, order).del)
      {
        assert p in front || p == last;
      }
    }
  }

  function AfterPort(infos: seq<AppInfo>, apps: map<string, Application>, stats: map<string, AppStats>,
                     order: seq<int>): PortBook {
    SettlePorts(EnrollApps(infos, apps, stats), apps, order)
  }

  /** When the service names that ask for port p have one owner each, checkPort leaves p under at most one of
      them, and its application without a replicated service with a host port, whatever the order. */
  lemma {:induction false} ServicePortsExclusive(infos: seq<AppInfo>, apps: map<string, Application>,
                                                 stats: map<string, AppStats>, order: seq<int>, a: string, b: string,
                                                 s: string, t: string, p: int)
    requires Keyed(apps) && IsOrder(order, EnrollApps(infos, apps, stats).ports.Keys) && OneOwnerAt(infos, apps, p)
    requires var left := apps - AfterPort(infos, apps, stats, order).del;
             Listed(infos, left, a) && Listed(infos, left, b)
    requires Asks(apps[a], s, p) && Asks(apps[b], t, p)
    ensures s == t && a == b && !ReplicatedAmong(apps[a].services)
  {
    var book := EnrollApps(infos, apps, stats);
    EnrolledApps(infos, apps, stats, s, p);
    EnrolledApps(infos, apps, stats, t, p);
    PortsSettled(book, apps, order);
    assert Offers(apps[a], s) && Offers(apps[b], t);
    assert p in order;
    var del := AfterPort(infos, apps, stats, order).del;
    var names := Claimants(book.ports, p);
    assert OneServiceLeft(names, book.owners, del);
    assert OwnerOf(book.owners, s) == a && OwnerOf(book.owners, t) == b;
  }

  /** The two checks in a row: what is left listed shares no service name and no host port. */
  lemma {:induction false} ServiceThenPort(infos: seq<AppInfo>, apps: map<string, Application>,
                                           stats: map<string, AppStats>, sOrder: seq<string>, pOrder: seq<int>,
                                           a: string, b: string)
    requires Keyed(apps) && IsOrder(sOrder, EnlistAll(infos, apps).Keys)
    requires var first := AfterService(infos, apps, stats, sOrder);
             var middle := apps - first.del;
             && IsOrder(pOrder, EnrollApps(infos, middle, first.stats).ports.Keys)
             && var left := middle - AfterPort(infos, middle, first.stats, pOrder).del;
                Listed(infos, left, a) && Listed(infos, left, b)
    ensures forall s :: Offers(apps[a], s) && Offers(apps[b], s) ==> a == b
    ensures forall s, t, p :: Asks(apps[a], s, p) && Asks(apps[b], t, p) ==> s == t && a == b
  {
    var first := AfterService(infos, apps, stats, sOrder);
    var middle := apps - first.del;
    ServiceNamesUnique(infos, apps, stats, sOrder);
    assert Listed(infos, middle, a) && Listed(infos, middle, b) && middle[a] == apps[a] && middle[b] == apps[b];
    forall s | Offers(apps[a], s) && Offers(apps[b], s) ensures a == b {
      assert Offers(middle[a], s) && Offers(middle[b], s);
    }
    forall s, t, p | Asks(apps[a], s, p) && Asks(apps[b], t, p) ensures s == t && a == b {
      ServicePortsExclusive(infos, middle, first.stats, pOrder, a, b, s, t, p);
    }
  }

  // ----- one contested port -----

  // n owns a service name in the list that is not the favourite
  predicate OwnsLoser(owners: map<string, string>, names: seq<string>, first: string, n: string) {
    exists s :: s in names && s != first && OwnerOf(owners, s) == n
  }

  lemma {:induction false} RefusedOwnersExactly(b: PortBook, apps: map<string, Application>, p: int,
                                                names: seq<string>, first: string, n: string)
    ensures n in RefuseServices(b, apps, p, names, first).del <==> n in b.del || OwnsLoser(b.owners, names, first, n)
  {
    if names != [] {
      var front, last := names[..|names| - 1], names[|names| - 1];
      RefusedOwnersExactly(b, apps, p, front, first, n);
      assert forall s :: s in names <==> s in front || s == last;
    }
  }

  lemma {:induction false} SoleContest(b: PortBook, apps: map<string, Application>, order: seq<int>, p: int)
    requires forall q :: q in order && q != p ==> |Claimants(b.ports, q)| <= 1
    requires forall i, j :: 0 <= i < j < |order| ==> order[i] != order[j]
    ensures SettlePorts(b, apps, order) == if p in order then ContestPort(b, apps, p) else b
  {
    if order != [] {
      var front, last := order[..|order| - 1], order[|order| - 1];
      SoleContest(b, apps, front, p);
      assert p in order <==> p in front || last == p;
      assert last in order;
      if last != p && p in front {
        PortLeavesOne(b, apps, p);
      }
    }
  }

  // n is rejected for its replicas, or for a service name that lost port p
  ghost predicate RefusedFor(infos: seq<AppInfo>, apps: map<string, Application>, stats: map<string, AppStats>, p: int,
                             n: string) {
    var book := EnrollApps(infos, apps, stats);
    var names := Claimants(book.ports, p);
    || (Listed(infos, apps, n) && ReplicatedAmong(apps[n].services))
    || (|names| > 1 && OwnsLoser(book.owners, names, FavouriteService(names, book.owners, book.stats, ""), n))
  }

  /** The exact outcome of checkPort, for every order, when no other port is contested. */
  lemma {:induction false} OneContestExactly(infos: seq<AppInfo>, apps: map<string, Application>,
                                             stats: map<string, AppStats>, order: seq<int>, p: int, n: string)
    requires Keyed(apps) && IsOrder(order, EnrollApps(infos, apps, stats).ports.Keys)
    requires forall q :: q != p ==> |Claimants(EnrollApps(infos, apps, stats).ports, q)| <= 1
    ensures n in AfterPort(infos, apps, stats, order).del <==> RefusedFor(infos, apps, stats, p, n)
  {
    var book := EnrollApps(infos, apps, stats);
    var names := Claimants(book.ports, p);
    EnrolledApps(infos, apps, stats, "", p);
    SoleContest(book, apps, order, p);
    if |names| > 1 {
      assert p in book.ports;
      RefusedOwnersExactly(book, apps, p, names, FavouriteService(names, book.owners, book.stats, ""), n);
    }
  }

  /** And so exactly when it leaves that port to two applications. */
  lemma {:induction false} PortLeftSharedExactly(infos: seq<AppInfo>, apps: map<string, Application>,
                                                 stats: map<string, AppStats>, order: seq<int>, p: int)
    requires Keyed(apps) && IsOrder(order, EnrollApps(infos, apps, stats).ports.Keys)
    requires forall q :: q != p ==> |Claimants(EnrollApps(infos, apps, stats).ports, q)| <= 1
    ensures var left := apps - AfterPort(infos, apps, stats, order).del;
            (exists a, b :: a != b && AsksListed(infos, left, a, p) && AsksListed(infos, left, b, p)) <==>
            exists a, b :: a != b && AsksListed(infos, apps, a, p) && AsksListed(infos, apps, b, p) &&
                           !RefusedFor(infos, apps, stats, p, a) && !RefusedFor(infos, apps, stats, p, b)
  {
    var left := apps - AfterPort(infos, apps, stats, order).del;
    forall a
      ensures AsksListed(infos, left, a, p) <==> AsksListed(infos, apps, a, p) && !RefusedFor(infos, apps, stats, p, a)
    {
      OneContestExactly(infos, apps, stats, order, p, a);
      assert a in left <==> a in apps && !RefusedFor(infos, apps, stats, p, a);
      assert a in left ==> left[a] == apps[a];
    }
  }

  // a listed application asks for port p under some service name
  ghost predicate AsksListed(infos: seq<AppInfo>, apps: map<string, Application>, a: string, p: int) {
    Listed(infos, apps, a) && exists s :: Asks(apps[a], s, p)
  }

  function PlainApp(name: string, service: string, ports: seq<int>): Application {
    Application(name, "1", OtherWorkload, 0, 1, [Service(service, 1, ports, [])], [])
  }

  lemma {:induction false} EnrollPlain(b: PortBook, name: string, service: string, ports: seq<int>)
    requires |ports| <= 1
    ensures var app := PlainApp(name, service, ports);
            EnrollServices(b, app, app.services) ==
            b.(owners := b.owners[service := name], ports := Claim(b.ports, NonZero(ports), service))
  {
  }

  /** checkPort alone: a and c both ask for port 1; the service s of a also belongs to b, so the refusal of s
      hits b, and a and c keep the port together. */
  lemma {:induction false} PortCheckNeedsUniqueServices(infos: seq<AppInfo>, apps: map<string, Application>)
    requires infos == [AppInfo("c", "1"), AppInfo("a", "1"), AppInfo("b", "1")]
    requires apps == map["c" := PlainApp("c", "t", [1]), "a" := PlainApp("a", "s", [1]), "b" := PlainApp("b", "s", [])]
    ensures EnrollApps(infos, apps, map[]).ports.Keys == {1}
    ensures AfterPort(infos, apps, map[], [1]).del == {"b"}
    ensures HostPorts(apps["a"].services) == [1] && HostPorts(apps["c"].services) == [1]
  {
    ThreeEnrolled(infos, apps);
    var b := EnrollApps(infos, apps, map[]);
    RefusalHitsOwner(b, apps);
    assert [1][..|[1]| - 1] == [];
    assert SettlePorts(b, apps, [1]) == ContestPort(SettlePorts(b, apps, []), apps, 1);
    OnePort("a", "s");
    OnePort("c", "t");
  }

  lemma {:induction false} ThreeEnrolled(infos: seq<AppInfo>, apps: map<string, Application>)
    requires infos == [AppInfo("c", "1"), AppInfo("a", "1"), AppInfo("b", "1")]
    requires apps == map["c" := PlainApp("c", "t", [1]), "a" := PlainApp("a", "s", [1]), "b" := PlainApp("b", "s", [])]
    ensures EnrollApps(infos, apps, map[]) == PortBook(map["t" := "c", "s" := "b"], map[1 := ["t", "s"]], map[], {})
  {
    var i1, i2 := infos[..1], infos[..2];
    assert i1[..|i1| - 1] == [] && i2[..|i2| - 1] == i1 && infos[..|infos| - 1] == i2;
    assert EnrollApps([], apps, map[]) == PortBook(map[], map[], map[], {});
    assert [1][..|[1]| - 1] == [] && NonZero([1]) == [1] && NonZero([]) == [];
    EnrollNext(i1, apps, "c", "t", [1]);
    ClaimOne(map[], 1, "t");
    assert EnrollApps(i1, apps, map[]) == PortBook(map["t" := "c"], map[1 := ["t"]], map[], {}) by {
      assert Claimants(map[], 1) + ["t"] == ["t"];
    }
    EnrollNext(i2, apps, "a", "s", [1]);
    ClaimOne(map[1 := ["t"]], 1, "s");
    assert EnrollApps(i2, apps, map[]) == PortBook(map["t" := "c", "s" := "a"], map[1 := ["t", "s"]], map[], {}) by {
      assert ["t"] + ["s"] == ["t", "s"];
    }
    EnrollNext(infos, apps, "b", "s", []);
  }

  lemma {:induction false} EnrollNext(infos: seq<AppInfo>, apps: map<string, Application>, name: string,
                                      service: string, ports: seq<int>)
    requires infos != [] && infos[|infos| - 1].name == name && name in apps &&
        apps[name] == PlainApp(name, service, ports)
    requires |ports| <= 1
    ensures var before := EnrollApps(infos[..|infos| - 1], apps, map[]);
            EnrollApps(infos, apps, map[]) ==
            before.(owners := before.owners[service := name], ports := Claim(before.ports, NonZero(ports), service))
  {
    EnrollStep(infos, apps, map[]);
    EnrollPlain(EnrollApps(infos[..|infos| - 1], apps, map[]), name, service, ports);
  }

  lemma {:induction false} EnrollStep(infos: seq<AppInfo>, apps: map<string, Application>, stats: map<string, AppStats>)
    requires infos != [] && infos[|infos| - 1].name in apps
    ensures var n := infos[|infos| - 1].name;
            EnrollApps(infos, apps, stats) ==
            EnrollServices(EnrollApps(infos[..|infos| - 1], apps, stats), apps[n], apps[n].services)
  {
  }

  lemma {:induction false} RefusalHitsOwner(b: PortBook, apps: map<string, Application>)
    requires b == PortBook(map["t" := "c", "s" := "b"], map[1 := ["t", "s"]], map[], {})
    ensures ContestPort(b, apps, 1).del == {"b"}
  {
    var names := ["t", "s"];
    assert names[1..] == ["s"] && names[1..][1..] == [] && names[..|names| - 1] == ["t"] && ["t"][..|["t"]| - 1] == [];
    assert FavouriteService(["s"], b.owners, map[], "t") == FavouriteService([], b.owners, map[], "t") == "t";
    assert FavouriteService(names, b.owners, map[], "") == "t";
    assert RefuseServices(b, apps, 1, ["t"], "t") == b;
  }

  lemma {:induction false} OnePort(name: string, service: string)
    ensures HostPorts(PlainApp(name, service, [1]).services) == [1]
  {
  }
}
