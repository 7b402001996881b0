/** Host-port collisions between applications (engine/utils.go checkMultiAppPort).

    The Go code ranges over a map of ports in random order while it rewrites the stats it consults.
    Book is the state of that loop; Settle runs it for one explicit order of the ports. */
module Ports {
  import opened Model

  datatype Book = Book(ports: map<int, seq<string>>, stats: map<string, AppStats>, del: set<string>)

  function NonZero(ports: seq<int>): (r: seq<int>)
    ensures forall p :: p in r <==> p in ports && p != 0
  {
    if ports == [] then []
    else
      var front := NonZero(ports[..|ports| - 1]);
      var last := ports[|ports| - 1];
      assert forall p :: p in ports <==> p in ports[..|ports| - 1] || p == last;
      if last == 0 then front else front + [last]
  }

  // nonzero host ports of an application, in order
  function HostPorts(services: seq<Service>): seq<int> {
    if services == [] then []
    else HostPorts(services[..|services| - 1]) + NonZero(services[|services| - 1].hostPorts)
  }

  function Claimants(ports: map<int, seq<string>>, p: int): seq<string> {
    if p in ports then ports[p] else []
  }

  // append name to the claimants of every port in claims
  function Claim(ports: map<int, seq<string>>, claims: seq<int>, name: string): map<int, seq<string>> {
    if claims == [] then ports
    else
      var before := Claim(ports, claims[..|claims| - 1], name);
      var p := claims[|claims| - 1];
      before[p := Claimants(before, p) + [name]]
  }

  // find or create the two stats entries and append to the cause
  function Blame(stats: map<string, AppStats>, app: AppInfo, key: string, blank: InstanceStats, c: Complaint):
    map<string, AppStats>
  {
    var stat := if app.name in stats then stats[app.name] else AppStats(app, UnknownStatus, [], map[]);
    var iStat := if key in stat.instances then stat.instances[key] else blank;
    stats[app.name := stat.(instances := stat.instances[key := iStat.(cause := iStat.cause + [c])])]
  }

  // version of an application map entry; a missing entry reads as a zero record
  function VersionIn(apps: map<string, Application>, name: string): string {
    if name in apps then apps[name].version else ""
  }

  function BlameApp(apps: map<string, Application>, stats: map<string, AppStats>, name: string, c: Complaint):
    map<string, AppStats>
  {
    Blame(stats, AppInfo(name, VersionIn(apps, name)), name, InstanceStats("", name, UnknownStatus, []), c)
  }

  // first pass: one listed application
  function Enroll(b: Book, apps: map<string, Application>, app: Application): Book {
    var claims := HostPorts(app.services);
    if claims == [] then b
    else if app.replica > 1 then
      b.(stats := Blame(b.stats, AppInfo(app.name, app.version), app.name,
                        InstanceStats("", app.name, UnknownStatus, []), ReplicaWithHostPort(app.name)),
         del := b.del + {app.name})
    else b.(ports := Claim(b.ports, claims, app.name))
  }

  function EnrollAll(infos: seq<AppInfo>, apps: map<string, Application>, stats: map<string, AppStats>): Book {
    if infos == [] then Book(map[], stats, {})
    else
      var before := EnrollAll(infos[..|infos| - 1], apps, stats);
      var name := infos[|infos| - 1].name;
      if name in apps then Enroll(before, apps, apps[name]) else before
  }

  predicate HasInstance(stats: map<string, AppStats>, name: string) {
    name in stats && name in stats[name].instances
  }

  // the claimant that keeps a contested port
  function Favourite(names: seq<string>, stats: map<string, AppStats>, first: string): string {
    if names == [] then first
    else if HasInstance(stats, names[0]) then names[0]
    else Favourite(names[1..], stats, if first == "" then names[0] else first)
  }

  // blame every claimant but the favourite
  function RejectAll(b: Book, apps: map<string, Application>, p: int, names: seq<string>, first: string): Book {
    if names == [] then b
    else
      var before := RejectAll(b, apps, p, names[..|names| - 1], first);
      var name := names[|names| - 1];
      if name == first then before
      else before.(stats := BlameApp(apps, before.stats, name, PortTaken(p, name, first)), del := before.del + {name})
  }

  function Contest(b: Book, apps: map<string, Application>, p: int): Book {
    var names := Claimants(b.ports, p);
    if |names| <= 1 then b else RejectAll(b, apps, p, names, Favourite(names, b.stats, ""))
  }

  // second pass, visiting the ports in the given order
  function Settle(b: Book, apps: map<string, Application>, order: seq<int>): Book {
    if order == [] then b
    else Contest(Settle(b, apps, order[..|order| - 1]), apps, order[|order| - 1])
  }

  /** The maps the check rewrites in place. */
  class RoundMaps {
    var apps: map<string, Application>
    var stats: map<string, AppStats>
    var update: map<string, AppInfo>

    constructor (apps: map<string, Application>, stats: map<string, AppStats>, update: map<string, AppInfo>)
      ensures this.apps == apps && this.stats == stats && this.update == update
    {
      this.apps, this.stats, this.update := apps, stats, update;
    }

    method CheckMultiAppPort(infos: seq<AppInfo>) returns (ghost order: seq<int>)
      requires forall k :: k in apps ==> apps[k].name == k
      modifies this
      ensures IsOrder(order, EnrollAll(infos, old(apps), old(stats)).ports.Keys)
      ensures var b := Settle(EnrollAll(infos, old(apps), old(stats)), old(apps), order);
              stats == b.stats && apps == old(apps) - b.del && update == old(update) - b.del
    {
      var ports: map<int, seq<string>> := map[];
      var del: set<string> := {};
      for i := 0 to |infos|
        invariant apps == old(apps) && update == old(update)
        invariant Book(ports, stats, del) == EnrollAll(infos[..i], apps, old(stats))
      {
        assert infos[..i + 1][..i] == infos[..i];
        if infos[i].name in apps {
          var app := apps[infos[i].name];
          var noHostPort := FindNoHostPort(app.services);
          if !noHostPort {
            if app.replica > 1 {
              stats := Blame(stats, AppInfo(app.name, app.version), app.name,
                             InstanceStats("", app.name, UnknownStatus, []), ReplicaWithHostPort(app.name));
              del := del + {app.name};
            } else {
              ports := ClaimAll(ports, app);
            }
          }
        }
      }
      assert infos[..|infos|] == infos;
      ghost var book := Book(ports, stats, del);
      order := [];
      var rest := ports.Keys;
      while rest != {}
        invariant apps == old(apps) && update == old(update)
        invariant rest <= ports.Keys && IsOrder(order, ports.Keys - rest)
        invariant Book(ports, stats, del) == Settle(book, apps, order)
      {
        var p := Pick(rest);
        ghost var before := order;
        ExtendOrder(order, ports.Keys - rest, p);
        assert ports.Keys - (rest - {p}) == ports.Keys - rest + {p};
        order := order + [p];
        assert order[..|order| - 1] == before;
        rest := rest - {p};
        del := ContestPort(ports, p, del);
      }
      assert ports.Keys - rest == ports.Keys;
      apps, update := apps - del, update - del;
    }

    method ContestPort(ports: map<int, seq<string>>, p: int, del0: set<string>) returns (del: set<string>)
      requires p in ports
      modifies this`stats
      ensures Book(ports, stats, del) == Contest(Book(ports, old(stats), del0), apps, p)
    {
      del := del0;
      var names := ports[p];
      if |names| <= 1 {
        return;
      }
      var first := FindFavourite(names);
      ghost var was := Book(ports, stats, del);
      for j := 0 to |names|
        invariant Book(ports, stats, del) == RejectAll(was, apps, p, names[..j], first)
      {
        assert names[..j + 1][..j] == names[..j];
        if names[j] != first {
          stats := BlameApp(apps, stats, names[j], PortTaken(p, names[j], first));
          del := del + {names[j]};
        }
      }
      assert names[..|names|] == names;
    }

    method FindFavourite(names: seq<string>) returns (first: string)
      ensures first == Favourite(names, stats, "")
    {
      first := "";
      var i := 0;
      while i < |names|
        invariant 0 <= i <= |names|
        invariant Favourite(names, stats, "") == Favourite(names[i..], stats, first)
      {
        if first == "" {
          first := names[i];
        }
        if names[i] in stats && names[i] in stats[names[i]].instances {
          first := names[i];
          return;
        }
        i := i + 1;
      }
    }
  }

  method FindNoHostPort(services: seq<Service>) returns (flag: bool)
    ensures flag <==> HostPorts(services) == []
  {
    flag := true;
    for i := 0 to |services|
      invariant flag
      invariant HostPorts(services[..i]) == []
    {
      assert services[..i + 1][..i] == services[..i];
      var ports := services[i].hostPorts;
      for j := 0 to |ports|
        invariant flag && NonZero(ports[..j]) == []
      {
        assert ports[..j + 1][..j] == ports[..j];
        if ports[j] != 0 {
          flag := false;
          assert ports[j] in NonZero(ports);
          HostPortsHold(services, i, ports[j]);
          return;
        }
      }
      assert ports[..|ports|] == ports;
    }
    assert services[..|services|] == services;
  }

  method ClaimAll(ports0: map<int, seq<string>>, app: Application) returns (ports: map<int, seq<string>>)
    ensures ports == Claim(ports0, HostPorts(app.services), app.name)
  {
    ports := ports0;
    var services := app.services;
    for i := 0 to |services|
      invariant ports == Claim(ports0, HostPorts(services[..i]), app.name)
    {
      assert services[..i + 1][..i] == services[..i];
      ports := ClaimPorts(ports, services[i].hostPorts, app.name);
      ClaimConcat(ports0, HostPorts(services[..i]), NonZero(services[i].hostPorts), app.name);
    }
    assert services[..|services|] == services;
  }

  method ClaimPorts(ports0: map<int, seq<string>>, own: seq<int>, name: string) returns (ports: map<int, seq<string>>)
    ensures ports == Claim(ports0, NonZero(own), name)
  {
    ports := ports0;
    for j := 0 to |own|
      invariant ports == Claim(ports0, NonZero(own[..j]), name)
    {
      assert own[..j + 1][..j] == own[..j];
      if own[j] != 0 {
        assert NonZero(own[..j + 1])[..|NonZero(own[..j])|] == NonZero(own[..j]);
        ports := ports[own[j] := (if own[j] in ports then ports[own[j]] else []) + [name]];
      }
    }
    assert own[..|own|] == own;
  }

  lemma {:induction false} ClaimOne(ports: map<int, seq<string>>, p: int, name: string)
    ensures Claim(ports, [p], name) == ports[p := Claimants(ports, p) + [name]]
  {
    assert [p][..0] == [];
  }

  lemma {:induction false} ClaimConcat(ports: map<int, seq<string>>, a: seq<int>, b: seq<int>, name: string)
    ensures Claim(ports, a + b, name) == Claim(Claim(ports, a, name), b, name)
  {
    if b == [] {
      assert a + b == a;
    } else {
      ClaimConcat(ports, a, b[..|b| - 1], name);
      assert (a + b)[..|a + b| - 1] == a + b[..|b| - 1];
    }
  }

  lemma {:induction false} HostPortsHold(services: seq<Service>, i: nat, p: int)
    requires i < |services| && p in NonZero(services[i].hostPorts)
    ensures p in HostPorts(services)
  {
    if i < |services| - 1 {
      HostPortsHold(services[..|services| - 1], i, p);
    }
  }
}
