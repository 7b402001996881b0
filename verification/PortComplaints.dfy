/** Which complaint the port check leaves with whom, and its guarantees on the ports of the services themselves. */
module PortComplaints {
  import opened Model
  import opened Ports
  import opened PortExclusion

  /** The host ports of an application are the nonzero ones of every service. */
  lemma {:induction false} HostPortsExactly(services: seq<Service>, p: int)
    ensures p in HostPorts(services) <==> p != 0 && exists i :: 0 <= i < |services| && p in services[i].hostPorts
  {
    if services != [] {
      var front, last := services[..|services| - 1], services[|services| - 1];
      HostPortsExactly(front, p);
      assert services == front + [last];
      if p in last.hostPorts {
        assert services[|front|] == last;
      } else if i :| 0 <= i < |front| && p in front[i].hostPorts {
        assert services[i] == front[i];
      }
    }
  }

  /** Two listed applications that stay have no host port in common, whichever services name it; and one that
      stays with a host port is not replicated. */
  lemma {:induction false} NoSharedPort(infos: seq<AppInfo>, apps: map<string, Application>,
                                        stats: map<string, AppStats>, order: seq<int>, a: AppInfo, b: AppInfo,
                                        i: nat, k: nat, p: int)
    requires (forall n :: n in apps ==> apps[n].name == n) && a in infos && b in infos
    requires a.name in apps && b.name in apps && IsOrder(order, EnrollAll(infos, apps, stats).ports.Keys)
    requires a.name !in Checked(infos, apps, stats, order).del && b.name !in Checked(infos, apps, stats, order).del
    requires p != 0 && i < |apps[a.name].services| && p in apps[a.name].services[i].hostPorts
    requires k < |apps[b.name].services| && p in apps[b.name].services[k].hostPorts
    ensures a.name == b.name && apps[a.name].replica <= 1
  {
    HostPortsExactly(apps[a.name].services, p);
    HostPortsExactly(apps[b.name].services, p);
    Exclusive(infos, apps, stats, order, a.name, b.name, p);
  }

  // what the instance of n that stands for n itself has as its cause
  function OwnCause(stats: map<string, AppStats>, n: string): seq<Complaint> {
    if n in stats && n in stats[n].instances then stats[n].instances[n].cause else []
  }

  function Times(k: nat, c: Complaint): seq<Complaint> {
    seq(k, _ => c)
  }

  lemma {:induction false} BlameCause(apps: map<string, Application>, stats: map<string, AppStats>, m: string,
                                      c: Complaint, n: string)
    ensures OwnCause(BlameApp(apps, stats, m, c), n) == OwnCause(stats, n) + if n == m then [c] else []
  {
  }

  lemma {:induction false} OnceMore(was: seq<Complaint>, names: seq<string>, n: string, c: Complaint)
    requires names != []
    ensures var front, last := names[..|names| - 1], names[|names| - 1];
            was + Times(multiset(front)[n], c) + (if last == n then [c] else []) == was + Times(multiset(names)[n], c)
  {
    assert names == names[..|names| - 1] + [names[|names| - 1]];
  }

  lemma {:induction false} RejectedComplains(b: Book, apps: map<string, Application>, p: int, names: seq<string>,
                                             first: string, n: string)
    ensures OwnCause(RejectAll(b, apps, p, names, first).stats, n) ==
            OwnCause(b.stats, n) + if n == first then [] else Times(multiset(names)[n], PortTaken(p, n, first))
  {
    if names != [] {
      var front, last := names[..|names| - 1], names[|names| - 1];
      RejectedComplains(b, apps, p, front, first, n);
      if last != first {
        BlameCause(apps, RejectAll(b, apps, p, front, first).stats, last, PortTaken(p, last, first), n);
      }
      OnceMore(OwnCause(b.stats, n), names, n, PortTaken(p, n, first));
    }
  }

  /** A contested port: every claimant but the favourite gets, once for each claim, the complaint that names the port,
      itself and the favourite; nobody else gets any. */
  lemma {:induction false} ContestComplains(b: Book, apps: map<string, Application>, p: int, n: string)
    requires p in b.ports
    ensures var names, after := b.ports[p], Contest(b, apps, p);
            if |names| > 1 && n in names && n != Favourite(names, b.stats, "") then
              && n in after.del
              && OwnCause(after.stats, n) == OwnCause(b.stats, n) +
                   seq(multiset(names)[n], _ => PortTaken(p, n, Favourite(names, b.stats, "")))
            else OwnCause(after.stats, n) == OwnCause(b.stats, n) && (n in after.del <==> n in b.del)
  {
    var names := b.ports[p];
    if |names| > 1 {
      RejectedComplains(b, apps, p, names, Favourite(names, b.stats, ""), n);
      RejectedExactly(b, apps, p, names, Favourite(names, b.stats, ""), n);
    }
  }

  // a complaint n may get: it is replicated with a host port, or it lost p to another application that wants p too
  predicate Deserved(infos: seq<AppInfo>, apps: map<string, Application>, n: string, c: Complaint) {
    match c
    case ReplicaWithHostPort(subject) => subject == n && Overreplicated(infos, apps, n)
    case PortTaken(p, subject, winner) =>
      subject == n && winner != n && Competes(infos, apps, n, p) && Competes(infos, apps, winner, p)
    case ServiceTaken(_, _, _) => false
    case ApplyError(_) => false
  }

  ghost predicate Deserving(infos: seq<AppInfo>, apps: map<string, Application>, n: string, was: seq<Complaint>,
                            now: seq<Complaint>) {
    was <= now && forall i :: |was| <= i < |now| ==> Deserved(infos, apps, n, now[i])
  }

  lemma {:induction false} EnrollComplains(infos: seq<AppInfo>, apps: map<string, Application>,
                                           stats: map<string, AppStats>, all: seq<AppInfo>, n: string)
    requires Keyed(apps) && infos <= all
    ensures Deserving(all, apps, n, OwnCause(stats, n), OwnCause(EnrollAll(infos, apps, stats).stats, n))
  {
    if infos != [] {
      var front, last := infos[..|infos| - 1], infos[|infos| - 1].name;
      EnrollComplains(front, apps, stats, all, n);
      assert all[|infos| - 1].name == last;
    }
  }

  lemma {:induction false} SettleComplains(infos: seq<AppInfo>, apps: map<string, Application>,
                                           stats: map<string, AppStats>, order: seq<int>, n: string)
    requires Keyed(apps) && forall p :: p in order ==> p in EnrollAll(infos, apps, stats).ports
    ensures var c := Settle(EnrollAll(infos, apps, stats), apps, order);
            && c.ports == EnrollAll(infos, apps, stats).ports
            && Deserving(infos, apps, n, OwnCause(stats, n), OwnCause(c.stats, n))
  {
    var book := EnrollAll(infos, apps, stats);
    if order == [] {
      EnrollComplains(infos, apps, stats, infos, n);
    } else {
      var front, p := order[..|order| - 1], order[|order| - 1];
      assert p in order && forall q :: q in front ==> q in order;
      SettleComplains(infos, apps, stats, front, n);
      var before := Settle(book, apps, front);
      ContestSettles(before, apps, p, n);
      ContestDeserved(infos, apps, stats, before, p, n);
    }
  }

  // one more contested port keeps the complaints deserved
  lemma {:induction false} ContestDeserved(infos: seq<AppInfo>, apps: map<string, Application>,
                                           stats: map<string, AppStats>, b: Book, p: int, n: string)
    requires Keyed(apps) && b.ports == EnrollAll(infos, apps, stats).ports && p in b.ports
    requires Deserving(infos, apps, n, OwnCause(stats, n), OwnCause(b.stats, n))
    ensures Deserving(infos, apps, n, OwnCause(stats, n), OwnCause(Contest(b, apps, p).stats, n))
  {
    ContestComplains(b, apps, p, n);
    var names, w := b.ports[p], Favourite(b.ports[p], b.stats, "");
    if |names| > 1 && n in names && n != w {
      FavouriteClaims(names, b.stats, "");
      EnrolledExactly(infos, apps, stats, n, p);
      EnrolledExactly(infos, apps, stats, w, p);
      assert Deserved(infos, apps, n, PortTaken(p, n, w));
    }
  }

  /** Over a whole check earlier causes stay in front, and every complaint added is true: it names the application
      itself and either its replicas or a port of its own and another application that competes for it. */
  lemma {:induction false} ComplaintsTrue(infos: seq<AppInfo>, apps: map<string, Application>,
                                          stats: map<string, AppStats>, order: seq<int>, n: string, i: nat)
    requires Keyed(apps) && IsOrder(order, EnrollAll(infos, apps, stats).ports.Keys)
    ensures var was, now := OwnCause(stats, n), OwnCause(Checked(infos, apps, stats, order).stats, n);
            && was <= now
            && (|was| <= i < |now| ==>
                  || (now[i] == ReplicaWithHostPort(n) && Overreplicated(infos, apps, n))
                  || exists p, w :: now[i] == PortTaken(p, n, w) && w != n && Competes(infos, apps, n, p) &&
                                    Competes(infos, apps, w, p))
  {
    SettleComplains(infos, apps, stats, order, n);
    var was, now := OwnCause(stats, n), OwnCause(Checked(infos, apps, stats, order).stats, n);
    if |was| <= i < |now| {
      assert Deserved(infos, apps, n, now[i]);
    }
  }

  /** An application that is replicated with a host port gets that complaint at once, by the first pass. */
  lemma {:induction false} ReplicaComplains(b: Book, apps: map<string, Application>, app: Application)
    ensures var after := Enroll(b, apps, app);
            if app.replica > 1 && HostPorts(app.services) != [] then
              app.name in after.del && after.ports == b.ports &&
              OwnCause(after.stats, app.name) == OwnCause(b.stats, app.name) + [ReplicaWithHostPort(app.name)]
            else after.stats == b.stats && after.del == b.del
  {
  }

  /** Competing and being replicated with a host port, on the services. */
  lemma {:induction false} CompetesExactly(infos: seq<AppInfo>, apps: map<string, Application>, n: string, p: int)
    ensures Competes(infos, apps, n, p) <==>
            && n in apps && (exists i :: 0 <= i < |infos| && infos[i].name == n)
            && apps[n].replica <= 1 && p != 0
            && exists j :: 0 <= j < |apps[n].services| && p in apps[n].services[j].hostPorts
    ensures Overreplicated(infos, apps, n) <==>
            && n in apps && (exists i :: 0 <= i < |infos| && infos[i].name == n)
            && apps[n].replica > 1
            && exists j, q: int :: 0 <= j < |apps[n].services| && q in apps[n].services[j].hostPorts && q != 0
  {
    if n in apps {
      var services := apps[n].services;
      HostPortsExactly(services, p);
      if HostPorts(services) != [] {
        HostPortsExactly(services, HostPorts(services)[0]);
      }
      if j, q: int :| 0 <= j < |services| && q in services[j].hostPorts && q != 0 {
        HostPortsExactly(services, q);
      }
    }
  }

  lemma {:induction false} ClaimExtends(ports: map<int, seq<string>>, claims: seq<int>, name: string, p: int)
    ensures Claimants(ports, p) <= Claimants(Claim(ports, claims, name), p)
  {
    if claims != [] {
      ClaimExtends(ports, claims[..|claims| - 1], name, p);
    }
  }

  /** Claimants queue in the order of the list: whoever is listed later comes behind those listed before. */
  lemma {:induction false} ClaimantsQueue(infos: seq<AppInfo>, apps: map<string, Application>,
                                          stats: map<string, AppStats>, k: nat, p: int)
    requires k <= |infos|
    ensures Claimants(EnrollAll(infos[..k], apps, stats).ports, p) <= Claimants(EnrollAll(infos, apps, stats).ports, p)
  {
    if k < |infos| {
      var front, last := infos[..|infos| - 1], infos[|infos| - 1].name;
      ClaimantsQueue(front, apps, stats, k, p);
      assert front[..k] == infos[..k];
      if last in apps {
        ClaimExtends(EnrollAll(front, apps, stats).ports, HostPorts(apps[last].services), apps[last].name, p);
      }
    } else {
      assert infos[..k] == infos;
    }
  }
}
