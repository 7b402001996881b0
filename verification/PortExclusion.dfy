/** What checkMultiAppPort guarantees, for every order in which the ports are visited. */
module PortExclusion {
  import opened Model
  import opened Ports

  predicate Keyed(apps: map<string, Application>) {
    forall k :: k in apps ==> apps[k].name == k
  }

  predicate Listed(infos: seq<AppInfo>, apps: map<string, Application>, n: string) {
    n in apps && exists i :: 0 <= i < |infos| && infos[i].name == n
  }

  // a listed application that competes for host port p
  predicate Competes(infos: seq<AppInfo>, apps: map<string, Application>, n: string, p: int) {
    Listed(infos, apps, n) && apps[n].replica <= 1 && p in HostPorts(apps[n].services)
  }

  predicate Overreplicated(infos: seq<AppInfo>, apps: map<string, Application>, n: string) {
    Listed(infos, apps, n) && apps[n].replica > 1 && HostPorts(apps[n].services) != []
  }

  predicate Recorded(stats: map<string, AppStats>, n: string) {
    HasInstance(stats, n) && stats[n].instances[n].cause != []
  }

  function Checked(infos: seq<AppInfo>, apps: map<string, Application>, stats: map<string, AppStats>,
                   order: seq<int>): Book {
    Settle(EnrollAll(infos, apps, stats), apps, order)
  }

  lemma {:induction false} ClaimMembers(ports: map<int, seq<string>>, claims: seq<int>, name: string, p: int, n: string)
    ensures n in Claimants(Claim(ports, claims, name), p) <==>
            n in Claimants(ports, p) || (n == name && p in claims)
  {
    if claims != [] {
      var front, q := claims[..|claims| - 1], claims[|claims| - 1];
      assert forall x :: x in claims <==> x in front || x == q;
      ClaimMembers(ports, front, name, p, n);
    }
  }

  lemma {:induction false} EnrolledExactly(infos: seq<AppInfo>, apps: map<string, Application>,
                                           stats: map<string, AppStats>, n: string, p: int)
    requires Keyed(apps)
    ensures var b := EnrollAll(infos, apps, stats);
            && (n in Claimants(b.ports, p) <==> Competes(infos, apps, n, p))
            && (n in b.del <==> Overreplicated(infos, apps, n))
            && (n in b.del ==> Recorded(b.stats, n))
  {
    if infos != [] {
      var front, last := infos[..|infos| - 1], infos[|infos| - 1].name;
      EnrolledExactly(front, apps, stats, n, p);
      assert Listed(infos, apps, n) <==> Listed(front, apps, n) || (n in apps && n == last);
      if last in apps {
        ClaimMembers(EnrollAll(front, apps, stats).ports, HostPorts(apps[last].services), last, p, n);
      }
    }
  }

  lemma {:induction false} RejectedExactly(b: Book, apps: map<string, Application>, p: int, names: seq<string>,
                                           first: string, n: string)
    ensures var r := RejectAll(b, apps, p, names, first);
            && r.ports == b.ports
            && (n in r.del <==> n in b.del || (n in names && n != first))
            && (n in r.del && (n in b.del ==> Recorded(b.stats, n)) ==> Recorded(r.stats, n))
  {
    if names != [] {
      var front, last := names[..|names| - 1], names[|names| - 1];
      RejectedExactly(b, apps, p, front, first, n);
      assert n in names <==> n in front || n == last;
    }
  }

  lemma {:induction false} FavouriteClaims(names: seq<string>, stats: map<string, AppStats>, first: string)
    ensures Favourite(names, stats, first) in names + [first]
    ensures names != [] && first == "" ==> Favourite(names, stats, first) in names
  {
    if names != [] {
      var next := if first == "" then names[0] else first;
      FavouriteClaims(names[1..], stats, next);
      assert names[0] in names && forall x :: x in names[1..] ==> x in names;
      if first == "" && names[1..] != [] && next == "" {
        FavouriteClaims(names[1..], stats, "");
      }
    }
  }

  // all claimants of p but one are rejected, and only when there are two
  predicate Settled(b: Book, p: int) {
    exists w :: w in Claimants(b.ports, p) && forall n :: n in Claimants(b.ports, p) && n != w ==> n in b.del
  }

  predicate Rival(b: Book, p: int, n: string) {
    n in Claimants(b.ports, p) && exists w :: w in Claimants(b.ports, p) && w != n
  }

  /** One contested port: it ends settled, rejects only names with a rival, and records every rejection. */
  lemma {:induction false} ContestSettles(b: Book, apps: map<string, Application>, p: int, n: string)
    ensures var c := Contest(b, apps, p);
            && c.ports == b.ports && b.del <= c.del
            && (p in b.ports && b.ports[p] != [] ==> Settled(c, p))
            && (n in c.del ==> n in b.del || Rival(b, p, n))
            && (n in c.del && (n in b.del ==> Recorded(b.stats, n)) ==> Recorded(c.stats, n))
  {
    var names := Claimants(b.ports, p);
    if |names| == 1 {
      assert names[0] in names && forall m :: m in names ==> m == names[0];
    } else if |names| > 1 {
      var first := Favourite(names, b.stats, "");
      FavouriteClaims(names, b.stats, "");
      RejectedExactly(b, apps, p, names, first, n);
      RejectionSpreads(b, apps, p, names, first);
    }
  }

  lemma {:induction false} RejectionSpreads(b: Book, apps: map<string, Application>, p: int, names: seq<string>,
                                            first: string)
    ensures var del := RejectAll(b, apps, p, names, first).del;
            b.del <= del && forall x :: x in names && x != first ==> x in del
  {
    forall x
      ensures x in b.del || (x in names && x != first) ==> x in RejectAll(b, apps, p, names, first).del
    {
      RejectedExactly(b, apps, p, names, first, x);
    }
  }

  lemma {:induction false} SettleFacts(b: Book, apps: map<string, Application>, order: seq<int>, n: string)
    ensures var c := Settle(b, apps, order);
            && c.ports == b.ports && b.del <= c.del
            && (forall p :: p in order && p in b.ports && b.ports[p] != [] ==> Settled(c, p))
            && (n in c.del ==> n in b.del || exists p :: p in order && Rival(b, p, n))
            && (n in c.del && (n in b.del ==> Recorded(b.stats, n)) ==> Recorded(c.stats, n))
  {
    if order != [] {
      var front, last := order[..|order| - 1], order[|order| - 1];
      SettleFacts(b, apps, front, n);
      var before := Settle(b, apps, front);
      ContestSettles(before, apps, last, n);
      forall p | p in order && p in b.ports && b.ports[p] != [] ensures Settled(Contest(before, apps, last), p) {
        assert p in front || p == last;
      }
      assert last in order;
    }
  }

  /** Exclusivity: whatever the order, no two listed applications that remain share a host port, and
      none with a host port is replicated. */
  lemma {:induction false} Exclusive(infos: seq<AppInfo>, apps: map<string, Application>,
                                     stats: map<string, AppStats>, order: seq<int>, a: string, b: string, p: int)
    requires Keyed(apps) && IsOrder(order, EnrollAll(infos, apps, stats).ports.Keys)
    requires var left := apps - Checked(infos, apps, stats, order).del;
             Listed(infos, left, a) && Listed(infos, left, b)
    requires p in HostPorts(apps[a].services) && p in HostPorts(apps[b].services)
    ensures a == b && apps[a].replica <= 1
  {
    var book := EnrollAll(infos, apps, stats);
    EnrolledExactly(infos, apps, stats, a, p);
    EnrolledExactly(infos, apps, stats, b, p);
    SettleFacts(book, apps, order, a);
    SettleFacts(book, apps, order, b);
    assert p in order;
    var c := Settle(book, apps, order);
    assert Settled(c, p);
  }

  /** A rejection is justified by the listed applications alone and leaves a cause behind. */
  lemma {:induction false} JustifiedAndRecorded(infos: seq<AppInfo>, apps: map<string, Application>,
                                                stats: map<string, AppStats>, order: seq<int>, n: string)
    requires Keyed(apps) && IsOrder(order, EnrollAll(infos, apps, stats).ports.Keys)
    requires n in Checked(infos, apps, stats, order).del
    ensures Overreplicated(infos, apps, n) ||
            exists p, w :: w != n && Competes(infos, apps, n, p) && Competes(infos, apps, w, p)
    ensures Recorded(Checked(infos, apps, stats, order).stats, n)
  {
    var book := EnrollAll(infos, apps, stats);
    EnrolledExactly(infos, apps, stats, n, 0);
    SettleFacts(book, apps, order, n);
    if n !in book.del {
      var p :| p in order && Rival(book, p, n);
      var w :| w in Claimants(book.ports, p) && w != n;
      EnrolledExactly(infos, apps, stats, n, p);
      EnrolledExactly(infos, apps, stats, w, p);
    }
  }

  /** Conversely, a listed application that is replicated with a host port is always rejected, and of two
      that share a port at least one is. */
  lemma {:induction false} ConflictsAreRejected(infos: seq<AppInfo>, apps: map<string, Application>,
                                                stats: map<string, AppStats>, order: seq<int>, n: string, w: string,
                                                p: int)
    requires Keyed(apps) && IsOrder(order, EnrollAll(infos, apps, stats).ports.Keys)
    ensures var del := Checked(infos, apps, stats, order).del;
            && (Overreplicated(infos, apps, n) ==> n in del)
            && (n != w && Competes(infos, apps, n, p) && Competes(infos, apps, w, p) ==> n in del || w in del)
  {
    var book := EnrollAll(infos, apps, stats);
    EnrolledExactly(infos, apps, stats, n, p);
    SettleFacts(book, apps, order, n);
    var del := Checked(infos, apps, stats, order).del;
    if n != w && Competes(infos, apps, n, p) && Competes(infos, apps, w, p) && n !in del && w !in del {
      Exclusive(infos, apps, stats, order, n, w, p);
    }
  }

  // what an entry may gain: nothing if the name was not rejected, else a longer cause on its own instance,
  // in a blank entry and a blank instance where there were none
  predicate OnlyBlamed(stats: map<string, AppStats>, later: map<string, AppStats>, del: set<string>, n: string,
                       version: string) {
    if n !in del then
      (n in later <==> n in stats) && (n in stats ==> later[n] == stats[n])
    else
      n in later && n in later[n].instances &&
      var entry := if n in stats then stats[n] else AppStats(AppInfo(n, version), UnknownStatus, [], map[]);
      var was := if n in entry.instances then entry.instances[n] else InstanceStats("", n, UnknownStatus, []);
      var mine := later[n].instances[n];
      was.cause < mine.cause && later[n] == entry.(instances := entry.instances[n := was.(cause := mine.cause)])
  }

  lemma {:induction false} OnlyBlamedStep(stats: map<string, AppStats>, b: Book, app: AppInfo, c: Complaint,
                                          n: string, version: string)
    requires OnlyBlamed(stats, b.stats, b.del, n, version) && (app.name == n ==> app.version == version)
    ensures var m := app.name;
            OnlyBlamed(stats, Blame(b.stats, app, m, InstanceStats("", m, UnknownStatus, []), c), b.del + {m}, n, version)
  {
  }

  lemma {:induction false} RejectFrame(stats: map<string, AppStats>, b: Book, apps: map<string, Application>, p: int,
                                       names: seq<string>, first: string, n: string)
    requires OnlyBlamed(stats, b.stats, b.del, n, VersionIn(apps, n))
    ensures var r := RejectAll(b, apps, p, names, first); OnlyBlamed(stats, r.stats, r.del, n, VersionIn(apps, n))
  {
    if names != [] {
      var front, last := names[..|names| - 1], names[|names| - 1];
      RejectFrame(stats, b, apps, p, front, first, n);
      OnlyBlamedStep(stats, RejectAll(b, apps, p, front, first), AppInfo(last, VersionIn(apps, last)),
                     PortTaken(p, last, first), n, VersionIn(apps, n));
    }
  }

  lemma {:induction false} EnrollFrame(infos: seq<AppInfo>, apps: map<string, Application>,
                                       stats: map<string, AppStats>, n: string)
    requires Keyed(apps)
    ensures var b := EnrollAll(infos, apps, stats); OnlyBlamed(stats, b.stats, b.del, n, VersionIn(apps, n))
  {
    if infos != [] {
      var front, last := infos[..|infos| - 1], infos[|infos| - 1].name;
      EnrollFrame(front, apps, stats, n);
      if last in apps {
        OnlyBlamedStep(stats, EnrollAll(front, apps, stats), AppInfo(apps[last].name, apps[last].version),
                       ReplicaWithHostPort(apps[last].name), n, VersionIn(apps, n));
      }
    }
  }

  lemma {:induction false} SettleFrame(stats: map<string, AppStats>, b: Book, apps: map<string, Application>,
                                       order: seq<int>, n: string)
    requires OnlyBlamed(stats, b.stats, b.del, n, VersionIn(apps, n))
    ensures var c := Settle(b, apps, order); OnlyBlamed(stats, c.stats, c.del, n, VersionIn(apps, n))
  {
    if order != [] {
      var front, last := order[..|order| - 1], order[|order| - 1];
      SettleFrame(stats, b, apps, front, n);
      var before := Settle(b, apps, front);
      var names := Claimants(before.ports, last);
      RejectFrame(stats, before, apps, last, names, Favourite(names, before.stats, ""), n);
    }
  }

  /** The stats of an application that stays are untouched; a rejected one keeps everything it had, or gets a
      blank entry, and only its own instance's cause grows. */
  lemma {:induction false} StatsFrame(infos: seq<AppInfo>, apps: map<string, Application>,
                                      stats: map<string, AppStats>, order: seq<int>, n: string)
    requires Keyed(apps)
    ensures var c := Checked(infos, apps, stats, order);
            if n !in c.del then (n in c.stats <==> n in stats) && (n in stats ==> c.stats[n] == stats[n])
            else
              && n in c.stats && n in c.stats[n].instances
              && var cause := c.stats[n].instances[n].cause;
                 && (n in stats && n in stats[n].instances ==>
                       && stats[n].instances[n].cause < cause
                       && c.stats[n] == stats[n].(instances :=
                            stats[n].instances[n := stats[n].instances[n].(cause := cause)]))
                 && (n in stats && n !in stats[n].instances ==>
                       && cause != []
                       && c.stats[n] == stats[n].(instances :=
                            stats[n].instances[n := InstanceStats("", n, UnknownStatus, cause)]))
                 && (n !in stats ==>
                       && cause != []
                       && c.stats[n] == AppStats(AppInfo(n, if n in apps then apps[n].version else ""), UnknownStatus, [],
                                                 map[n := InstanceStats("", n, UnknownStatus, cause)]))
  {
    EnrollFrame(infos, apps, stats, n);
    SettleFrame(stats, EnrollAll(infos, apps, stats), apps, order, n);
  }

  /** The favourite is the first claimant with an instance in the stats, else the first claimant. */
  lemma {:induction false} FavouriteMeans(names: seq<string>, stats: map<string, AppStats>, first: string)
    requires first != "" || (names != [] && names[0] != "")
    ensures var w := Favourite(names, stats, first);
            if exists i :: 0 <= i < |names| && names[i] in stats && names[i] in stats[names[i]].instances then
              exists i :: 0 <= i < |names| && w == names[i] && w in stats && w in stats[w].instances &&
                forall j :: 0 <= j < i ==> !(names[j] in stats && names[j] in stats[names[j]].instances)
            else w == if first != "" then first else names[0]
  {
    if names != [] {
      var rest := names[1..];
      if !HasInstance(stats, names[0]) {
        FavouriteMeans(rest, stats, if first == "" then names[0] else first);
        if i :| 0 <= i < |names| && HasInstance(stats, names[i]) {
          assert HasInstance(stats, rest[i - 1]);
          var k :| 0 <= k < |rest| && Favourite(rest, stats, if first == "" then names[0] else first) == rest[k] &&
            HasInstance(stats, rest[k]) && forall j :: 0 <= j < k ==> !HasInstance(stats, rest[j]);
          forall j | 0 <= j < k + 1 ensures !HasInstance(stats, names[j]) {
            if j > 0 { assert names[j] == rest[j - 1]; }
          }
          assert names[k + 1] == rest[k];
        } else {
          assert forall i :: 0 <= i < |rest| ==> rest[i] == names[i + 1];
        }
      }
    }
  }
}
