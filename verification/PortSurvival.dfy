/** Which contested ports keep a claimant. A loser gains a stats entry, and later contests take that for a running
    instance (engine/utils.go:222-248); the condition under which this does no harm is exact. */
module PortSurvival {
  import opened Model
  import opened Ports
  import opened PortExclusion

  // two applications claim the port
  predicate Contested(ports: map<int, seq<string>>, p: int) {
    exists a, b :: a in Claimants(ports, p) && b in Claimants(ports, p) && a != b
  }

  // the winner of a port when it is contested first
  function Winner(ports: map<int, seq<string>>, stats: map<string, AppStats>, p: int): string {
    Favourite(Claimants(ports, p), stats, "")
  }

  // w occurs in the list before any x
  predicate Before(names: seq<string>, w: string, x: string) {
    exists i :: 0 <= i < |names| && names[i] == w && x !in names[..i + 1]
  }

  // x claims both contested ports and loses q, and its new stats entry would count at p
  predicate Disturbs(ports: map<int, seq<string>>, stats: map<string, AppStats>, p: int, q: int, x: string) {
    && p != q && Contested(ports, p) && Contested(ports, q)
    && x in Claimants(ports, p) && x in Claimants(ports, q) && x != Winner(ports, stats, q)
    && !(HasInstance(stats, Winner(ports, stats, p)) && Before(Claimants(ports, p), Winner(ports, stats, p), x))
  }

  /** Every loser of one contested port that claims another comes after that one's winner, which runs already. */
  ghost predicate Stable(ports: map<int, seq<string>>, stats: map<string, AppStats>) {
    forall p, q, x :: !Disturbs(ports, stats, p, q, x)
  }

  // a claimant of a contested port that is not its winner
  predicate Loses(ports: map<int, seq<string>>, stats: map<string, AppStats>, p: int, n: string) {
    Contested(ports, p) && n in Claimants(ports, p) && n != Winner(ports, stats, p)
  }

  // ----- favourites -----

  lemma {:induction false} FavouriteIs(names: seq<string>, stats: map<string, AppStats>, first: string, i: nat)
    requires i < |names| && HasInstance(stats, names[i]) && forall j :: 0 <= j < i ==> !HasInstance(stats, names[j])
    ensures Favourite(names, stats, first) == names[i]
  {
    if i > 0 {
      var rest := names[1..];
      assert rest[i - 1] == names[i] && forall j :: 0 <= j < i - 1 ==> rest[j] == names[j + 1];
      FavouriteIs(rest, stats, if first == "" then names[0] else first, i - 1);
    }
  }

  lemma {:induction false} FirstInstance(names: seq<string>, stats: map<string, AppStats>, x: string) returns (i: nat)
    requires x in names && HasInstance(stats, x)
    ensures i < |names| && HasInstance(stats, names[i]) && forall j :: 0 <= j < i ==> !HasInstance(stats, names[j])
    ensures Favourite(names, stats, "") == names[i]
  {
    i := 0;
    while !HasInstance(stats, names[i])
      invariant i < |names| && forall j :: 0 <= j < i ==> !HasInstance(stats, names[j])
      decreases |names| - i
    {
      assert names[i] != x;
      if i + 1 == |names| {
        assert false;
      }
      i := i + 1;
    }
    FavouriteIs(names, stats, "", i);
  }

  lemma {:induction false} FavouriteAgrees(names: seq<string>, s: map<string, AppStats>, t: map<string, AppStats>,
                                           first: string)
    requires forall n :: n in names ==> (HasInstance(s, n) <==> HasInstance(t, n))
    ensures Favourite(names, s, first) == Favourite(names, t, first)
  {
    if names != [] {
      assert names[0] in names && forall x :: x in names[1..] ==> x in names;
      FavouriteAgrees(names[1..], s, t, if first == "" then names[0] else first);
    }
  }

  // ----- the loop over the ports -----

  lemma {:induction false} RejectInstances(b: Book, apps: map<string, Application>, p: int, names: seq<string>,
                                           first: string, n: string)
    ensures HasInstance(RejectAll(b, apps, p, names, first).stats, n) <==>
            HasInstance(b.stats, n) || (n in names && n != first)
  {
    if names != [] {
      var front, last := names[..|names| - 1], names[|names| - 1];
      RejectInstances(b, apps, p, front, first, n);
      assert n in names <==> n in front || n == last;
    }
  }

  // a contest rejects the claimants other than its favourite and gives them an instance
  lemma {:induction false} ContestExactly(b: Book, apps: map<string, Application>, p: int, n: string)
    ensures var c, lost := Contest(b, apps, p), Loses(b.ports, b.stats, p, n);
            && c.ports == b.ports
            && (n in c.del <==> n in b.del || lost)
            && (HasInstance(c.stats, n) <==> HasInstance(b.stats, n) || lost)
  {
    var names := Claimants(b.ports, p);
    var first := Favourite(names, b.stats, "");
    if |names| == 1 {
      assert forall m :: m in names ==> m == names[0];
    } else if |names| > 1 {
      FavouriteClaims(names, b.stats, "");
      RejectedExactly(b, apps, p, names, first, n);
      RejectInstances(b, apps, p, names, first, n);
      assert n in names && n != first ==> Contested(b.ports, p);
    }
  }

  // an application has an instance when it had one or was rejected
  lemma {:induction false} SettleInstances(b: Book, apps: map<string, Application>, order: seq<int>, n: string)
    requires n !in b.del
    ensures var c := Settle(b, apps, order);
            c.ports == b.ports && (HasInstance(c.stats, n) <==> HasInstance(b.stats, n) || n in c.del)
  {
    if order != [] {
      var front, last := order[..|order| - 1], order[|order| - 1];
      SettleInstances(b, apps, front, n);
      ContestExactly(Settle(b, apps, front), apps, last, n);
    }
  }

  lemma {:induction false} SettleOn(b: Book, apps: map<string, Application>, order: seq<int>, more: seq<int>, n: string)
    requires n in Settle(b, apps, order).del
    ensures n in Settle(b, apps, order + more).del
  {
    if more == [] {
      assert order + more == order;
    } else {
      var front, last := more[..|more| - 1], more[|more| - 1];
      SettleOn(b, apps, order, front, n);
      assert (order + more)[..|order + more| - 1] == order + front;
      ContestExactly(Settle(b, apps, order + front), apps, last, n);
    }
  }

  // ----- stable inputs: every contest goes to the winner foreseen -----

  lemma {:induction false} WinnerStays(b: Book, apps: map<string, Application>, order: seq<int>, p: int)
    requires Stable(b.ports, b.stats) && Contested(b.ports, p) && p !in order
    requires forall n :: n in Claimants(b.ports, p) ==> n !in b.del
    requires forall n :: n in Claimants(b.ports, p) ==>
               (n in Settle(b, apps, order).del <==> exists q :: q in order && Loses(b.ports, b.stats, q, n))
    ensures Winner(b.ports, Settle(b, apps, order).stats, p) == Winner(b.ports, b.stats, p)
  {
    var names, c, w := Claimants(b.ports, p), Settle(b, apps, order), Winner(b.ports, b.stats, p);
    forall n | n in names ensures HasInstance(c.stats, n) <==> HasInstance(b.stats, n) || n in c.del {
      SettleInstances(b, apps, order, n);
    }
    forall n | n in names && n in c.del ensures HasInstance(b.stats, w) && Before(names, w, n) {
      var q :| q in order && Loses(b.ports, b.stats, q, n);
      assert !Disturbs(b.ports, b.stats, p, q, n);
    }
    if n :| n in names && n in c.del {
      FavouriteClaims(names, b.stats, "");
      var i := FirstInstance(names, b.stats, w);
      forall m | m in names && m in c.del ensures m !in names[..i] {
        BeforeFirst(names, b.stats, w, m, i);
      }
      forall j | 0 <= j < i ensures !HasInstance(c.stats, names[j]) {
        assert names[..i][j] == names[j];
      }
      FavouriteIs(names, c.stats, "", i);
    } else {
      FavouriteAgrees(names, b.stats, c.stats, "");
    }
  }

  lemma {:induction false} BeforeFirst(names: seq<string>, stats: map<string, AppStats>, w: string, x: string, i: nat)
    requires Before(names, w, x) && HasInstance(stats, w)
    requires i < |names| && forall j :: 0 <= j < i ==> !HasInstance(stats, names[j])
    ensures x !in names[..i]
  {
    var k :| 0 <= k < |names| && names[k] == w && x !in names[..k + 1];
    assert i <= k;
    assert names[..i] <= names[..k + 1];
  }

  lemma {:induction false} StableRun(b: Book, apps: map<string, Application>, order: seq<int>, n: string)
    requires Stable(b.ports, b.stats)
    requires forall i, j :: 0 <= i < j < |order| ==> order[i] != order[j]
    requires forall p, m :: m in Claimants(b.ports, p) ==> m !in b.del
    ensures n in Settle(b, apps, order).del <==>
            n in b.del || exists p :: p in order && Loses(b.ports, b.stats, p, n)
  {
    if order != [] {
      var front, last := order[..|order| - 1], order[|order| - 1];
      var c := Settle(b, apps, front);
      assert forall p :: p in order <==> p in front || p == last;
      forall m
        ensures m in c.del <==> m in b.del || exists p :: p in front && Loses(b.ports, b.stats, p, m)
        ensures c.ports == b.ports
      {
        StableRun(b, apps, front, m);
        SettleFacts(b, apps, front, m);
      }
      if Contested(b.ports, last) {
        WinnerStays(b, apps, front, last);
      }
      ContestExactly(c, apps, last, n);
    }
  }

  // ----- unstable inputs: some order takes a port from all its claimants -----

  lemma {:induction false} Overturned(b: Book, apps: map<string, Application>, p: int, q: int, x: string, n: string)
    requires Disturbs(b.ports, b.stats, p, q, x) && n in Claimants(b.ports, p)
    ensures n in Settle(b, apps, [q, p]).del
  {
    var names, c := Claimants(b.ports, p), Contest(b, apps, q);
    var order := [q, p];
    assert order[..|order| - 1] == [q] && [q][..0] == [];
    assert Settle(b, apps, [q]) == Contest(Settle(b, apps, []), apps, q) == c;
    assert Settle(b, apps, order) == Contest(c, apps, p);
    forall m
      ensures c.ports == b.ports && (m in c.del <==> m in b.del || Loses(b.ports, b.stats, q, m))
      ensures HasInstance(c.stats, m) <==> HasInstance(b.stats, m) || Loses(b.ports, b.stats, q, m)
    {
      ContestExactly(b, apps, q, m);
    }
    var i := FirstInstance(names, c.stats, x);
    if !Loses(b.ports, b.stats, q, names[i]) {
      FavouriteIs(names, b.stats, "", i);
    }
    ContestExactly(c, apps, p, n);
  }

  // ----- the check -----

  // a contested port keeps a claimant
  predicate Keeps(infos: seq<AppInfo>, apps: map<string, Application>, stats: map<string, AppStats>, order: seq<int>,
                  p: int) {
    exists n :: n in Claimants(EnrollAll(infos, apps, stats).ports, p) && n !in Checked(infos, apps, stats, order).del
  }

  // claimants have the instances the check was given, and the first loop does not reject them
  lemma {:induction false} ClaimantsUntouched(infos: seq<AppInfo>, apps: map<string, Application>,
                                              stats: map<string, AppStats>, n: string, p: int)
    requires Keyed(apps) && n in Claimants(EnrollAll(infos, apps, stats).ports, p)
    ensures var b := EnrollAll(infos, apps, stats); n !in b.del && (HasInstance(b.stats, n) <==> HasInstance(stats, n))
  {
    EnrolledExactly(infos, apps, stats, n, p);
    EnrollFrame(infos, apps, stats, n);
  }

  lemma {:induction false} WinnerAgrees(infos: seq<AppInfo>, apps: map<string, Application>,
                                        stats: map<string, AppStats>, p: int)
    requires Keyed(apps)
    ensures var b := EnrollAll(infos, apps, stats);
            && Winner(b.ports, b.stats, p) == Winner(b.ports, stats, p)
            && (Contested(b.ports, p) ==>
                  var w := Winner(b.ports, stats, p);
                  w in Claimants(b.ports, p) && (HasInstance(b.stats, w) <==> HasInstance(stats, w)))
  {
    var b := EnrollAll(infos, apps, stats);
    var names := Claimants(b.ports, p);
    forall n | n in names ensures HasInstance(stats, n) <==> HasInstance(b.stats, n) {
      ClaimantsUntouched(infos, apps, stats, n, p);
    }
    FavouriteAgrees(names, stats, b.stats, "");
    FavouriteClaims(names, stats, "");
  }

  lemma {:induction false} DisturbsAgrees(infos: seq<AppInfo>, apps: map<string, Application>,
                                          stats: map<string, AppStats>, p: int, q: int, x: string)
    requires Keyed(apps)
    ensures var b := EnrollAll(infos, apps, stats);
            Disturbs(b.ports, b.stats, p, q, x) <==> Disturbs(b.ports, stats, p, q, x)
  {
    WinnerAgrees(infos, apps, stats, p);
    WinnerAgrees(infos, apps, stats, q);
  }

  /** On stable inputs the outcome is the same for every order: besides the replicated applications with a host
      port exactly those are rejected that lose some contested port to the winner the given stats name. */
  lemma {:induction false} StableOutcome(infos: seq<AppInfo>, apps: map<string, Application>,
                                         stats: map<string, AppStats>, order: seq<int>, n: string)
    requires Keyed(apps) && IsOrder(order, EnrollAll(infos, apps, stats).ports.Keys)
    requires Stable(EnrollAll(infos, apps, stats).ports, stats)
    ensures n in Checked(infos, apps, stats, order).del <==>
            Overreplicated(infos, apps, n) ||
            exists p :: Loses(EnrollAll(infos, apps, stats).ports, stats, p, n)
  {
    var b := EnrollAll(infos, apps, stats);
    forall p, q, x ensures !Disturbs(b.ports, b.stats, p, q, x) {
      DisturbsAgrees(infos, apps, stats, p, q, x);
    }
    forall p, m | m in Claimants(b.ports, p) ensures m !in b.del {
      ClaimantsUntouched(infos, apps, stats, m, p);
    }
    StableRun(b, apps, order, n);
    EnrolledExactly(infos, apps, stats, n, 0);
    forall p ensures Loses(b.ports, b.stats, p, n) <==> Loses(b.ports, stats, p, n) {
      WinnerAgrees(infos, apps, stats, p);
    }
    forall p | Loses(b.ports, stats, p, n) ensures p in order {
      assert p in b.ports;
    }
  }

  /** Exactly when every contested port keeps a claimant whatever the order. */
  lemma {:induction false} ContestedPortsKeptExactly(infos: seq<AppInfo>, apps: map<string, Application>,
                                                     stats: map<string, AppStats>)
    requires Keyed(apps)
    ensures var ports := EnrollAll(infos, apps, stats).ports;
            (forall order, p :: IsOrder(order, ports.Keys) && Contested(ports, p) ==>
                                  Keeps(infos, apps, stats, order, p)) <==>
            Stable(ports, stats)
  {
    var b := EnrollAll(infos, apps, stats);
    if Stable(b.ports, stats) {
      forall order, p | IsOrder(order, b.ports.Keys) &&
        Contested(b.ports, p) ensures Keeps(infos, apps, stats, order, p) {
        WinnerKept(infos, apps, stats, order, p);
      }
    } else {
      var p, q, x :| Disturbs(b.ports, stats, p, q, x);
      DisturbsAgrees(infos, apps, stats, p, q, x);
      var order := OrderStarting(b.ports.Keys, q, p);
      assert order == [q, p] + order[2..];
      forall n | n in Claimants(b.ports, p) ensures n in Checked(infos, apps, stats, order).del {
        Overturned(b, apps, p, q, x, n);
        SettleOn(b, apps, [q, p], order[2..], n);
      }
      assert !Keeps(infos, apps, stats, order, p);
    }
  }

  lemma {:induction false} WinnerKept(infos: seq<AppInfo>, apps: map<string, Application>,
                                      stats: map<string, AppStats>, order: seq<int>, p: int)
    requires Keyed(apps) && IsOrder(order, EnrollAll(infos, apps, stats).ports.Keys)
    requires Stable(EnrollAll(infos, apps, stats).ports, stats) && Contested(EnrollAll(infos, apps, stats).ports, p)
    ensures Keeps(infos, apps, stats, order, p)
  {
    var b := EnrollAll(infos, apps, stats);
    var w := Winner(b.ports, stats, p);
    WinnerAgrees(infos, apps, stats, p);
    StableOutcome(infos, apps, stats, order, w);
    EnrolledExactly(infos, apps, stats, w, p);
    NotBeforeItself(Claimants(b.ports, p), w);
    forall q ensures !Loses(b.ports, stats, q, w) {
      assert !Disturbs(b.ports, stats, p, q, w);
    }
  }

  lemma {:induction false} NotBeforeItself(names: seq<string>, w: string)
    ensures !Before(names, w, w)
  {
    forall i | 0 <= i < |names| && names[i] == w ensures w in names[..i + 1] {
      assert names[..i + 1][i] == w;
    }
  }

  lemma {:induction false} OrderStarting(s: set<int>, q: int, p: int) returns (order: seq<int>)
    requires p in s && q in s && p != q
    ensures IsOrder(order, s) && |order| >= 2 && order[0] == q && order[1] == p
  {
    var rest := SomeOrder(s - {q, p});
    order := [q, p] + rest;
  }

  // ----- a concrete case -----

  function PortApp(name: string, ports: seq<int>): Application {
    Application(name, "1", OtherWorkload, 0, 1, [Service("s", 1, ports, [])], [])
  }

  /** b loses port 1 to a, which puts it into the stats, and then takes port 2 from c: nobody keeps port 2. */
  lemma {:induction false} ContestedPortCanLoseAll(infos: seq<AppInfo>, apps: map<string, Application>)
    requires infos == [AppInfo("a", "1"), AppInfo("c", "1"), AppInfo("b", "1")]
    requires apps == map["a" := PortApp("a", [1]), "c" := PortApp("c", [2]), "b" := PortApp("b", [1, 2])]
    ensures exists order ::
              IsOrder(order, EnrollAll(infos, apps, map[]).ports.Keys) && !Keeps(infos, apps, map[], order, 2)
  {
    var b, order := EnrollAll(infos, apps, map[]), [1, 2];
    ThreeEnrolled(infos, apps);
    SharedLoserDisturbs(b.ports);
    forall n | n in Claimants(b.ports, 2) ensures n in Checked(infos, apps, map[], order).del {
      Overturned(b, apps, 2, 1, "b", n);
    }
    assert !Keeps(infos, apps, map[], order, 2);
  }

  lemma {:induction false} SharedLoserDisturbs(ports: map<int, seq<string>>)
    requires ports == map[1 := ["a", "b"], 2 := ["c", "b"]]
    ensures Disturbs(ports, map[], 2, 1, "b") && IsOrder([1, 2], ports.Keys)
  {
    var one, two := Claimants(ports, 1), Claimants(ports, 2);
    assert one[0] == "a" && one[1] == "b" && two[0] == "c" && two[1] == "b";
    assert "a" in one && "b" in one && "c" in two && "b" in two;
    assert Contested(ports, 1) && Contested(ports, 2);
    assert one[1..] == ["b"] && one[1..][1..] == [];
    assert Winner(ports, map[], 1) == "a";
  }

  lemma {:induction false} ThreeEnrolled(infos: seq<AppInfo>, apps: map<string, Application>)
    requires infos == [AppInfo("a", "1"), AppInfo("c", "1"), AppInfo("b", "1")]
    requires apps == map["a" := PortApp("a", [1]), "c" := PortApp("c", [2]), "b" := PortApp("b", [1, 2])]
    ensures EnrollAll(infos, apps, map[]) == Book(map[1 := ["a", "b"], 2 := ["c", "b"]], map[], {})
  {
    var i0, i1, i2 := infos[..0], infos[..1], infos[..2];
    assert i1[..0] == i0 == [] && i2[..1] == i1 && infos[..|infos| - 1] == i2;
    ThreeClaims();
    EnrollNext(i1, apps, map[], [1]);
    EnrollNext(i2, apps, map[], [2]);
    EnrollNext(infos, apps, map[], [1, 2]);
  }

  lemma {:induction false} ThreeClaims()
    ensures Claim(map[], [1], "a") == map[1 := ["a"]]
    ensures Claim(map[1 := ["a"]], [2], "c") == map[1 := ["a"], 2 := ["c"]]
    ensures Claim(map[1 := ["a"], 2 := ["c"]], [1, 2], "b") == map[1 := ["a", "b"], 2 := ["c", "b"]]
  {
    ClaimOne(map[], 1, "a");
    ClaimOne(map[1 := ["a"]], 2, "c");
    ClaimOne(map[1 := ["a"], 2 := ["c"]], 1, "b");
    ClaimOne(map[1 := ["a", "b"], 2 := ["c"]], 2, "b");
    ClaimConcat(map[1 := ["a"], 2 := ["c"]], [1], [2], "b");
    assert [1] + [2] == [1, 2] && ["a"] + ["b"] == ["a", "b"] && ["c"] + ["b"] == ["c", "b"];
    assert [] + ["a"] == ["a"] && [] + ["c"] == ["c"];
  }

  lemma {:induction false} EnrollNext(infos: seq<AppInfo>, apps: map<string, Application>,
                                      stats: map<string, AppStats>, ports: seq<int>)
    requires ports == [1] || ports == [2] || ports == [1, 2]
    requires infos != [] && infos[|infos| - 1].name in apps
    requires apps[infos[|infos| - 1].name] == PortApp(infos[|infos| - 1].name, ports)
    ensures var before, name := EnrollAll(infos[..|infos| - 1], apps, stats), infos[|infos| - 1].name;
            EnrollAll(infos, apps, stats) == before.(ports := Claim(before.ports, ports, name))
  {
    var services := PortApp(infos[|infos| - 1].name, ports).services;
    assert services[..0] == [] && [1, 2][..1] == [1] && [1][..0] == [] && [2][..0] == [];
    assert NonZero(ports) == ports;
    assert HostPorts(services) == ports;
  }
}
