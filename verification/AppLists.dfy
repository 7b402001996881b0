/** Lists of application names and versions: alignment, difference and filters
    (engine/utils.go alignApps; engine/engine.go getDeleteAndUpdate, filterAppLike, filterAppNotLike). */
module AppLists {
  import opened Model

  predicate Named(list: seq<AppInfo>, n: string) {
    exists i :: 0 <= i < |list| && list[i].name == n
  }

  ghost predicate DistinctNames(list: seq<AppInfo>) {
    forall i, j :: 0 <= i < j < |list| ==> list[i].name != list[j].name
  }

  // the map a loop over the list builds: the last entry of a name wins
  function ByName(list: seq<AppInfo>): (m: map<string, AppInfo>)
    ensures forall n :: n in m <==> Named(list, n)
    ensures forall n :: n in m ==> m[n].name == n && m[n] in list
  {
    if list == [] then map[]
    else
      var front, last := list[..|list| - 1], list[|list| - 1];
      assert forall n :: Named(list, n) <==> Named(front, n) || n == last.name;
      ByName(front)[last.name := last]
  }

  /** Of several entries with one name the last one counts. */
  lemma {:induction false} LastEntryCounts(list: seq<AppInfo>, n: string) returns (i: int)
    ensures if n in ByName(list) then
              && 0 <= i < |list| && list[i] == ByName(list)[n] && list[i].name == n
              && forall j :: i < j < |list| ==> list[j].name != n
            else forall j :: 0 <= j < |list| ==> list[j].name != n
  {
    i := -1;
    if list != [] {
      var front, last := list[..|list| - 1], |list| - 1;
      i := LastEntryCounts(front, n);
      assert ByName(list) == ByName(front)[list[last].name := list[last]];
      i := LastEntryStep(list, ByName(front), n, i);
    }
  }

  lemma {:induction false} LastEntryStep(list: seq<AppInfo>, m: map<string, AppInfo>, n: string, k: int) returns (i: int)
    requires list != []
    requires if n in m then
               && 0 <= k < |list| - 1 && list[k] == m[n] && list[k].name == n
               && forall j :: k < j < |list| - 1 ==> list[j].name != n
             else forall j :: 0 <= j < |list| - 1 ==> list[j].name != n
    ensures var last := list[|list| - 1];
            if n in m[last.name := last] then
              && 0 <= i < |list| && list[i] == m[last.name := last][n] && list[i].name == n
              && forall j :: i < j < |list| ==> list[j].name != n
            else forall j :: 0 <= j < |list| ==> list[j].name != n
  {
    i := if list[|list| - 1].name == n then |list| - 1 else k;
  }

  // entries of reported found in the order of the desire, each taken out once
  function Matched(reported: map<string, AppInfo>, desire: seq<AppInfo>): seq<AppInfo> {
    if desire == [] then []
    else if desire[0].name in reported then
      [reported[desire[0].name]] + Matched(reported - {desire[0].name}, desire[1..])
    else Matched(reported, desire[1..])
  }

  function NamesOf(list: seq<AppInfo>): (s: set<string>)
    ensures forall n :: n in s <==> Named(list, n)
  {
    set i | 0 <= i < |list| :: list[i].name
  }

  function Leftover(re: seq<AppInfo>, de: seq<AppInfo>): map<string, AppInfo> {
    ByName(re) - NamesOf(de)
  }

  function InOrder(m: map<string, AppInfo>, order: seq<string>): seq<AppInfo>
    requires forall i :: 0 <= i < |order| ==> order[i] in m
  {
    seq(|order|, i requires 0 <= i < |order| => m[order[i]])
  }

  function Aligned(re: seq<AppInfo>, de: seq<AppInfo>, order: seq<string>): seq<AppInfo>
    requires forall i :: 0 <= i < |order| ==> order[i] in Leftover(re, de)
  {
    if re == [] || de == [] then re
    else Matched(ByName(re), de) + InOrder(Leftover(re, de), order)
  }

  lemma {:induction false} NamesGrow(list: seq<AppInfo>, i: nat)
    requires i < |list|
    ensures NamesOf(list[..i + 1]) == NamesOf(list[..i]) + {list[i].name}
  {
  }

  method IndexByName(list: seq<AppInfo>) returns (m: map<string, AppInfo>)
    ensures m == ByName(list)
  {
    m := map[];
    for i := 0 to |list|
      invariant m == ByName(list[..i])
    {
      assert list[..i + 1][..i] == list[..i];
      m := m[list[i].name := list[i]];
    }
    assert list[..|list|] == list;
  }

  method AlignApps(reApps: seq<AppInfo>, deApps: seq<AppInfo>) returns (res: seq<AppInfo>)
    ensures exists order :: IsOrder(order, Leftover(reApps, deApps).Keys) && res == Aligned(reApps, deApps, order)
  {
    ghost var order := SomeOrder(Leftover(reApps, deApps).Keys);
    if |reApps| == 0 || |deApps| == 0 {
      return reApps;
    }
    var left := IndexByName(reApps);
    res, left := TakeMatched(left, deApps);
    var more;
    more, order := ListLeft(left);
    res := res + more;
  }

  // the loop over the desired list
  method TakeMatched(all: map<string, AppInfo>, deApps: seq<AppInfo>)
    returns (res: seq<AppInfo>, left: map<string, AppInfo>)
    ensures res == Matched(all, deApps) && left == all - NamesOf(deApps)
  {
    res, left := [], all;
    for i := 0 to |deApps|
      invariant res + Matched(left, deApps[i..]) == Matched(all, deApps)
      invariant left == all - NamesOf(deApps[..i])
    {
      assert deApps[i..][1..] == deApps[i + 1..];
      NamesGrow(deApps, i);
      if deApps[i].name in left {
        res := res + [left[deApps[i].name]];
        left := left - {deApps[i].name};
      }
    }
    assert deApps[..|deApps|] == deApps;
  }

  // the loop over what is left, in any order
  method ListLeft(left: map<string, AppInfo>) returns (res: seq<AppInfo>, ghost order: seq<string>)
    ensures IsOrder(order, left.Keys) && res == InOrder(left, order)
  {
    res, order := [], [];
    var rest := left.Keys;
    while rest != {}
      invariant rest <= left.Keys && IsOrder(order, left.Keys - rest)
      invariant res == InOrder(left, order)
    {
      var n := Pick(rest);
      ExtendOrder(order, left.Keys - rest, n);
      assert left.Keys - (rest - {n}) == left.Keys - rest + {n};
      order := order + [n];
      res := res + [left[n]];
      rest := rest - {n};
    }
    assert left.Keys - rest == left.Keys;
  }

  /** What to stop and what to start, exactly, for lists with any duplicates. */
  method GetDeleteAndUpdate(desires: seq<AppInfo>, reports: seq<AppInfo>)
    returns (del: map<string, AppInfo>, update: map<string, AppInfo>)
    ensures forall n :: n in del <==> Named(reports, n) && !Named(desires, n)
    ensures forall n :: n in del ==> del[n] == ByName(reports)[n]
    ensures forall n :: n in update <==> Named(desires, n) && ByName(desires)[n] !in reports
    ensures forall n :: n in update ==> update[n] == ByName(desires)[n]
  {
    update := IndexByName(desires);
    del, update := DropReported(update, reports);
    del := DropDesired(del, desires);
  }

  method DropReported(all: map<string, AppInfo>, reports: seq<AppInfo>)
    returns (del: map<string, AppInfo>, update: map<string, AppInfo>)
    requires forall n :: n in all ==> all[n].name == n
    ensures del == ByName(reports)
    ensures forall n :: n in update <==> n in all && all[n] !in reports
    ensures forall n :: n in update ==> update[n] == all[n]
  {
    del, update := map[], all;
    for i := 0 to |reports|
      invariant del == ByName(reports[..i])
      invariant forall n :: n in update <==> n in all && all[n] !in reports[..i]
      invariant forall n :: n in update ==> update[n] == all[n]
    {
      assert reports[..i + 1][..i] == reports[..i];
      var r := reports[i];
      del := del[r.name := r];
      assert forall x :: x in reports[..i + 1] <==> x in reports[..i] || x == r;
      if r.name in update && update[r.name].version == r.version {
        update := update - {update[r.name].name};
      }
    }
    assert reports[..|reports|] == reports;
  }

  method DropDesired(all: map<string, AppInfo>, desires: seq<AppInfo>) returns (del: map<string, AppInfo>)
    ensures del == all - NamesOf(desires)
  {
    del := all;
    for i := 0 to |desires|
      invariant del == all - NamesOf(desires[..i])
    {
      NamesGrow(desires, i);
      if desires[i].name in del {
        del := del - {desires[i].name};
      }
    }
    assert desires[..|desires|] == desires;
  }

  predicate MatchesAny(name: string, modules: seq<string>) {
    exists i :: 0 <= i < |modules| && Contains(name, modules[i])
  }

  function NotLike(apps: seq<AppInfo>, modules: seq<string>): seq<AppInfo> {
    if apps == [] then []
    else
      var front := NotLike(apps[..|apps| - 1], modules);
      if MatchesAny(apps[|apps| - 1].name, modules) then front else front + [apps[|apps| - 1]]
  }

  // the first application whose name contains module, if any
  function FirstLike(apps: seq<AppInfo>, module_: string): seq<AppInfo> {
    if apps == [] then []
    else if Contains(apps[0].name, module_) then [apps[0]]
    else FirstLike(apps[1..], module_)
  }

  function Like(apps: seq<AppInfo>, modules: seq<string>): seq<AppInfo> {
    if modules == [] then [] else Like(apps, modules[..|modules| - 1]) + FirstLike(apps, modules[|modules| - 1])
  }

  method FilterAppLike(apps: seq<AppInfo>, like: Option<seq<string>>) returns (res: seq<AppInfo>)
    ensures res == match like case None => apps case Some(modules) => Like(apps, modules)
  {
    if like.None? {
      return apps;
    }
    var modules := like.value;
    res := [];
    for i := 0 to |modules|
      invariant res == Like(apps, modules[..i])
    {
      assert modules[..i + 1][..i] == modules[..i];
      ghost var before := res;
      var j := 0;
      while j < |apps|
        invariant 0 <= j <= |apps|
        invariant res == before
        invariant FirstLike(apps, modules[i]) == FirstLike(apps[j..], modules[i])
      {
        if Contains(apps[j].name, modules[i]) {
          res := res + [apps[j]];
          break;
        }
        j := j + 1;
      }
      assert res == before + FirstLike(apps, modules[i]);
    }
    assert modules[..|modules|] == modules;
  }

  method FilterAppNotLike(apps: seq<AppInfo>, notLike: Option<seq<string>>) returns (res: seq<AppInfo>)
    ensures res == match notLike case None => apps case Some(modules) => NotLike(apps, modules)
  {
    if notLike.None? {
      return apps;
    }
    var modules := notLike.value;
    res := [];
    for i := 0 to |apps|
      invariant res == NotLike(apps[..i], modules)
    {
      assert apps[..i + 1][..i] == apps[..i];
      var flag := true;
      var j := 0;
      while j < |modules|
        invariant 0 <= j <= |modules|
        invariant flag && !MatchesAny(apps[i].name, modules[..j])
      {
        if Contains(apps[i].name, modules[j]) {
          flag := false;
          break;
        }
        j := j + 1;
      }
      assert flag ==> modules[..j] == modules;
      if flag {
        res := res + [apps[i]];
      }
    }
    assert apps[..|apps|] == apps;
  }

  /** filterAppNotLike keeps exactly the entries that match no module, and their order. */
  lemma {:induction false} NotLikeExactly(apps: seq<AppInfo>, modules: seq<string>, a: AppInfo)
    ensures a in NotLike(apps, modules) <==> a in apps && !MatchesAny(a.name, modules)
    ensures DistinctNames(apps) ==> DistinctNames(NotLike(apps, modules))
  {
    if apps != [] {
      var front, last := apps[..|apps| - 1], apps[|apps| - 1];
      NotLikeExactly(front, modules, a);
      assert a in apps <==> a in front || a == last;
      if DistinctNames(apps) {
        var kept := NotLike(front, modules);
        forall i | 0 <= i < |kept| ensures kept[i].name != last.name {
          NotLikeExactly(front, modules, kept[i]);
          assert kept[i] in front;
        }
      }
    }
  }

  /** An entry matches when its name contains one of the module names. */
  lemma {:induction false} MatchesExactly(name: string, modules: seq<string>)
    ensures MatchesAny(name, modules) <==> exists m, a, b :: m in modules && name == a + m + b
  {
    if i :| 0 <= i < |modules| && Contains(name, modules[i]) {
      ContainsExactly(name, modules[i]);
    }
    if m, a, b :| m in modules && name == a + m + b {
      ContainsExactly(name, m);
    }
  }

  /** The entries that stay keep their order and number. */
  lemma {:induction false} NotLikeInOrder(a: seq<AppInfo>, b: seq<AppInfo>, modules: seq<string>)
    ensures NotLike(a + b, modules) == NotLike(a, modules) + NotLike(b, modules)
    ensures forall x :: NotLike([x], modules) == if MatchesAny(x.name, modules) then [] else [x]
  {
    if b == [] {
      assert a + b == a;
    } else {
      assert (a + b)[..|a + b| - 1] == a + b[..|b| - 1];
      NotLikeInOrder(a, b[..|b| - 1], modules);
    }
  }

  /** The modules are taken in order, each for itself. */
  lemma {:induction false} LikeInOrder(apps: seq<AppInfo>, a: seq<string>, b: seq<string>)
    ensures Like(apps, a + b) == Like(apps, a) + Like(apps, b)
  {
    if b == [] {
      assert a + b == a;
    } else {
      assert (a + b)[..|a + b| - 1] == a + b[..|b| - 1];
      LikeInOrder(apps, a, b[..|b| - 1]);
    }
  }

  /** filterAppLike keeps, for one module, only the first entry that matches. */
  lemma {:induction false} FirstLikeExactly(apps: seq<AppInfo>, part: string)
    ensures var r := FirstLike(apps, part);
            if exists i :: 0 <= i < |apps| && Contains(apps[i].name, part) then
              exists i :: 0 <= i < |apps| && r == [apps[i]] && Contains(apps[i].name, part) &&
                          forall j :: 0 <= j < i ==> !Contains(apps[j].name, part)
            else r == []
  {
    if apps != [] && !Contains(apps[0].name, part) {
      var rest := apps[1..];
      FirstLikeExactly(rest, part);
      if i :| 0 <= i < |apps| && Contains(apps[i].name, part) {
        assert Contains(rest[i - 1].name, part);
        var k :| 0 <= k < |rest| && FirstLike(rest, part) == [rest[k]] && Contains(rest[k].name, part) &&
          forall j :: 0 <= j < k ==> !Contains(rest[j].name, part);
        assert rest[k] == apps[k + 1];
        forall j | 0 <= j < k + 1 ensures !Contains(apps[j].name, part) {
          if j > 0 { assert apps[j] == rest[j - 1]; }
        }
      } else {
        assert forall i :: 0 <= i < |rest| ==> rest[i] == apps[i + 1];
      }
    }
  }

  lemma {:induction false} LikeOne(apps: seq<AppInfo>, part: string)
    ensures Like(apps, [part]) == FirstLike(apps, part)
  {
  }
}
