/** alignApps permutes the reported list, and a node that runs what is desired reports the desired list itself. */
module Quiescence {
  import opened Model
  import opened AppLists

  lemma {:induction false} ByNameOfDistinct(list: seq<AppInfo>, x: AppInfo)
    requires DistinctNames(list)
    ensures x in list <==> x.name in ByName(list) && ByName(list)[x.name] == x
  {
    if list != [] {
      var front, last := list[..|list| - 1], list[|list| - 1];
      ByNameOfDistinct(front, x);
      assert x in list <==> x in front || x == last;
      if x in front {
        var i :| 0 <= i < |front| && front[i] == x;
        assert list[i].name != list[|list| - 1].name;
      }
    }
  }

  lemma {:induction false} MatchedExactly(reported: map<string, AppInfo>, desire: seq<AppInfo>, x: AppInfo)
    requires forall n :: n in reported ==> reported[n].name == n
    ensures x in Matched(reported, desire) <==>
            x.name in reported && reported[x.name] == x && Named(desire, x.name)
    ensures DistinctNames(Matched(reported, desire))
  {
    if desire != [] {
      var d, rest := desire[0].name, desire[1..];
      assert Named(desire, x.name) <==> x.name == d || Named(rest, x.name) by {
        if i :| 0 <= i < |desire| && desire[i].name == x.name {
          if i > 0 { assert rest[i - 1].name == x.name; }
        }
      }
      if d in reported {
        var left := reported - {d};
        MatchedExactly(left, rest, x);
        var tail := Matched(left, rest);
        assert Matched(reported, desire) == [reported[d]] + tail;
        forall j | 0 <= j < |tail| ensures tail[j].name != d {
          MatchedExactly(left, rest, tail[j]);
          assert tail[j] in tail;
        }
      } else {
        MatchedExactly(reported, rest, x);
      }
    }
  }

  /** The aligned list holds the last report of every reported name, once, and those the desire names come first. */
  lemma {:induction false} AlignedExactly(re: seq<AppInfo>, de: seq<AppInfo>, order: seq<string>, x: AppInfo)
    requires IsOrder(order, Leftover(re, de).Keys)
    requires DistinctNames(re)
    ensures x in Aligned(re, de, order) <==> x in re
    ensures DistinctNames(Aligned(re, de, order))
    ensures var a := Aligned(re, de, order);
            forall i, j :: 0 <= i < j < |a| && Named(de, a[j].name) ==> Named(de, a[i].name)
  {
    if re == [] {
    } else if de == [] {
      assert forall n :: !Named(de, n);
    } else {
      var m := ByName(re);
      var first, last := Matched(m, de), InOrder(Leftover(re, de), order);
      assert Aligned(re, de, order) == first + last;
      MatchedExactly(m, de, x);
      ByNameOfDistinct(re, x);
      LeftoverExactly(re, de, order, x);
      forall i | 0 <= i < |first| ensures Named(de, first[i].name) {
        assert first[i] in first;
        MatchedExactly(m, de, first[i]);
      }
      Joined(first, last, de);
    }
  }

  lemma {:induction false} LeftoverExactly(re: seq<AppInfo>, de: seq<AppInfo>, order: seq<string>, x: AppInfo)
    requires IsOrder(order, Leftover(re, de).Keys)
    ensures var last := InOrder(Leftover(re, de), order);
            && (x in last <==> x.name in Leftover(re, de) && ByName(re)[x.name] == x)
            && DistinctNames(last) && forall i :: 0 <= i < |last| ==> !Named(de, last[i].name)
  {
    var last := InOrder(Leftover(re, de), order);
    assert forall i :: 0 <= i < |last| ==> last[i].name == order[i];
    if x.name in Leftover(re, de) && ByName(re)[x.name] == x {
      var i :| 0 <= i < |order| && order[i] == x.name;
      assert last[i] == x;
    }
  }

  lemma {:induction false} Joined(first: seq<AppInfo>, last: seq<AppInfo>, de: seq<AppInfo>)
    requires DistinctNames(first) && DistinctNames(last)
    requires forall i :: 0 <= i < |first| ==> Named(de, first[i].name)
    requires forall i :: 0 <= i < |last| ==> !Named(de, last[i].name)
    ensures var a := first + last;
            DistinctNames(a) && forall i, j :: 0 <= i < j < |a| && Named(de, a[j].name) ==> Named(de, a[i].name)
  {
  }

  lemma {:induction false} MatchedInOrder(reported: map<string, AppInfo>, desire: seq<AppInfo>, i: nat, j: nat)
    requires (forall n :: n in reported ==> reported[n].name == n) && i < j < |Matched(reported, desire)|
    ensures exists p, q :: 0 <= p < q < |desire| && desire[p].name == Matched(reported, desire)[i].name &&
                           desire[q].name == Matched(reported, desire)[j].name
  {
    var d, rest := desire[0].name, desire[1..];
    assert forall q :: 0 <= q < |rest| ==> rest[q] == desire[q + 1];
    if d !in reported {
      MatchedInOrder(reported, rest, i, j);
      var p, q :| 0 <= p < q < |rest| && rest[p].name == Matched(reported, rest)[i].name &&
                  rest[q].name == Matched(reported, rest)[j].name;
      assert desire[p + 1].name == rest[p].name && desire[q + 1].name == rest[q].name;
    } else {
      var left := reported - {d};
      var tail := Matched(left, rest);
      assert Matched(reported, desire) == [reported[d]] + tail;
      if i == 0 {
        MatchedExactly(left, rest, tail[j - 1]);
        var q :| 0 <= q < |rest| && rest[q].name == tail[j - 1].name;
        assert desire[0].name == d && desire[q + 1].name == tail[j - 1].name;
      } else {
        MatchedInOrder(left, rest, i - 1, j - 1);
        var p, q :| 0 <= p < q < |rest| && rest[p].name == tail[i - 1].name && rest[q].name == tail[j - 1].name;
        assert desire[p + 1].name == rest[p].name && desire[q + 1].name == rest[q].name;
      }
    }
  }

  /** The entries that the desire names come in the order of the desire; next to an empty list nothing is moved or
      dropped, not even a duplicate. */
  lemma {:induction false} AlignedInOrder(re: seq<AppInfo>, de: seq<AppInfo>, order: seq<string>, i: nat, j: nat)
    requires IsOrder(order, Leftover(re, de).Keys)
    ensures re == [] || de == [] ==> Aligned(re, de, order) == re
    ensures var a := Aligned(re, de, order);
            i < j < |a| && re != [] && Named(de, a[j].name) ==>
              exists p, q :: 0 <= p < q < |de| && de[p].name == a[i].name && de[q].name == a[j].name
  {
    var a := Aligned(re, de, order);
    if re != [] && de != [] && i < j < |a| && Named(de, a[j].name) {
      var first := Matched(ByName(re), de);
      LeftoverExactly(re, de, order, a[j]);
      assert a == first + InOrder(Leftover(re, de), order);
      MatchedInOrder(ByName(re), de, i, j);
    }
  }

  lemma {:induction false} CountDistinct(list: seq<AppInfo>, x: AppInfo)
    requires DistinctNames(list)
    ensures multiset(list)[x] == if x in list then 1 else 0
  {
    if list != [] {
      var front, last := list[..|list| - 1], list[|list| - 1];
      assert list == front + [last];
      CountDistinct(front, x);
    }
  }

  lemma {:induction false} AlignIsPermutation(re: seq<AppInfo>, de: seq<AppInfo>, order: seq<string>)
    requires IsOrder(order, Leftover(re, de).Keys)
    requires DistinctNames(re)
    ensures multiset(Aligned(re, de, order)) == multiset(re)
  {
    var a := Aligned(re, de, order);
    forall x ensures multiset(a)[x] == multiset(re)[x] {
      AlignedExactly(re, de, order, x);
      CountDistinct(a, x);
      CountDistinct(re, x);
    }
  }

  lemma {:induction false} MatchedAll(reported: map<string, AppInfo>, desire: seq<AppInfo>)
    requires DistinctNames(desire)
    requires forall i :: 0 <= i < |desire| ==> desire[i].name in reported && reported[desire[i].name] == desire[i]
    ensures Matched(reported, desire) == desire
  {
    if desire != [] {
      var left, rest := reported - {desire[0].name}, desire[1..];
      forall i | 0 <= i < |rest| ensures rest[i].name in left && left[rest[i].name] == rest[i] {
        assert rest[i] == desire[i + 1];
      }
      MatchedAll(left, rest);
      assert Matched(reported, desire) == [reported[desire[0].name]] + Matched(left, rest);
    }
  }

  /** The aligned report equals the desire as a sequence exactly when the two hold the same pairs. */
  lemma {:induction false} QuiescentExactly(re: seq<AppInfo>, de: seq<AppInfo>, order: seq<string>)
    requires IsOrder(order, Leftover(re, de).Keys)
    requires DistinctNames(re) && DistinctNames(de)
    ensures Aligned(re, de, order) == de <==> forall x :: x in re <==> x in de
  {
    var a := Aligned(re, de, order);
    if a == de {
      forall x ensures x in re <==> x in de { AlignedExactly(re, de, order, x); }
    }
    if forall x :: x in re <==> x in de {
      HeadIn(re);
      HeadIn(de);
      if re != [] && de != [] {
        forall i | 0 <= i < |de| ensures de[i].name in ByName(re) && ByName(re)[de[i].name] == de[i] {
          assert de[i] in de;
          ByNameOfDistinct(re, de[i]);
        }
        MatchedAll(ByName(re), de);
        forall n ensures n !in Leftover(re, de) {
          if n in ByName(re) {
            var x := ByName(re)[n];
            ByNameOfDistinct(re, x);
            assert x in de;
          }
        }
        HeadIn(order);
      }
    }
  }
}
