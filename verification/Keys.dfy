/** Store keys (sync/desire.go makeKey, utils/parse.go MakeKey). */
module Keys {

  function MakeKey(kind: string, name: string, version: string): string {
    if name == "" || version == "" then "" else kind + "-" + name + "-" + version
  }

  const APPLICATION := "application"
  const CONFIGURATION := "configuration"
  const SECRET := "secret"

  /** A key spells out kind, name and version; without a name or a version there is none. */
  lemma {:induction false} KeyShape(name: string, version: string)
    ensures MakeKey(APPLICATION, name, version) ==
            if |name| > 0 && |version| > 0 then "application" + ("-" + name) + ("-" + version) else ""
    ensures MakeKey(CONFIGURATION, name, version) ==
            if |name| > 0 && |version| > 0 then "configuration" + ("-" + name) + ("-" + version) else ""
    ensures MakeKey(SECRET, name, version) ==
            if |name| > 0 && |version| > 0 then "secret" + ("-" + name) + ("-" + version) else ""
  {
  }

  /** (name1, version1) turns into (name2, version2) when the separating dash moves to a dash inside version1. */
  ghost predicate DashMoved(name1: string, version1: string, name2: string, version2: string) {
    exists mid: string :: name2 == name1 + "-" + mid && version1 == mid + "-" + version2
  }

  lemma {:induction false} SplitAt(n1: string, v1: string, n2: string, v2: string)
    requires n1 + "-" + v1 == n2 + "-" + v2 && |n1| < |n2|
    ensures DashMoved(n1, v1, n2, v2)
  {
    var whole := n1 + "-" + v1;
    var mid := n2[|n1| + 1..];
    assert n1 == whole[..|n1|] == n2[..|n1|];
    assert n2[|n1|] == whole[|n1|] == '-';
    assert n2 == n1 + "-" + mid;
    assert v1 == whole[|n1| + 1..];
    assert v1 == mid + "-" + v2;
  }

  /** Exactly which pairs collide: two keys of one kind are equal iff the pairs are equal or one
      arises from the other by moving the separating dash. */
  lemma {:induction false} CollisionExactly(kind: string, n1: string, v1: string, n2: string, v2: string)
    requires n1 != "" && v1 != "" && n2 != "" && v2 != ""
    ensures MakeKey(kind, n1, v1) == MakeKey(kind, n2, v2) <==>
            (n1 == n2 && v1 == v2) || DashMoved(n1, v1, n2, v2) || DashMoved(n2, v2, n1, v1)
  {
    var k1, k2 := MakeKey(kind, n1, v1), MakeKey(kind, n2, v2);
    var t1, t2 := n1 + "-" + v1, n2 + "-" + v2;
    assert k1 == kind + "-" + t1 && k2 == kind + "-" + t2;
    assert t1 == k1[|kind| + 1..] && t2 == k2[|kind| + 1..];
    assert k1 == k2 <==> t1 == t2;
    if t1 == t2 {
      if |n1| < |n2| {
        SplitAt(n1, v1, n2, v2);
      } else if |n2| < |n1| {
        SplitAt(n2, v2, n1, v1);
      } else {
        assert n1 == t1[..|n1|] && n2 == t2[..|n2|];
        assert v1 == t1[|n1| + 1..] && v2 == t2[|n2| + 1..];
      }
    }
    if DashMoved(n1, v1, n2, v2) {
      var mid: string :| n2 == n1 + "-" + mid && v1 == mid + "-" + v2;
      assert t1 == n1 + "-" + mid + "-" + v2 == t2;
    }
    if DashMoved(n2, v2, n1, v1) {
      var mid: string :| n1 == n2 + "-" + mid && v2 == mid + "-" + v1;
      assert t2 == n2 + "-" + mid + "-" + v1 == t1;
    }
  }

  lemma {:induction false} DashInside(n1: string, v1: string, n2: string, v2: string)
    requires DashMoved(n1, v1, n2, v2) || DashMoved(n2, v2, n1, v1)
    ensures '-' in v1 || '-' in v2
  {
  }

  /** Versions without a dash are enough for keys of one kind to be injective. */
  lemma {:induction false} Injective(kind: string, n1: string, v1: string, n2: string, v2: string)
    requires '-' !in v1 && '-' !in v2
    requires MakeKey(kind, n1, v1) == MakeKey(kind, n2, v2) != ""
    ensures n1 == n2 && v1 == v2
  {
    CollisionExactly(kind, n1, v1, n2, v2);
    if DashMoved(n1, v1, n2, v2) || DashMoved(n2, v2, n1, v1) {
      DashInside(n1, v1, n2, v2);
    }
  }

  /** Without that condition two records share a key. */
  lemma {:induction false} DashedVersionsCollide()
    ensures MakeKey(CONFIGURATION, "cfg", "a-b") == MakeKey(CONFIGURATION, "cfg-a", "b") == "configuration-cfg-a-b"
  {
  }
}
