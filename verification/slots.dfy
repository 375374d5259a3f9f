/** Putting the page slots into sidebar order (shared/nexis/app.cpp). */
module SlotOrder {
  import opened Text
  import opened Slides
  import opened Navigation

  const SIDEBAR_ORDER := [
    DASHBOARD, "resources", "processes", "networkUsage", "hardwareInfo", "bootAnalysis", "systemLogs",
    CLEANER, "diskTools", "diskMap", "mailCleanup", "shredder", "search", "uninstaller", "startupApps",
    "services", "aptSourceManager", "docker", "helpers", "gnomeSettings", "settings"
  ]

  /** `kSidebarOrder.indexOf(id)`, which is -1 for an unknown id. */
  function Rank(order: seq<string>, id: string): int {
    IndexOf(order, id)
  }

  function Insert(order: seq<string>, x: string, s: seq<string>): seq<string> {
    if s == [] || Rank(order, x) <= Rank(order, s[0]) then [x] + s else [s[0]] + Insert(order, x, s[1..])
  }

  /** `std::stable_sort` by rank. */
  function Arranged(order: seq<string>, ids: seq<string>): seq<string> {
    if ids == [] then [] else Insert(order, ids[0], Arranged(order, ids[1..]))
  }

  predicate Ascending(order: seq<string>, s: seq<string>) {
    forall i, j | 0 <= i < j < |s| :: Rank(order, s[i]) <= Rank(order, s[j])
  }

  /** The ids of one rank, in the order they have in s. */
  function OfRank(order: seq<string>, s: seq<string>, k: int): seq<string> {
    if s == [] then [] else (if Rank(order, s[0]) == k then [s[0]] else []) + OfRank(order, s[1..], k)
  }

  lemma {:induction false} InsertAdds(order: seq<string>, x: string, s: seq<string>)
    ensures multiset(Insert(order, x, s)) == multiset(s) + multiset{x}
  {
    if s != [] && Rank(order, x) > Rank(order, s[0]) {
      InsertAdds(order, x, s[1..]);
      assert s == [s[0]] + s[1..];
    }
  }

  predicate NotBelow(order: seq<string>, k: int, s: seq<string>) {
    forall j | 0 <= j < |s| :: k <= Rank(order, s[j])
  }

  lemma AscendingCons(order: seq<string>, x: string, s: seq<string>)
    ensures Ascending(order, [x] + s) <==> NotBelow(order, Rank(order, x), s) && Ascending(order, s)
  {
    var t := [x] + s;
    assert forall j | 0 <= j < |s| :: t[j + 1] == s[j];
    if Ascending(order, t) {
      forall i, j | 0 <= i < j < |s|
        ensures Rank(order, s[i]) <= Rank(order, s[j])
      {
        assert Rank(order, t[i + 1]) <= Rank(order, t[j + 1]);
      }
      forall j | 0 <= j < |s|
        ensures Rank(order, x) <= Rank(order, s[j])
      {
        assert Rank(order, t[0]) <= Rank(order, t[j + 1]);
      }
    }
  }

  lemma {:induction false} InsertAbove(order: seq<string>, x: string, s: seq<string>, k: int)
    requires NotBelow(order, k, s) && k <= Rank(order, x)
    ensures NotBelow(order, k, Insert(order, x, s))
  {
    if s != [] && Rank(order, x) > Rank(order, s[0]) {
      InsertAbove(order, x, s[1..], k);
    }
  }

  lemma {:induction false} InsertAscends(order: seq<string>, x: string, s: seq<string>)
    requires Ascending(order, s)
    ensures Ascending(order, Insert(order, x, s))
  {
    hide Rank, Ascending;
    AscendingCons(order, x, s);
    if s != [] {
      assert s == [s[0]] + s[1..];
      AscendingCons(order, s[0], s[1..]);
      if Rank(order, x) <= Rank(order, s[0]) {
      } else {
        InsertAscends(order, x, s[1..]);
        InsertAbove(order, x, s[1..], Rank(order, s[0]));
        AscendingCons(order, s[0], Insert(order, x, s[1..]));
      }
    }
  }

  lemma OfRankCons(order: seq<string>, x: string, s: seq<string>, k: int)
    ensures OfRank(order, [x] + s, k) == (if Rank(order, x) == k then [x] else []) + OfRank(order, s, k)
  {
    assert ([x] + s)[1..] == s;
  }

  lemma {:induction false} InsertStable(order: seq<string>, x: string, s: seq<string>, k: int)
    ensures OfRank(order, Insert(order, x, s), k) == (if Rank(order, x) == k then [x] else []) + OfRank(order, s, k)
  {
    if s == [] || Rank(order, x) <= Rank(order, s[0]) {
      OfRankCons(order, x, s, k);
    } else {
      InsertStable(order, x, s[1..], k);
      OfRankCons(order, s[0], Insert(order, x, s[1..]), k);
    }
  }

  /** Sorting keeps every slot, sorts by rank, and keeps the order of slots of equal rank. */
  lemma {:induction false} ArrangedIsStableSort(order: seq<string>, ids: seq<string>)
    ensures multiset(Arranged(order, ids)) == multiset(ids)
    ensures Ascending(order, Arranged(order, ids))
    ensures forall k :: OfRank(order, Arranged(order, ids), k) == OfRank(order, ids, k)
  {
    if ids != [] {
      ArrangedIsStableSort(order, ids[1..]);
      InsertAdds(order, ids[0], Arranged(order, ids[1..]));
      InsertAscends(order, ids[0], Arranged(order, ids[1..]));
      assert ids == [ids[0]] + ids[1..];
      forall k
        ensures OfRank(order, Arranged(order, ids), k) == OfRank(order, ids, k)
      {
        InsertStable(order, ids[0], Arranged(order, ids[1..]), k);
      }
    }
  }

  lemma DistinctCounts(s: seq<string>, x: string)
    requires Distinct(s)
    ensures multiset(s)[x] <= 1
  {
    if s != [] {
      assert s == [s[0]] + s[1..];
      DistinctCounts(s[1..], x);
      if x == s[0] {
        assert x !in s[1..];
      }
    }
  }

  lemma {:induction false} CountsDistinct(s: seq<string>)
    requires forall x :: multiset(s)[x] <= 1
    ensures Distinct(s)
  {
    forall i, j | 0 <= i < j < |s|
      ensures s[i] != s[j]
    {
      assert s == s[..j] + s[j..];
      assert s[i] == s[..j][i] && s[j] == s[j..][0];
      assert s[i] in multiset(s[..j]) && s[j] in multiset(s[j..]);
      assert multiset(s)[s[i]] == multiset(s[..j])[s[i]] + multiset(s[j..])[s[i]];
    }
  }

  lemma ArrangedDistinct(order: seq<string>, ids: seq<string>)
    requires Distinct(ids)
    ensures Distinct(Arranged(order, ids)) && forall x :: x in Arranged(order, ids) <==> x in ids
  {
    hide Distinct, Arranged;
    ArrangedIsStableSort(order, ids);
    var r := Arranged(order, ids);
    forall x
      ensures multiset(r)[x] <= 1 && (x in r <==> x in ids)
    {
      DistinctCounts(ids, x);
      assert x in r <==> x in multiset(r);
    }
    CountsDistinct(r);
  }

  predicate Before(order: seq<string>, x: string, y: string) {
    0 <= Rank(order, x) < Rank(order, y)
  }

  predicate Strict(order: seq<string>, s: seq<string>) {
    forall i, j | 0 <= i < j < |s| :: Before(order, s[i], s[j])
  }

  lemma RankIsPlace(order: seq<string>, id: string)
    requires id in order
    ensures 0 <= Rank(order, id) < |order| && order[Rank(order, id)] == id
  {
  }

  /** Distinct known ids come out in strict sidebar order. */
  lemma StrictOrder(order: seq<string>, ids: seq<string>)
    requires Distinct(ids) && forall x | x in ids :: x in order
    ensures Strict(order, Arranged(order, ids))
  {
    hide Arranged;
    ArrangedIsStableSort(order, ids);
    ArrangedDistinct(order, ids);
    var r := Arranged(order, ids);
    forall i, j | 0 <= i < j < |r|
      ensures Before(order, r[i], r[j])
    {
      assert r[i] in ids && r[j] in ids && r[i] != r[j];
      assert Rank(order, r[i]) <= Rank(order, r[j]);
      RankIsPlace(order, r[i]);
      RankIsPlace(order, r[j]);
    }
  }

  /** The dashboard comes first if and only if every id is known: unknown ones sort before it. */
  lemma DashboardFirst(order: seq<string>, ids: seq<string>)
    requires Distinct(ids) && order != [] && order[0] in ids
    ensures Arranged(order, ids) != []
    ensures Arranged(order, ids)[0] == order[0] <==> forall x | x in ids :: x in order
  {
    ArrangedIsStableSort(order, ids);
    ArrangedDistinct(order, ids);
    var r := Arranged(order, ids);
    assert Rank(order, order[0]) == 0;
    var d :| 0 <= d < |r| && r[d] == order[0];
    if forall x | x in ids :: x in order {
      StrictOrder(order, ids);
      assert d > 0 ==> Before(order, r[0], r[d]);
    }
    if r[0] == order[0] {
      forall x | x in ids
        ensures x in order
      {
        var k :| 0 <= k < |r| && r[k] == x;
        assert Rank(order, r[0]) <= Rank(order, r[k]);
      }
    }
  }

  /** Start-up leaves the slots as navigation needs them. */
  lemma StartUpIsRegistered(ids: seq<string>, monitors: set<string>)
    requires Distinct(ids) && DASHBOARD in ids && forall x | x in ids :: x in SIDEBAR_ORDER
    ensures Registered(Config(Arranged(SIDEBAR_ORDER, ids), (set x | x in ids), monitors))
  {
    hide Arranged;
    var order := SIDEBAR_ORDER;
    assert order[0] == DASHBOARD;
    DashboardFirst(order, ids);
    ArrangedDistinct(order, ids);
  }
}
