/** Histories in which the rate manager answers with longer paths than there are. */
module RateExample {
  import opened Wrappers
  import opened RateGraph
  import opened RateManagers

  const STEPS: seq<CcyPair> := [
    CcyPair(1, 2), CcyPair(2, 1), CcyPair(1, 3), CcyPair(3, 9), CcyPair(2, 4), CcyPair(4, 5), CcyPair(5, 6),
    CcyPair(6, 9), CcyPair(8, 2)
  ]

  ghost predicate OnlySteps(rates: Rates) {
    rates.Keys == set pair | pair in STEPS
  }

  method EnterRates(steps: seq<CcyPair>) returns (manager: CurrentRateManager)
    requires forall pair :: pair in steps ==> pair.Valid()
    ensures fresh(manager) && manager.Valid() && manager.pathMap == map[]
    ensures manager.bidRateMap.Keys == set pair | pair in steps
  {
    manager := new CurrentRateManager();
    var i := 0;
    while i < |steps|
      invariant i <= |steps| && fresh(manager) && manager.Valid() && manager.pathMap == map[]
      invariant manager.bidRateMap.Keys == set pair | pair in steps[..i]
    {
      var ok := manager.SetBidRate(steps[i], 1.0);
      assert steps[..i + 1] == steps[..i] + [steps[i]];
      i := i + 1;
    }
    assert steps[..i] == steps;
  }

  lemma StepsFrom(rates: Rates, a: Ccy, b: Ccy)
    requires OnlySteps(rates) && Edge(rates, a, b)
    ensures a == 1 ==> b == 2 || b == 3
    ensures a == 2 ==> b == 1 || b == 4
    ensures a == 3 ==> b == 9
    ensures a == 4 ==> b == 5
    ensures a == 5 ==> b == 6
    ensures a == 6 ==> b == 9
    ensures a == 8 ==> b == 2
    ensures a != 9
  {
    assert CcyPair(a, b) in STEPS;
  }

  /** Without going over 1 there is one path from 2 to 9, and it is long. */
  lemma OnePathAvoids(rates: Rates, p: seq<Ccy>)
    requires OnlySteps(rates) && PathOf(rates, p, 2, 9) && 1 !in p
    ensures p == [2, 4, 5, 6, 9]
  {
    assert Edge(rates, p[0], p[1]);
    StepsFrom(rates, p[0], p[1]);
    assert Edge(rates, p[1], p[2]);
    StepsFrom(rates, p[1], p[2]);
    assert Edge(rates, p[2], p[3]);
    StepsFrom(rates, p[2], p[3]);
    assert Edge(rates, p[3], p[4]);
    StepsFrom(rates, p[3], p[4]);
  }

  lemma PathsThere(rates: Rates)
    requires OnlySteps(rates)
    ensures PathOf(rates, [1, 3, 9], 1, 9) && PathOf(rates, [2, 1, 3, 9], 2, 9)
    ensures PathOf(rates, [8, 2, 1, 3, 9], 8, 9)
  {
    assert STEPS[1] in STEPS && STEPS[2] in STEPS && STEPS[3] in STEPS && STEPS[8] in STEPS;
  }

  lemma LongPathThere(rates: Rates)
    requires OnlySteps(rates)
    ensures PathOf(rates, [2, 4, 5, 6, 9], 2, 9) && ReachableAvoiding(rates, 2, 9, [1]) && Edge(rates, 1, 2)
  {
    assert STEPS[0] in STEPS && STEPS[4] in STEPS && STEPS[5] in STEPS && STEPS[6] in STEPS && STEPS[7] in STEPS;
    assert Avoids([2, 4, 5, 6, 9], [1]);
  }

  lemma Reached(rates: Rates, p: seq<Ccy>, a: Ccy)
    requires PathOf(rates, p, a, 9)
    ensures Reachable(rates, a, 9)
  {
  }

  lemma FromEight(rates: Rates, paths: Paths)
    requires OnlySteps(rates) && CacheOk(rates, paths)
    requires CcyPair(2, 9) in paths && CcyPair(8, 9) in paths
    ensures paths[CcyPair(8, 9)] == [8] + paths[CcyPair(2, 9)]
  {
    var p := paths[CcyPair(8, 9)];
    assert PathOf(rates, p, 8, 9) && TailsCached(paths, p, 9);
    assert Edge(rates, p[0], p[1]);
    StepsFrom(rates, p[0], p[1]);
    assert paths[CcyPair(p[1], 9)] == p[1..];
    assert p == [p[0]] + p[1..];
  }

  /** Asking for (1, 9) leaves behind the long path of (2, 9), which had to avoid 1. */
  method AskFirst(manager: CurrentRateManager)
    requires manager.Valid() && OnlySteps(manager.bidRateMap) && manager.pathMap == map[]
    modifies manager`pathMap
    ensures manager.Valid()
    ensures CcyPair(2, 9) in manager.pathMap && manager.pathMap[CcyPair(2, 9)] == [2, 4, 5, 6, 9]
  {
    PathsThere(manager.bidRateMap);
    LongPathThere(manager.bidRateMap);
    Reached(manager.bidRateMap, [1, 3, 9], 1);
    assert CcyPair(1, 9) !in STEPS;
    var path := manager.GetPath(CcyPair(1, 9));
    LongPathKept(manager, path.value);
  }

  lemma LongPathKept(manager: CurrentRateManager, path: seq<Ccy>)
    requires manager.Valid() && OnlySteps(manager.bidRateMap) && CcyPair(1, 9) !in manager.bidRateMap
    requires Found(manager.bidRateMap, manager.pathMap, CcyPair(1, 9), [], path)
    requires ReachableAvoiding(manager.bidRateMap, 2, 9, [1])
    requires Edge(manager.bidRateMap, 1, 2)
    ensures CcyPair(2, 9) in manager.pathMap && manager.pathMap[CcyPair(2, 9)] == [2, 4, 5, 6, 9]
  {
    assert [] + [1] == [1];
    assert LeadsOn(manager.bidRateMap, CcyPair(1, 9), [], 2);
    assert CachedNoBetter(manager.pathMap, CcyPair(1, 9), [], 2, path[1..]);
    var cached := manager.pathMap[CcyPair(2, 9)];
    assert PathOf(manager.bidRateMap, cached, 2, 9);
    OnePathAvoids(manager.bidRateMap, cached);
  }

  /** (2, 9) is then answered from the cache, with five currencies where four suffice. */
  method AskSecond(manager: CurrentRateManager) returns (path: Option<seq<Ccy>>)
    requires manager.Valid() && OnlySteps(manager.bidRateMap)
    requires CcyPair(2, 9) in manager.pathMap && manager.pathMap[CcyPair(2, 9)] == [2, 4, 5, 6, 9]
    modifies manager`pathMap
    ensures manager.Valid() && path == Some([2, 4, 5, 6, 9])
    ensures CcyPair(2, 9) in manager.pathMap && manager.pathMap[CcyPair(2, 9)] == [2, 4, 5, 6, 9]
  {
    PathsThere(manager.bidRateMap);
    Reached(manager.bidRateMap, [2, 1, 3, 9], 2);
    path := manager.GetPath(CcyPair(2, 9));
  }

  /** And the path from 8, which only leads to 2, comes to six currencies instead of five. */
  method AskThird(manager: CurrentRateManager) returns (path: Option<seq<Ccy>>)
    requires manager.Valid() && OnlySteps(manager.bidRateMap)
    requires CcyPair(2, 9) in manager.pathMap && manager.pathMap[CcyPair(2, 9)] == [2, 4, 5, 6, 9]
    modifies manager`pathMap
    ensures path == Some([8, 2, 4, 5, 6, 9])
  {
    PathsThere(manager.bidRateMap);
    Reached(manager.bidRateMap, [8, 2, 1, 3, 9], 8);
    path := manager.GetPath(CcyPair(8, 9));
    FromEight(manager.bidRateMap, manager.pathMap);
    assert [8] + [2, 4, 5, 6, 9] == [8, 2, 4, 5, 6, 9];
  }

  /** Three questions in a row, of which the last two get answers that are longer than they need be. */
  method LongerThanNeeded() returns (manager: CurrentRateManager, second: Option<seq<Ccy>>, third: Option<seq<Ccy>>)
    ensures second == Some([2, 4, 5, 6, 9]) && PathOf(manager.bidRateMap, [2, 1, 3, 9], 2, 9)
    ensures third == Some([8, 2, 4, 5, 6, 9]) && PathOf(manager.bidRateMap, [8, 2, 1, 3, 9], 8, 9)
  {
    manager := EnterRates(STEPS);
    AskFirst(manager);
    second := AskSecond(manager);
    third := AskThird(manager);
    PathsThere(manager.bidRateMap);
  }

  // ---------------------------------------------------------------------------------------------------------
  // Asked of a new manager
  // ---------------------------------------------------------------------------------------------------------

  /** Two ways from 1 to 9, over 2 and over 3; the shorter one goes over 3 and 5. */
  const TWO_WAYS: seq<CcyPair> := [
    CcyPair(1, 2), CcyPair(1, 3), CcyPair(2, 4), CcyPair(4, 5), CcyPair(5, 3), CcyPair(3, 5), CcyPair(5, 6),
    CcyPair(6, 9), CcyPair(3, 7), CcyPair(7, 8), CcyPair(8, 10), CcyPair(10, 9)
  ]

  ghost predicate OnlyTwoWays(rates: Rates) {
    rates.Keys == set pair | pair in TWO_WAYS
  }

  lemma WaysFrom(rates: Rates, a: Ccy, b: Ccy)
    requires OnlyTwoWays(rates) && Edge(rates, a, b)
    ensures a == 1 ==> b == 2 || b == 3
    ensures a == 2 ==> b == 4
    ensures a == 3 ==> b == 5 || b == 7
    ensures a == 4 ==> b == 5
    ensures a == 5 ==> b == 3 || b == 6
    ensures a == 6 ==> b == 9
    ensures a == 7 ==> b == 8
    ensures a == 8 ==> b == 10
    ensures a == 10 ==> b == 9
    ensures a != 9 && b != 1
    ensures b == 2 ==> a == 1
    ensures b == 4 ==> a == 2
    ensures b == 5 ==> a == 4 || a == 3
    ensures b == 3 ==> a == 1 || a == 5
  {
    assert CcyPair(a, b) in TWO_WAYS;
  }

  lemma WayThere(rates: Rates, k: nat)
    requires OnlyTwoWays(rates) && k < |TWO_WAYS|
    ensures TWO_WAYS[k] in rates
  {
    assert TWO_WAYS[k] in TWO_WAYS;
  }

  lemma FirstWayThere(rates: Rates)
    requires OnlyTwoWays(rates)
    ensures PathOf(rates, [2, 4, 5, 6, 9], 2, 9) && PathOf(rates, [4, 5, 6, 9], 4, 9) && PathOf(rates, [5, 6, 9], 5, 9)
    ensures Edge(rates, 1, 2) && Edge(rates, 2, 4) && Edge(rates, 4, 5)
  {
    WayThere(rates, 0);
    WayThere(rates, 2);
    WayThere(rates, 3);
    WayThere(rates, 6);
    WayThere(rates, 7);
  }

  lemma ShortWayThere(rates: Rates)
    requires OnlyTwoWays(rates)
    ensures PathOf(rates, [1, 3, 5, 6, 9], 1, 9)
  {
    WayThere(rates, 1);
    WayThere(rates, 5);
    WayThere(rates, 6);
    WayThere(rates, 7);
  }

  lemma DetourThere(rates: Rates)
    requires OnlyTwoWays(rates)
    ensures PathOf(rates, [3, 7, 8, 10, 9], 3, 9) && Edge(rates, 5, 3)
  {
    WayThere(rates, 4);
    WayThere(rates, 8);
    WayThere(rates, 9);
    WayThere(rates, 10);
    WayThere(rates, 11);
  }

  /** From 3 without 5 there is only the long way. */
  lemma OneWayAvoids(rates: Rates, p: seq<Ccy>)
    requires OnlyTwoWays(rates) && PathOf(rates, p, 3, 9) && 5 !in p
    ensures |p| >= 5
  {
    assert Edge(rates, p[0], p[1]);
    WaysFrom(rates, p[0], p[1]);
    assert Edge(rates, p[1], p[2]);
    WaysFrom(rates, p[1], p[2]);
    assert Edge(rates, p[2], p[3]);
    WaysFrom(rates, p[2], p[3]);
  }

  lemma FromTwo(rates: Rates, p: seq<Ccy>)
    requires OnlyTwoWays(rates) && PathOf(rates, p, 2, 9)
    ensures |p| >= 5
  {
    assert Edge(rates, p[0], p[1]);
    WaysFrom(rates, p[0], p[1]);
    assert Edge(rates, p[1], p[2]);
    WaysFrom(rates, p[1], p[2]);
    assert Edge(rates, p[2], p[3]);
    WaysFrom(rates, p[2], p[3]);
  }

  lemma StepBack(rates: Rates, q: seq<Ccy>, a: Ccy, b: Ccy)
    requires Walk(rates, q + [a] + [b])
    ensures Walk(rates, q + [a]) && Edge(rates, a, b)
  {
    var p := q + [a] + [b];
    assert Edge(rates, p[|q|], p[|q| + 1]);
    forall i | 0 <= i < |q + [a]| - 1 ensures Edge(rates, (q + [a])[i], (q + [a])[i + 1]) {
      assert Edge(rates, p[i], p[i + 1]);
    }
  }

  /** Only the start is before 2, and nothing before the start. */
  lemma OnlyStartBefore(rates: Rates, q: seq<Ccy>, b: Ccy)
    requires OnlyTwoWays(rates) && q != [] && Walk(rates, q + [b]) && b in {1, 2}
    ensures b == 2 && q == [1]
  {
    var r, a := q[..|q| - 1], q[|q| - 1];
    assert q == r + [a];
    StepBack(rates, r, a, b);
    WaysFrom(rates, a, b);
    if r != [] {
      assert r + [a] == r[..|r| - 1] + [r[|r| - 1]] + [a];
      StepBack(rates, r[..|r| - 1], r[|r| - 1], a);
      WaysFrom(rates, r[|r| - 1], a);
    }
  }

  /** The search comes to 4 along 1 and 2 only. */
  lemma ChainToFour(rates: Rates, chain: seq<Ccy>)
    requires OnlyTwoWays(rates) && [1, 2] <= chain && Walk(rates, chain + [4])
    ensures chain == [1, 2]
  {
    var q, a := chain[..|chain| - 1], chain[|chain| - 1];
    assert chain == q + [a];
    StepBack(rates, q, a, 4);
    WaysFrom(rates, a, 4);
    OnlyStartBefore(rates, q, 2);
  }

  /** And to 5 along 4. */
  lemma ChainToFive(rates: Rates, chain: seq<Ccy>)
    requires OnlyTwoWays(rates) && [1, 2] <= chain && Walk(rates, chain + [5]) && 5 !in chain
    ensures chain == [1, 2, 4]
  {
    var q, a := chain[..|chain| - 1], chain[|chain| - 1];
    assert chain == q + [a];
    StepBack(rates, q, a, 5);
    WaysFrom(rates, a, 5);
    assert |q| >= 2 && [1, 2] <= q;
    if a == 3 {
      NotOverThree(rates, q);
    } else {
      ChainToFour(rates, q);
    }
  }

  lemma NotOverThree(rates: Rates, q: seq<Ccy>)
    requires OnlyTwoWays(rates) && [1, 2] <= q && Walk(rates, q + [3])
    ensures 5 in q
  {
    var r, a := q[..|q| - 1], q[|q| - 1];
    assert q == r + [a];
    StepBack(rates, r, a, 3);
    WaysFrom(rates, a, 3);
    if a == 1 {
      OnlyStartBefore(rates, r, 1);
    }
  }

  /** A neighbour that leads on has got a path. */
  lemma Next(rates: Rates, m: Paths, a: Ccy, chain: seq<Ccy>, x: Ccy)
    requires CcyPair(a, 9) in m && CcyPair(a, 9) !in rates && Found(rates, m, CcyPair(a, 9), chain, m[CcyPair(a, 9)])
    requires LeadsOn(rates, CcyPair(a, 9), chain, x)
    ensures CcyPair(x, 9) in m && Avoids(m[CcyPair(x, 9)], chain + [a])
  {
    assert CachedNoBetter(m, CcyPair(a, 9), chain, x, m[CcyPair(a, 9)][1..]);
  }

  lemma Leads(rates: Rates, a: Ccy, chain: seq<Ccy>, x: Ccy, p: seq<Ccy>)
    requires Edge(rates, a, x) && x !in chain + [a] && PathOf(rates, p, x, 9) && Avoids(p, chain + [a])
    ensures LeadsOn(rates, CcyPair(a, 9), chain, x)
  {
  }

  lemma TwoLeadsToFour(rates: Rates)
    requires OnlyTwoWays(rates)
    ensures LeadsOn(rates, CcyPair(2, 9), [1], 4)
  {
    FirstWayThere(rates);
    Leads(rates, 2, [1], 4, [4, 5, 6, 9]);
  }

  lemma FourLeadsToFive(rates: Rates)
    requires OnlyTwoWays(rates)
    ensures LeadsOn(rates, CcyPair(4, 9), [1, 2], 5)
  {
    FirstWayThere(rates);
    Leads(rates, 4, [1, 2], 5, [5, 6, 9]);
  }

  lemma FiveLeadsToThree(rates: Rates)
    requires OnlyTwoWays(rates)
    ensures LeadsOn(rates, CcyPair(5, 9), [1, 2, 4], 3)
  {
    DetourThere(rates);
    Leads(rates, 5, [1, 2, 4], 3, [3, 7, 8, 10, 9]);
  }

  lemma NotDirect(rates: Rates, a: Ccy)
    requires OnlyTwoWays(rates) && a in {1, 2, 4, 5}
    ensures CcyPair(a, 9) !in rates
  {
    assert CcyPair(a, 9) !in TWO_WAYS;
  }

  /** The first search goes along 1, 2, 4, 5 and on to 3, which has to avoid 5. */
  lemma ThreeMadeLong(rates: Rates, m: Paths)
    requires OnlyTwoWays(rates) && AllFound(rates, map[], m, CcyPair(2, 9), [1]) && CcyPair(2, 9) in m
    ensures CcyPair(3, 9) in m && Avoids(m[CcyPair(3, 9)], [1, 2, 4] + [5])
  {
    FromTwoToFour(rates, m);
    FromFourToFive(rates, m);
    FiveLeadsToThree(rates);
    NotDirect(rates, 5);
    Next(rates, m, 5, [1, 2, 4], 3);
  }

  lemma FromTwoToFour(rates: Rates, m: Paths)
    requires OnlyTwoWays(rates) && AllFound(rates, map[], m, CcyPair(2, 9), [1]) && CcyPair(2, 9) in m
    ensures CcyPair(4, 9) in m && Found(rates, m, CcyPair(4, 9), [1, 2], m[CcyPair(4, 9)])
  {
    TwoLeadsToFour(rates);
    NotDirect(rates, 2);
    Next(rates, m, 2, [1], 4);
    BelowTwo(rates, m, 4);
    var chain :| FoundAlong(rates, m, CcyPair(4, 9), [1, 2], chain);
    ChainToFour(rates, chain);
  }

  lemma BelowTwo(rates: Rates, m: Paths, x: Ccy)
    requires AllFound(rates, map[], m, CcyPair(2, 9), [1]) && CcyPair(x, 9) in m && x != 2
    ensures FoundBelow(rates, m, CcyPair(x, 9), [1, 2])
  {
    assert [1] + [2] == [1, 2];
  }

  lemma FiveFound(rates: Rates, m: Paths)
    requires OnlyTwoWays(rates) && FoundBelow(rates, m, CcyPair(5, 9), [1, 2])
    ensures CcyPair(5, 9) in m && Found(rates, m, CcyPair(5, 9), [1, 2, 4], m[CcyPair(5, 9)])
  {
    var chain :| FoundAlong(rates, m, CcyPair(5, 9), [1, 2], chain);
    ChainToFive(rates, chain);
  }

  lemma FromFourToFive(rates: Rates, m: Paths)
    requires OnlyTwoWays(rates) && AllFound(rates, map[], m, CcyPair(2, 9), [1])
    requires CcyPair(4, 9) in m && Found(rates, m, CcyPair(4, 9), [1, 2], m[CcyPair(4, 9)])
    ensures CcyPair(5, 9) in m && Found(rates, m, CcyPair(5, 9), [1, 2, 4], m[CcyPair(5, 9)])
  {
    FourLeadsToFive(rates);
    NotDirect(rates, 4);
    Next(rates, m, 4, [1, 2], 5);
    BelowTwo(rates, m, 5);
    FiveFound(rates, m);
  }

  lemma TwoComesFirst(rates: Rates)
    requires OnlyTwoWays(rates)
    ensures FirstUsable(rates, CcyPair(1, 9), [], 2) && ReachableAvoiding(rates, 2, 9, [1])
    ensures forall x :: Usable(rates, CcyPair(1, 9), [], x) ==> x == 2 || x == 3
  {
    FirstWayThere(rates);
    forall x | Usable(rates, CcyPair(1, 9), [], x) ensures x == 2 || x == 3 {
      WaysFrom(rates, 1, x);
    }
    assert Avoids([2, 4, 5, 6, 9], [1]);
  }

  lemma ThreeStaysLong(rates: Rates, paths: Paths)
    requires OnlyTwoWays(rates) && BeganWithFirst(rates, map[], paths, CcyPair(1, 9), [])
    ensures CcyPair(3, 9) in paths && 5 !in paths[CcyPair(3, 9)]
  {
    TwoComesFirst(rates);
    var m :| BeganWith(rates, map[], m, paths, CcyPair(1, 9), [], 2);
    assert [] + [1] == [1];
    ThreeMadeLong(rates, m);
  }

  /** What the first search has left behind makes the whole path too long. */
  lemma WholePathLong(rates: Rates, paths: Paths, path: seq<Ccy>)
    requires OnlyTwoWays(rates) && CacheOk(rates, paths) && CcyPair(1, 9) !in rates
    requires Found(rates, paths, CcyPair(1, 9), [], path) && BeganWithFirst(rates, map[], paths, CcyPair(1, 9), [])
    ensures |path| >= 6
  {
    ThreeStaysLong(rates, paths);
    TwoComesFirst(rates);
    var sub := path[1..];
    assert PathOf(rates, sub, sub[0], 9);
    if sub[0] == 3 {
      OneWayAvoids(rates, sub);
    } else {
      FromTwo(rates, sub);
    }
  }

  /** Even a new manager answers the first question with six currencies where five suffice. */
  method LongerFromTheStart() returns (manager: CurrentRateManager, path: Option<seq<Ccy>>)
    ensures path.Some? && |path.value| >= 6 && PathOf(manager.bidRateMap, [1, 3, 5, 6, 9], 1, 9)
  {
    manager := EnterRates(TWO_WAYS);
    ShortWayThere(manager.bidRateMap);
    Reached(manager.bidRateMap, [1, 3, 5, 6, 9], 1);
    assert CcyPair(1, 9) !in TWO_WAYS;
    path := manager.GetPath(CcyPair(1, 9));
    WholePathLong(manager.bidRateMap, manager.pathMap, path.value);
  }
}
