/** The manager of current rates: rate entry, memoised path search and rate queries (`CurrentRateManager`). */
module RateManagers {
  import opened Wrappers
  import opened RateGraph

  class CurrentRateManager {
    var bidRateMap: Rates
    var currencies: set<Ccy>
    var pathMap: Paths

    ghost predicate Valid()
      reads this
    {
      && PositiveRates(bidRateMap)
      && CacheOk(bidRateMap, pathMap)
      && currencies == Nodes(bidRateMap)
    }

    constructor ()
      ensures Valid() && bidRateMap == map[] && pathMap == map[]
    {
      bidRateMap, currencies, pathMap := map[], {}, map[];
    }

    method SetBidRate(cp: CcyPair, rate: real) returns (ok: bool)
      requires Valid()
      modifies this
      ensures Valid() && pathMap == old(pathMap)
      ensures ok <==> rate > 0.0 && cp.Valid()
      ensures bidRateMap == if ok then old(bidRateMap)[cp := rate] else old(bidRateMap)
    {
      if rate > 0.0 && cp.Valid() {
        CacheSurvivesRates(bidRateMap, pathMap, cp, rate);
        if cp !in bidRateMap {
          currencies := currencies + {cp.baseCcy, cp.quoteCcy};
        }
        ghost var before := bidRateMap;
        bidRateMap := bidRateMap[cp := rate];
        NodesGrow(before, cp, rate);
        return true;
      }
      return false;
    }

    lemma NodesGrow(rates: Rates, cp: CcyPair, rate: real)
      ensures Nodes(rates[cp := rate]) == Nodes(rates) + {cp.baseCcy, cp.quoteCcy}
    {
      assert forall pair :: pair in rates[cp := rate] <==> pair in rates || pair == cp;
    }

    method SetAskRate(cp: CcyPair, rate: real) returns (ok: bool)
      requires Valid()
      modifies this
      ensures Valid() && pathMap == old(pathMap)
      ensures ok <==> rate > 0.0 && cp.Valid()
      ensures bidRateMap == if ok then old(bidRateMap)[cp.Reverse() := 1.0 / rate] else old(bidRateMap)
      ensures ok ==>
                var back := CcyPair(cp.quoteCcy, cp.baseCcy);
                bidRateMap.Keys == old(bidRateMap).Keys + {back} && bidRateMap[back] * rate == 1.0
    {
      if rate > 0.0 {
        ok := SetBidRate(cp.Reverse(), 1.0 / rate);
      } else {
        ok := false;
      }
    }

    /** The search stands at `cp`: the ignore list is the chain of currencies it came through, none of them cached. */
    ghost predicate SearchOk(cp: CcyPair, ignore: seq<Ccy>)
      reads this
    {
      && Valid()
      && cp.baseCcy != cp.quoteCcy && cp.baseCcy !in ignore && cp.quoteCcy !in ignore
      && Walk(bidRateMap, ignore + [cp.baseCcy])
      && Uncached(pathMap, ignore, cp.quoteCcy)
    }

    /** Wherever three currencies suffice, the cached paths towards `z` are and stay shortest ones. */
    twostate predicate StaysShort(ignore: seq<Ccy>, z: Ccy)
      reads this
    {
      old(ShortTowards(bidRateMap, pathMap, z)) && NoneDirect(bidRateMap, ignore, z) ==>
            ShortTowards(bidRateMap, pathMap, z)
    }

    /** Only paths to the currency searched for have been added to the cache. */
    twostate predicate CacheGrew(z: Ccy)
      reads this
    {
      Extends(old(pathMap), pathMap) && OnlyToward(old(pathMap), pathMap, z)
    }

    method AddPath(cp: CcyPair, newPath: seq<Ccy>) returns (path: seq<Ccy>)
      modifies this`pathMap
      ensures pathMap == if cp in old(pathMap) then old(pathMap) else old(pathMap)[cp := newPath]
      ensures path == pathMap[cp]
    {
      if cp !in pathMap {
        pathMap := pathMap[cp := newPath];
      }
      return pathMap[cp];
    }

    /**
      Finds a path that avoids the ignore list, remembering what it finds.  It finds one exactly if there is one.
      A path it had to search for is one currency longer than the shortest of the paths cached for the neighbours,
      and afterwards every neighbour that leads on has one; so it is with all that was found on the way.  The
      neighbours are tried in the order of the rates.
     */
    method GetPathAvoiding(cp: CcyPair, ignore: seq<Ccy>) returns (path: Option<seq<Ccy>>)
      requires SearchOk(cp, ignore)
      modifies this`pathMap
      ensures SearchOk(cp, ignore) && CacheGrew(cp.quoteCcy) && StaysShort(ignore, cp.quoteCcy)
      ensures path.Some? ==> cp in pathMap && path.value == pathMap[cp]
      ensures path.Some? <==> cp.Valid() && ReachableAvoiding(bidRateMap, cp.baseCcy, cp.quoteCcy, ignore)
      ensures AllFound(bidRateMap, old(pathMap), pathMap, cp, ignore)
      ensures cp.Valid() && cp !in old(pathMap) && cp !in bidRateMap ==>
                BeganWithFirst(bidRateMap, old(pathMap), pathMap, cp, ignore)
      decreases Left(bidRateMap, ignore), 1
    {
      if !cp.Valid() {
        return None;
      }
      if cp in pathMap {
        CachedMeansReachable(bidRateMap, pathMap, cp, ignore);
        return Some(pathMap[cp]);
      }
      if cp in bidRateMap {
        var direct := AddDirect(cp);
        CachedMeansReachable(bidRateMap, pathMap, cp, ignore);
        return Some(direct);
      }
      path := Search(cp, ignore);
    }

    /** The search proper, when nothing is known of the pair. */
    method Search(cp: CcyPair, ignore: seq<Ccy>) returns (path: Option<seq<Ccy>>)
      requires SearchOk(cp, ignore) && cp.Valid() && cp !in pathMap && cp !in bidRateMap
      modifies this`pathMap
      ensures SearchOk(cp, ignore) && CacheGrew(cp.quoteCcy) && StaysShort(ignore, cp.quoteCcy)
      ensures path.Some? ==> cp in pathMap && path.value == pathMap[cp]
      ensures AllFound(bidRateMap, old(pathMap), pathMap, cp, ignore)
      ensures BeganWithFirst(bidRateMap, old(pathMap), pathMap, cp, ignore)
      ensures path.Some? <==> ReachableAvoiding(bidRateMap, cp.baseCcy, cp.quoteCcy, ignore)
      decreases Left(bidRateMap, ignore), 0, 3
    {
      var best := BestSubPath(cp, ignore);
      if best.Some? {
        var longer := AddBest(cp, ignore, best.value, old(pathMap));
        path := Some(longer);
      } else {
        NowhereToGo(cp, ignore);
        NothingOwn(bidRateMap, old(pathMap), pathMap, cp, ignore);
        path := None;
      }
    }

    /** The path over the best neighbour, on top of what has been found below since `start`. */
    method AddBest(cp: CcyPair, ignore: seq<Ccy>, sub: seq<Ccy>, ghost start: Paths) returns (path: seq<Ccy>)
      requires SearchOk(cp, ignore) && cp !in pathMap && cp !in bidRateMap
      requires LeastOverNeighbours(bidRateMap, pathMap, cp, ignore, sub)
      requires AllFoundBelow(bidRateMap, start, pathMap, ignore + [cp.baseCcy])
      requires BeganWithFirst(bidRateMap, start, pathMap, cp, ignore)
      modifies this`pathMap
      ensures SearchOk(cp, ignore) && pathMap == old(pathMap)[cp := path] && StaysShort(ignore, cp.quoteCcy)
      ensures ReachableAvoiding(bidRateMap, cp.baseCcy, cp.quoteCcy, ignore)
      ensures AllFound(bidRateMap, start, pathMap, cp, ignore)
      ensures BeganWithFirst(bidRateMap, start, pathMap, cp, ignore)
    {
      path := AddLonger(cp, ignore, sub);
      CachedMeansReachable(bidRateMap, pathMap, cp, ignore);
      OwnLonger(cp, ignore, start, old(pathMap), path);
    }

    lemma OwnLonger(cp: CcyPair, ignore: seq<Ccy>, before: Paths, below: Paths, path: seq<Ccy>)
      requires AllFoundBelow(bidRateMap, before, below, ignore + [cp.baseCcy]) && cp !in below && cp !in bidRateMap
      requires |path| >= 3 && path[0] == cp.baseCcy && LeastOverNeighbours(bidRateMap, below, cp, ignore, path[1..])
      requires BeganWithFirst(bidRateMap, before, below, cp, ignore)
      ensures AllFound(bidRateMap, before, below[cp := path], cp, ignore)
      ensures BeganWithFirst(bidRateMap, before, below[cp := path], cp, ignore)
    {
      OwnFound(bidRateMap, before, below, cp, ignore, path);
      forall y | FirstUsable(bidRateMap, cp, ignore, y)
        ensures Began(bidRateMap, before, below[cp := path], cp, ignore, y)
      {
        BeganStays(bidRateMap, before, below, below[cp := path], cp, ignore, y);
      }
    }

    /** A direct rate is remembered as a path of two currencies. */
    method AddDirect(cp: CcyPair) returns (path: seq<Ccy>)
      requires Valid() && cp.Valid() && cp.baseCcy != cp.quoteCcy && cp !in pathMap && cp in bidRateMap
      modifies this`pathMap
      ensures Valid() && pathMap == old(pathMap)[cp := path] && path == [cp.baseCcy, cp.quoteCcy]
      ensures StaysShort([], cp.quoteCcy)
    {
      CacheGrowsDirect(bidRateMap, pathMap, cp.baseCcy, cp.quoteCcy);
      if ShortTowards(bidRateMap, pathMap, cp.quoteCcy) {
        DirectIsShortest(bidRateMap, cp.baseCcy, cp.quoteCcy, 3);
        ShortTowardsGrows(bidRateMap, pathMap, cp, [cp.baseCcy, cp.quoteCcy]);
      }
      path := AddPath(cp, [cp.baseCcy, cp.quoteCcy]);
    }

    /** The base currency in front of the best path found for a neighbour. */
    method AddLonger(cp: CcyPair, ignore: seq<Ccy>, sub: seq<Ccy>) returns (path: seq<Ccy>)
      requires SearchOk(cp, ignore) && cp !in pathMap && cp !in bidRateMap
      requires LeastOverNeighbours(bidRateMap, pathMap, cp, ignore, sub)
      modifies this`pathMap
      ensures Valid() && pathMap == old(pathMap)[cp := path] && path == [cp.baseCcy] + sub && |path| >= 3
      ensures LeastOverNeighbours(bidRateMap, old(pathMap), cp, ignore, path[1..])
      ensures StaysShort(ignore, cp.quoteCcy)
    {
      assert PathOf(bidRateMap, sub, sub[0], cp.quoteCcy);
      CacheGrows(bidRateMap, pathMap, cp.baseCcy, sub[0], cp.quoteCcy);
      if ShortTowards(bidRateMap, pathMap, cp.quoteCcy) && NoneDirect(bidRateMap, ignore, cp.quoteCcy) {
        SearchedIsShort(cp, ignore, sub);
        ShortTowardsGrows(bidRateMap, pathMap, cp, [cp.baseCcy] + sub);
      }
      path := AddPath(cp, [cp.baseCcy] + sub);
      assert path[1..] == sub;
    }

    /** A currency in between has a direct rate to the target, so no search comes through it, and it leads on. */
    lemma SearchedIsShort(cp: CcyPair, ignore: seq<Ccy>, sub: seq<Ccy>)
      requires SearchOk(cp, ignore) && cp !in bidRateMap && LeastOverNeighbours(bidRateMap, pathMap, cp, ignore, sub)
      requires ShortTowards(bidRateMap, pathMap, cp.quoteCcy) && NoneDirect(bidRateMap, ignore, cp.quoteCcy)
      ensures ShortestUpTo(bidRateMap, [cp.baseCcy] + sub, cp.baseCcy, cp.quoteCcy, 3)
    {
      forall q | PathOf(bidRateMap, q, cp.baseCcy, cp.quoteCcy) && |q| <= 3 ensures |[cp.baseCcy] + sub| <= |q| {
        assert Edge(bidRateMap, q[0], q[1]);
        TailAvoidsStart(bidRateMap, q, cp.baseCcy, cp.quoteCcy);
        assert Edge(bidRateMap, q[1], q[2]);
        assert Avoids(q[1..], ignore + [cp.baseCcy]);
        assert LeadsOn(bidRateMap, cp, ignore, q[1]);
        assert CachedNoBetter(pathMap, cp, ignore, q[1], sub);
        assert ShortestUpTo(bidRateMap, pathMap[CcyPair(q[1], cp.quoteCcy)], q[1], cp.quoteCcy, 3);
      }
    }

    /** With nothing to avoid the neighbours' paths are right up to three currencies, and the whole up to four. */
    lemma SearchedIsShortUpToFour(cp: CcyPair, path: seq<Ccy>)
      requires Valid() && cp.baseCcy != cp.quoteCcy && cp !in bidRateMap
      requires |path| >= 3 && LeastOverNeighbours(bidRateMap, pathMap, cp, [], path[1..])
      requires ShortTowards(bidRateMap, pathMap, cp.quoteCcy)
      ensures ShortestUpTo(bidRateMap, path, cp.baseCcy, cp.quoteCcy, 4)
    {
      forall q | PathOf(bidRateMap, q, cp.baseCcy, cp.quoteCcy) && |q| <= 4 ensures |path| <= |q| {
        assert Edge(bidRateMap, q[0], q[1]);
        TailAvoidsStart(bidRateMap, q, cp.baseCcy, cp.quoteCcy);
        assert Avoids(q[1..], [] + [cp.baseCcy]);
        assert LeadsOn(bidRateMap, cp, [], q[1]);
        assert CachedNoBetter(pathMap, cp, [], q[1], path[1..]);
        assert ShortestUpTo(bidRateMap, pathMap[CcyPair(q[1], cp.quoteCcy)], q[1], cp.quoteCcy, 3);
      }
    }

    lemma NowhereToGo(cp: CcyPair, ignore: seq<Ccy>)
      requires cp !in bidRateMap
      requires forall x :: !LeadsOn(bidRateMap, cp, ignore, x)
      ensures !ReachableAvoiding(bidRateMap, cp.baseCcy, cp.quoteCcy, ignore)
    {
      if ReachableAvoiding(bidRateMap, cp.baseCcy, cp.quoteCcy, ignore) {
        assert forall x ::
            Usable(bidRateMap, cp, ignore, x)
            && ReachableAvoiding(bidRateMap, x, cp.quoteCcy, ignore + [cp.baseCcy]) ==>
              LeadsOn(bidRateMap, cp, ignore, x);
        PathUnfolds(bidRateMap, cp.baseCcy, cp.quoteCcy, ignore);
      }
    }

    /** The loop over the neighbours: the shortest path to the target among those found through them. */
    method BestSubPath(cp: CcyPair, ignore: seq<Ccy>) returns (best: Option<seq<Ccy>>)
      requires SearchOk(cp, ignore) && cp.Valid() && cp !in pathMap && cp !in bidRateMap
      modifies this`pathMap
      ensures SearchOk(cp, ignore) && CacheGrew(cp.quoteCcy) && cp !in pathMap && StaysShort(ignore, cp.quoteCcy)
      ensures best.None? ==> forall x :: !LeadsOn(bidRateMap, cp, ignore, x)
      ensures best.Some? ==> LeastOverNeighbours(bidRateMap, pathMap, cp, ignore, best.value)
      ensures AllFoundBelow(bidRateMap, old(pathMap), pathMap, ignore + [cp.baseCcy])
      ensures BeganWithFirst(bidRateMap, old(pathMap), pathMap, cp, ignore)
      decreases Left(bidRateMap, ignore), 0, 2
    {
      var ignoring := ignore + [cp.baseCcy];
      var todo := bidRateMap.Keys;
      best := None;
      while todo != {}
        invariant LoopOk(cp, ignore, todo, best) && CacheGrew(cp.quoteCcy) && StaysShort(ignore, cp.quoteCcy)
        invariant AllFoundBelow(bidRateMap, old(pathMap), pathMap, ignoring)
        invariant InOrder(bidRateMap, old(pathMap), pathMap, cp, ignore, todo)
        decreases |todo|
      {
        todo, best := TryNext(cp, ignore, todo, best, old(pathMap));
      }
      AllTried(cp, ignore, best);
    }

    /** The loop is through with all rates but `todo`. */
    ghost predicate LoopOk(cp: CcyPair, ignore: seq<Ccy>, todo: set<CcyPair>, best: Option<seq<Ccy>>)
      reads this
    {
      && Valid() && todo <= bidRateMap.Keys && Uncached(pathMap, ignore + [cp.baseCcy], cp.quoteCcy)
      && (forall x :: Usable(bidRateMap, cp, ignore, x) && CcyPair(cp.baseCcy, x) !in todo ==>
            Tried(bidRateMap, pathMap, ignore + [cp.baseCcy], CcyPair(x, cp.quoteCcy), best))
      && (best.Some? ==> CachedNext(bidRateMap, pathMap, cp, ignore, best.value))
      && (best.Some? ==> CcyPair(cp.baseCcy, best.value[0]) !in todo)
    }

    /** One round of the loop. */
    method TryNext(cp: CcyPair, ignore: seq<Ccy>, todo: set<CcyPair>, best: Option<seq<Ccy>>, ghost start: Paths)
      returns (rest: set<CcyPair>, better: Option<seq<Ccy>>)
      requires SearchOk(cp, ignore) && cp.Valid() && cp !in pathMap && cp !in bidRateMap
      requires todo != {} && LoopOk(cp, ignore, todo, best)
      requires AllFoundBelow(bidRateMap, start, pathMap, ignore + [cp.baseCcy])
      requires InOrder(bidRateMap, start, pathMap, cp, ignore, todo)
      modifies this`pathMap
      ensures |rest| < |todo| && LoopOk(cp, ignore, rest, better)
      ensures CacheGrew(cp.quoteCcy) && StaysShort(ignore, cp.quoteCcy)
      ensures AllFoundBelow(bidRateMap, start, pathMap, ignore + [cp.baseCcy])
      ensures InOrder(bidRateMap, start, pathMap, cp, ignore, rest)
      decreases Left(bidRateMap, ignore), 0, 1
    {
      var ignoring := ignore + [cp.baseCcy];
      HasFirst(todo);
      var pair :| IsFirst(todo, pair);
      rest := todo - {pair};
      if pair.baseCcy == cp.baseCcy && pair.quoteCcy !in ignoring {
        if best.Some? {
          TriedComesBefore(bidRateMap, start, pathMap, cp, ignore, todo, best.value[0], pair.quoteCcy);
        }
        better := TryNeighbour(cp, ignore, pair.quoteCcy, best);
        AllFoundBelowJoin(bidRateMap, start, old(pathMap), pathMap, ignoring);
        OrderTries(bidRateMap, start, old(pathMap), pathMap, cp, ignore, todo, pair.quoteCcy);
      } else {
        better := best;
        OrderSkips(bidRateMap, start, pathMap, cp, ignore, todo, pair);
      }
    }

    /** With all neighbours tried, the best path is the least of theirs. */
    lemma AllTried(cp: CcyPair, ignore: seq<Ccy>, best: Option<seq<Ccy>>)
      requires Valid() && cp.quoteCcy !in ignore + [cp.baseCcy] && Uncached(pathMap, ignore + [cp.baseCcy], cp.quoteCcy)
      requires forall x :: Usable(bidRateMap, cp, ignore, x) ==>
                 Tried(bidRateMap, pathMap, ignore + [cp.baseCcy], CcyPair(x, cp.quoteCcy), best)
      requires best.Some? ==> CachedNext(bidRateMap, pathMap, cp, ignore, best.value)
      ensures best.None? ==> forall x :: !LeadsOn(bidRateMap, cp, ignore, x)
      ensures best.Some? ==> LeastOverNeighbours(bidRateMap, pathMap, cp, ignore, best.value)
    {
      forall x | LeadsOn(bidRateMap, cp, ignore, x)
        ensures best.Some? && CachedNoBetter(pathMap, cp, ignore, x, best.value)
      {
        CachedAvoidsUncached(bidRateMap, pathMap, CcyPair(x, cp.quoteCcy), ignore + [cp.baseCcy]);
      }
      if best.Some? {
        CachedMeansReachable(bidRateMap, pathMap, CcyPair(best.value[0], cp.quoteCcy), ignore + [cp.baseCcy]);
      }
    }

    /** One usable neighbour: whatever was known of the others stays known. */
    method TryNeighbour(cp: CcyPair, ignore: seq<Ccy>, x: Ccy, best: Option<seq<Ccy>>)
      returns (better: Option<seq<Ccy>>)
      requires SearchOk(cp, ignore) && cp.Valid() && cp !in pathMap && cp !in bidRateMap
      requires Usable(bidRateMap, cp, ignore, x)
      requires best.Some? ==> CachedNext(bidRateMap, pathMap, cp, ignore, best.value) && best.value[0] < x
      modifies this`pathMap
      ensures Valid() && CacheGrew(cp.quoteCcy) && Uncached(pathMap, ignore + [cp.baseCcy], cp.quoteCcy)
      ensures StaysShort(ignore, cp.quoteCcy)
      ensures AllFound(bidRateMap, old(pathMap), pathMap, CcyPair(x, cp.quoteCcy), ignore + [cp.baseCcy])
      ensures AllFoundBelow(bidRateMap, old(pathMap), pathMap, ignore + [cp.baseCcy])
      ensures ReachableAvoiding(bidRateMap, x, cp.quoteCcy, ignore + [cp.baseCcy]) ==>
                CcyPair(x, cp.quoteCcy) in pathMap
      ensures better.Some? ==> CachedNext(bidRateMap, pathMap, cp, ignore, better.value)
      ensures better == best || (better.Some? && better.value[0] == x)
      ensures Tried(bidRateMap, pathMap, ignore + [cp.baseCcy], CcyPair(x, cp.quoteCcy), better)
      ensures forall y :: old(Tried(bidRateMap, pathMap, ignore + [cp.baseCcy], CcyPair(y, cp.quoteCcy), best)) ==>
                            Tried(bidRateMap, pathMap, ignore + [cp.baseCcy], CcyPair(y, cp.quoteCcy), better)
      decreases Left(bidRateMap, ignore), 0, 0
    {
      var ignoring := ignore + [cp.baseCcy];
      FewerLeft(bidRateMap, ignore, cp.baseCcy, x);
      WalkOn(bidRateMap, ignore, cp.baseCcy, x);
      var tmp := GetPathAvoiding(CcyPair(x, cp.quoteCcy), ignoring);
      NeighbourFoundBelow(bidRateMap, old(pathMap), pathMap, CcyPair(x, cp.quoteCcy), ignoring);
      forall y | old(Tried(bidRateMap, pathMap, ignoring, CcyPair(y, cp.quoteCcy), best))
        ensures Tried(bidRateMap, pathMap, ignoring, CcyPair(y, cp.quoteCcy), best)
      {
        StaysTried(bidRateMap, old(pathMap), pathMap, ignoring, CcyPair(y, cp.quoteCcy), best);
      }
      if tmp.None? && CcyPair(x, cp.quoteCcy) in pathMap {
        CachedMeansReachable(bidRateMap, pathMap, CcyPair(x, cp.quoteCcy), ignoring);
      }
      better := best;
      if tmp.Some? && (best.None? || |tmp.value| < |best.value|) {
        assert PathOf(bidRateMap, tmp.value, x, cp.quoteCcy);
        better := tmp;
      }
    }

    /**
      The public search: nothing is ignored, and a currency no rate mentions ends it at once.  If the paths cached
      towards the quote currency, if any, are the shortest ones wherever three currencies suffice, this stays so, and
      a path that was not cached is the shortest one wherever four suffice.
     */
    method GetPath(cp: CcyPair) returns (path: Option<seq<Ccy>>)
      requires Valid() && cp.Valid() && cp.baseCcy != cp.quoteCcy
      modifies this`pathMap
      ensures Valid() && CacheGrew(cp.quoteCcy) && StaysShort([], cp.quoteCcy)
      ensures path.Some? ==> cp in pathMap && path.value == pathMap[cp]
      ensures path.Some? <==> Reachable(bidRateMap, cp.baseCcy, cp.quoteCcy)
      ensures AllFound(bidRateMap, old(pathMap), pathMap, cp, [])
      ensures path.Some? && cp !in old(pathMap) && cp !in bidRateMap ==>
                BeganWithFirst(bidRateMap, old(pathMap), pathMap, cp, [])
      ensures path.Some? && cp !in old(pathMap) && old(ShortTowards(bidRateMap, pathMap, cp.quoteCcy)) ==>
                ShortestUpTo(bidRateMap, path.value, cp.baseCcy, cp.quoteCcy, 4)
    {
      ReachableMeansPath(bidRateMap, cp.baseCcy, cp.quoteCcy);
      if cp.baseCcy !in currencies || cp.quoteCcy !in currencies {
        if Reachable(bidRateMap, cp.baseCcy, cp.quoteCcy) {
          ReachableNodes(bidRateMap, cp.baseCcy, cp.quoteCcy);
        }
        return None;
      }
      path := GetPathAvoiding(cp, []);
      if path.Some? && cp !in old(pathMap) && old(ShortTowards(bidRateMap, pathMap, cp.quoteCcy)) {
        if cp in bidRateMap {
          DirectIsShortest(bidRateMap, cp.baseCcy, cp.quoteCcy, 4);
        } else {
          SearchedIsShortUpToFour(cp, path.value);
        }
      }
    }

    /** From a cache with nothing towards the quote currency: what a length of two or three means. */
    method GetPathAfresh(cp: CcyPair) returns (path: Option<seq<Ccy>>)
      requires Valid() && cp.Valid() && cp.baseCcy != cp.quoteCcy
      requires forall pair :: pair in pathMap ==> pair.quoteCcy != cp.quoteCcy
      modifies this`pathMap
      ensures Valid() && (path.Some? <==> Reachable(bidRateMap, cp.baseCcy, cp.quoteCcy))
      ensures path.Some? ==> (|path.value| == 2 <==> cp in bidRateMap)
      ensures path.Some? ==> (|path.value| == 3 <==>
                cp !in bidRateMap && exists y :: BothLegs(bidRateMap, cp.baseCcy, y, cp.quoteCcy))
      ensures path.Some? ==> (|path.value| <= 4 <==>
                exists q :: PathOf(bidRateMap, q, cp.baseCcy, cp.quoteCcy) && |q| <= 4)
    {
      path := GetPath(cp);
      if path.Some? {
        assert PathOf(bidRateMap, path.value, cp.baseCcy, cp.quoteCcy);
        LengthsMean(bidRateMap, path.value, cp.baseCcy, cp.quoteCcy);
      }
    }

    /** The product of the rates along a path, each of them asked for as a direct rate. */
    method RateAlong(path: seq<Ccy>, a: Ccy, z: Ccy) returns (rate: real)
      requires Valid() && PathOf(bidRateMap, path, a, z)
      modifies this`pathMap
      ensures pathMap == old(pathMap) && rate == Product(bidRateMap, path)
      decreases 1
    {
      rate := 1.0;
      var lastCcy := INVALID_CCY;
      var i := 0;
      while i < |path|
        invariant i <= |path| && pathMap == old(pathMap)
        invariant lastCcy == if i == 0 then INVALID_CCY else path[i - 1]
        invariant Walk(bidRateMap, path[..i]) && rate == Product(bidRateMap, path[..i])
      {
        var ccy := path[i];
        assert path[..i + 1][..i] == path[..i];
        if i > 0 {
          assert Edge(bidRateMap, path[i - 1], path[i]);
          var factor := GetBidRate(CcyPair(lastCcy, ccy));
          rate := rate * factor;
        }
        lastCcy := ccy;
        i := i + 1;
      }
      assert path[..i] == path;
    }

    /**
      The bid rate: a direct rate before anything else, and else what the cached path is worth; positive exactly if the
      quote currency can be reached from the base currency.
     */
    method GetBidRate(cp: CcyPair) returns (rate: real)
      requires Valid()
      modifies this`pathMap
      ensures Valid() && CacheGrew(cp.quoteCcy)
      ensures cp in bidRateMap ==> pathMap == old(pathMap)
      ensures rate == BidValue(bidRateMap, pathMap, cp) && rate >= 0.0
      ensures cp.Valid() && cp.baseCcy != cp.quoteCcy ==>
                (rate > 0.0 <==> Reachable(bidRateMap, cp.baseCcy, cp.quoteCcy))
      ensures !cp.Valid() ==> rate == 0.0
      ensures cp.Valid() && cp.baseCcy == cp.quoteCcy ==> rate == 1.0
      ensures cp.Valid() && cp.baseCcy != cp.quoteCcy && cp in bidRateMap ==> rate == bidRateMap[cp]
      ensures cp.Valid() && cp.baseCcy != cp.quoteCcy && cp !in bidRateMap && rate > 0.0 ==>
                cp in pathMap && WorthOfPath(bidRateMap, pathMap[cp], rate)
      decreases if cp in bidRateMap then 0 else 2
    {
      if !cp.Valid() {
        return 0.0;
      }
      if cp.baseCcy == cp.quoteCcy {
        return 1.0;
      }
      if cp in bidRateMap {
        DirectReach(cp);
        return bidRateMap[cp];
      }
      var ccyPath := GetPath(cp);
      if ccyPath.Some? && ccyPath.value != [] {
        assert PathOf(bidRateMap, ccyPath.value, cp.baseCcy, cp.quoteCcy);
        rate := RateAlong(ccyPath.value, cp.baseCcy, cp.quoteCcy);
        ProductPositive(bidRateMap, ccyPath.value);
        BidValueMeans(bidRateMap, pathMap, cp);
      } else {
        if cp in pathMap {
          CachedReachable(bidRateMap, pathMap, cp);
        }
        return 0.0;
      }
    }

    lemma DirectReach(cp: CcyPair)
      requires cp in bidRateMap
      ensures Reachable(bidRateMap, cp.baseCcy, cp.quoteCcy)
    {
      assert Joins([cp.baseCcy, cp.quoteCcy], cp.baseCcy, cp.quoteCcy) && Walk(bidRateMap, [cp.baseCcy, cp.quoteCcy]);
    }

    method GetAskRate(cp: CcyPair) returns (rate: real)
      requires Valid()
      modifies this`pathMap
      ensures Valid() && CacheGrew(cp.Reverse().quoteCcy)
      ensures rate == AskValue(bidRateMap, pathMap, cp)
      ensures var back := CcyPair(cp.quoteCcy, cp.baseCcy);
              && (!cp.Valid() ==> rate == 0.0)
              && (cp.Valid() && cp.baseCcy == cp.quoteCcy ==> rate == 1.0)
              && (cp.Valid() && cp.baseCcy != cp.quoteCcy && back in bidRateMap ==> rate * bidRateMap[back] == 1.0)
              && (cp.Valid() && cp.baseCcy != cp.quoteCcy ==>
                    (rate > 0.0 <==> Reachable(bidRateMap, cp.quoteCcy, cp.baseCcy)))
    {
      var reverseBidRate := GetBidRate(cp.Reverse());
      if reverseBidRate != 0.0 {
        rate := 1.0 / reverseBidRate;
      } else {
        rate := 0.0;
      }
    }
  }
}
