/**
  Direct exchange rates as a graph, and the cache of paths over it (`CurrentRateManager`): what makes a cache of
  paths sound although its entries are computed while different currencies must be avoided.
 */
module RateGraph {
  import opened Wrappers

  type Ccy = int

  const NO_CCY: Ccy := 0
  const INVALID_CCY: Ccy := 999999

  predicate ValidCcy(c: Ccy) {
    c != NO_CCY && c != INVALID_CCY
  }

  datatype CcyPair = CcyPair(baseCcy: Ccy, quoteCcy: Ccy) {
    predicate Valid() {
      ValidCcy(baseCcy) && ValidCcy(quoteCcy)
    }

    /** The opposite pair; a pair that is not valid is its own opposite. */
    function Reverse(): CcyPair {
      if Valid() then CcyPair(quoteCcy, baseCcy) else this
    }
  }

  type Rates = map<CcyPair, real>
  type Paths = map<CcyPair, seq<Ccy>>

  predicate Edge(rates: Rates, a: Ccy, b: Ccy) {
    CcyPair(a, b) in rates
  }

  ghost predicate Walk(rates: Rates, p: seq<Ccy>) {
    forall i :: 0 <= i < |p| - 1 ==> Edge(rates, p[i], p[i + 1])
  }

  ghost predicate Distinct(p: seq<Ccy>) {
    forall i, j :: 0 <= i < j < |p| ==> p[i] != p[j]
  }

  ghost predicate Joins(p: seq<Ccy>, a: Ccy, z: Ccy) {
    |p| >= 2 && p[0] == a && p[|p| - 1] == z
  }

  /** A simple path of direct rates from `a` to `z`. */
  ghost predicate PathOf(rates: Rates, p: seq<Ccy>, a: Ccy, z: Ccy) {
    Joins(p, a, z) && Walk(rates, p) && Distinct(p)
  }

  ghost predicate Avoids(p: seq<Ccy>, ignore: seq<Ccy>) {
    forall i :: 0 <= i < |p| ==> p[i] !in ignore
  }

  ghost predicate ReachableAvoiding(rates: Rates, a: Ccy, z: Ccy, ignore: seq<Ccy>) {
    exists p :: PathOf(rates, p, a, z) && Avoids(p, ignore)
  }

  /** Some chain of direct rates leads from `a` to `z`. */
  ghost predicate Reachable(rates: Rates, a: Ccy, z: Ccy) {
    exists p :: Joins(p, a, z) && Walk(rates, p)
  }

  function Nodes(rates: Rates): set<Ccy> {
    (set pair | pair in rates :: pair.baseCcy) + (set pair | pair in rates :: pair.quoteCcy)
  }

  // ---------------------------------------------------------------------------------------------------------
  // The cache
  // ---------------------------------------------------------------------------------------------------------

  /** Each cached path is simple, made of direct rates, and has as its tails what is cached for their ends. */
  ghost predicate CacheOk(rates: Rates, paths: Paths) {
    forall pair :: pair in paths ==>
      && PathOf(rates, paths[pair], pair.baseCcy, pair.quoteCcy)
      && TailsCached(paths, paths[pair], pair.quoteCcy)
  }

  ghost predicate TailsCached(paths: Paths, p: seq<Ccy>, z: Ccy) {
    forall i :: 0 <= i < |p| - 1 ==> CcyPair(p[i], z) in paths && paths[CcyPair(p[i], z)] == p[i..]
  }

  ghost predicate Uncached(paths: Paths, ignore: seq<Ccy>, z: Ccy) {
    forall l :: l in ignore ==> CcyPair(l, z) !in paths
  }

  ghost predicate Extends(paths: Paths, more: Paths) {
    forall pair :: pair in paths ==> pair in more && more[pair] == paths[pair]
  }

  ghost predicate OnlyToward(paths: Paths, more: Paths, z: Ccy) {
    forall pair :: pair in more && pair !in paths ==> pair.quoteCcy == z
  }

  /** The key fact: a cached path to `z` avoids every currency for which no path to `z` is cached. */
  lemma CachedAvoidsUncached(rates: Rates, paths: Paths, pair: CcyPair, ignore: seq<Ccy>)
    requires CacheOk(rates, paths) && pair in paths
    requires Uncached(paths, ignore, pair.quoteCcy) && pair.quoteCcy !in ignore
    ensures Avoids(paths[pair], ignore)
  {
    var p := paths[pair];
    assert PathOf(rates, p, pair.baseCcy, pair.quoteCcy) && TailsCached(paths, p, pair.quoteCcy);
    forall i | 0 <= i < |p| ensures p[i] !in ignore {
      if i < |p| - 1 {
        assert CcyPair(p[i], pair.quoteCcy) in paths;
      }
    }
  }

  /** Putting an uncached currency in front of a cached path gives a path that may be cached in turn. */
  lemma CacheGrows(rates: Rates, paths: Paths, a: Ccy, x: Ccy, z: Ccy)
    requires CacheOk(rates, paths) && CcyPair(x, z) in paths && Edge(rates, a, x)
    requires a != z && CcyPair(a, z) !in paths
    ensures CacheOk(rates, paths[CcyPair(a, z) := [a] + paths[CcyPair(x, z)]])
  {
    var sub := paths[CcyPair(x, z)];
    var p := [a] + sub;
    var more := paths[CcyPair(a, z) := p];
    assert PathOf(rates, sub, x, z) && TailsCached(paths, sub, z);
    CachedAvoidsUncached(rates, paths, CcyPair(x, z), [a]);
    assert PathOf(rates, p, a, z);
    forall i | 0 <= i < |p| - 1 ensures CcyPair(p[i], z) in more && more[CcyPair(p[i], z)] == p[i..] {
      if i > 0 {
        assert p[i..] == sub[i - 1..] && CcyPair(sub[i - 1], z) in paths;
      } else {
        assert p[0..] == p;
      }
    }
    OthersKeepTails(paths, more, CcyPair(a, z));
  }

  /** A direct rate may be cached for a pair that is not cached. */
  lemma CacheGrowsDirect(rates: Rates, paths: Paths, a: Ccy, z: Ccy)
    requires CacheOk(rates, paths) && Edge(rates, a, z) && a != z && CcyPair(a, z) !in paths
    ensures CacheOk(rates, paths[CcyPair(a, z) := [a, z]])
  {
    var more := paths[CcyPair(a, z) := [a, z]];
    assert [a, z][0..] == [a, z];
    assert PathOf(rates, [a, z], a, z) && TailsCached(more, [a, z], z);
    OthersKeepTails(paths, more, CcyPair(a, z));
  }

  lemma OthersKeepTails(paths: Paths, more: Paths, added: CcyPair)
    requires added !in paths && added in more && more == paths[added := more[added]]
    ensures forall pair :: pair in paths && TailsCached(paths, paths[pair], pair.quoteCcy) ==>
              TailsCached(more, more[pair], pair.quoteCcy)
  {
  }

  /** New rates, or new values of old ones, leave every cached path valid. */
  lemma CacheSurvivesRates(rates: Rates, paths: Paths, pair: CcyPair, rate: real)
    requires CacheOk(rates, paths)
    ensures CacheOk(rates[pair := rate], paths)
  {
    forall other | other in paths ensures PathOf(rates[pair := rate], paths[other], other.baseCcy, other.quoteCcy) {
      assert PathOf(rates, paths[other], other.baseCcy, other.quoteCcy);
    }
  }

  // ---------------------------------------------------------------------------------------------------------
  // Searching
  // ---------------------------------------------------------------------------------------------------------

  /** A path is a direct rate, or a step to a neighbour followed by a path that avoids the start as well. */
  lemma PathUnfolds(rates: Rates, a: Ccy, z: Ccy, ignore: seq<Ccy>)
    requires ReachableAvoiding(rates, a, z, ignore) && !Edge(rates, a, z)
    ensures exists x ::
              Edge(rates, a, x) && x !in ignore + [a] && x != z && ReachableAvoiding(rates, x, z, ignore + [a])
  {
    var p :| PathOf(rates, p, a, z) && Avoids(p, ignore);
    assert Edge(rates, p[0], p[1]);
    var rest := p[1..];
    assert forall i :: 0 <= i < |rest| ==> rest[i] == p[i + 1];
    assert PathOf(rates, rest, p[1], z) && Avoids(rest, ignore + [a]);
  }

  /** Dropping detours turns any chain of direct rates into a simple path. */
  lemma {:induction false} WalkGivesPath(rates: Rates, p: seq<Ccy>, a: Ccy, z: Ccy)
    requires Joins(p, a, z) && Walk(rates, p) && a != z
    ensures exists q :: PathOf(rates, q, a, z)
    decreases |p|
  {
    if !Distinct(p) {
      var i, j :| 0 <= i < j < |p| && p[i] == p[j];
      var q := p[..i] + p[j..];
      forall k | 0 <= k < |q| - 1 ensures Edge(rates, q[k], q[k + 1]) {
        if k + 1 < i {
          assert q[k] == p[k] && q[k + 1] == p[k + 1];
        } else if k + 1 == i {
          assert q[k] == p[k] && q[k + 1] == p[j] == p[k + 1];
        } else {
          assert q[k] == p[k - i + j] && q[k + 1] == p[k + 1 - i + j];
        }
      }
      assert q[0] == a && q[|q| - 1] == z;
      assert |q| >= 2;
      WalkGivesPath(rates, q, a, z);
    } else {
      assert PathOf(rates, p, a, z);
    }
  }

  lemma ReachableMeansPath(rates: Rates, a: Ccy, z: Ccy)
    requires a != z
    ensures Reachable(rates, a, z) <==> ReachableAvoiding(rates, a, z, [])
  {
    if Reachable(rates, a, z) {
      var p :| Joins(p, a, z) && Walk(rates, p);
      WalkGivesPath(rates, p, a, z);
      var q :| PathOf(rates, q, a, z);
      assert Avoids(q, []);
    }
    if ReachableAvoiding(rates, a, z, []) {
      var p :| PathOf(rates, p, a, z) && Avoids(p, []);
      assert Joins(p, a, z) && Walk(rates, p);
    }
  }

  lemma CachedMeansReachable(rates: Rates, paths: Paths, pair: CcyPair, ignore: seq<Ccy>)
    requires CacheOk(rates, paths) && pair in paths
    requires Uncached(paths, ignore, pair.quoteCcy) && pair.quoteCcy !in ignore
    ensures ReachableAvoiding(rates, pair.baseCcy, pair.quoteCcy, ignore)
  {
    CachedAvoidsUncached(rates, paths, pair, ignore);
    assert PathOf(rates, paths[pair], pair.baseCcy, pair.quoteCcy);
  }

  function Elements(ignore: seq<Ccy>): set<Ccy> {
    set c | c in ignore
  }

  /** How many currencies a search may still visit. */
  function Left(rates: Rates, ignore: seq<Ccy>): nat {
    |Nodes(rates) - Elements(ignore)|
  }

  lemma FewerLeft(rates: Rates, ignore: seq<Ccy>, a: Ccy, x: Ccy)
    requires Edge(rates, a, x) && a !in ignore
    ensures Left(rates, ignore + [a]) < Left(rates, ignore)
  {
    assert CcyPair(a, x).baseCcy in Nodes(rates);
    assert Nodes(rates) - Elements(ignore) == (Nodes(rates) - Elements(ignore + [a])) + {a};
  }

  lemma WalkOn(rates: Rates, p: seq<Ccy>, a: Ccy, x: Ccy)
    requires Walk(rates, p + [a]) && Edge(rates, a, x)
    ensures Walk(rates, p + [a] + [x])
  {
    forall i | 0 <= i < |p + [a] + [x]| - 1 ensures Edge(rates, (p + [a] + [x])[i], (p + [a] + [x])[i + 1]) {
      if i < |p + [a]| - 1 {
        assert Edge(rates, (p + [a])[i], (p + [a])[i + 1]);
      }
    }
  }

  /** The cached path is no shorter than `best`, and longer if it belongs to a neighbour before that of `best`. */
  predicate NotBetter(paths: Paths, pair: CcyPair, best: seq<Ccy>) {
    && best != [] && pair in paths
    && |best| <= |paths[pair]| && (pair.baseCcy < best[0] ==> |best| < |paths[pair]|)
  }

  /** What is known of a tried neighbour: nothing to be had there, or nothing better than the best so far. */
  ghost predicate Tried(rates: Rates, paths: Paths, ignoring: seq<Ccy>, pair: CcyPair, best: Option<seq<Ccy>>) {
    if pair in paths then best.Some? && NotBetter(paths, pair, best.value)
    else !ReachableAvoiding(rates, pair.baseCcy, pair.quoteCcy, ignoring)
  }

  /** A neighbour tried in vain stays uncached while the search goes on. */
  lemma StaysTried(rates: Rates, paths: Paths, more: Paths, ignoring: seq<Ccy>, pair: CcyPair, best: Option<seq<Ccy>>)
    requires CacheOk(rates, more) && Extends(paths, more)
    requires Uncached(more, ignoring, pair.quoteCcy) && pair.quoteCcy !in ignoring
    requires Tried(rates, paths, ignoring, pair, best)
    ensures Tried(rates, more, ignoring, pair, best)
  {
    if pair in more && pair !in paths {
      CachedMeansReachable(rates, more, pair, ignoring);
    }
  }

  // ---------------------------------------------------------------------------------------------------------
  // What a search leaves behind
  // ---------------------------------------------------------------------------------------------------------

  /** `x` may be the next currency on a path from the pair's base that avoids the ignore list. */
  predicate Usable(rates: Rates, cp: CcyPair, ignore: seq<Ccy>, x: Ccy) {
    Edge(rates, cp.baseCcy, x) && x !in ignore + [cp.baseCcy]
  }

  /** Some path leads on from the usable neighbour `x` without coming back. */
  ghost predicate LeadsOn(rates: Rates, cp: CcyPair, ignore: seq<Ccy>, x: Ccy) {
    Usable(rates, cp, ignore, x) && ReachableAvoiding(rates, x, cp.quoteCcy, ignore + [cp.baseCcy])
  }

  /** `sub` is the cached path from a usable neighbour of the pair's base to the pair's quote currency. */
  ghost predicate CachedNext(rates: Rates, paths: Paths, cp: CcyPair, ignore: seq<Ccy>, sub: seq<Ccy>) {
    && sub != [] && Usable(rates, cp, ignore, sub[0])
    && CcyPair(sub[0], cp.quoteCcy) in paths && sub == paths[CcyPair(sub[0], cp.quoteCcy)]
  }

  /** The neighbour's path is cached, does not come back, and is no better than `sub`. */
  ghost predicate CachedNoBetter(paths: Paths, cp: CcyPair, ignore: seq<Ccy>, x: Ccy, sub: seq<Ccy>) {
    && NotBetter(paths, CcyPair(x, cp.quoteCcy), sub)
    && Avoids(paths[CcyPair(x, cp.quoteCcy)], ignore + [cp.baseCcy])
  }

  /**
    `sub` is the shortest of the cached paths of all neighbours that lead on, each of which has one; of equally short
    ones it is that of the first neighbour.
   */
  ghost predicate LeastOverNeighbours(rates: Rates, paths: Paths, cp: CcyPair, ignore: seq<Ccy>, sub: seq<Ccy>) {
    && CachedNext(rates, paths, cp, ignore, sub) && LeadsOn(rates, cp, ignore, sub[0])
    && (forall x :: LeadsOn(rates, cp, ignore, x) ==> CachedNoBetter(paths, cp, ignore, x, sub))
  }

  /** A path that was not cached before: a direct rate, else one step and the least path from there. */
  ghost predicate Found(rates: Rates, paths: Paths, cp: CcyPair, ignore: seq<Ccy>, path: seq<Ccy>) {
    if cp in rates then path == [cp.baseCcy, cp.quoteCcy]
    else |path| >= 3 && path[0] == cp.baseCcy && LeastOverNeighbours(rates, paths, cp, ignore, path[1..])
  }

  /** The cached path was found when the search had come along `chain`, which begins with `root`. */
  ghost predicate FoundAlong(rates: Rates, paths: Paths, pair: CcyPair, root: seq<Ccy>, chain: seq<Ccy>) {
    && root <= chain && Walk(rates, chain + [pair.baseCcy]) && pair.baseCcy !in chain
    && pair in paths && Found(rates, paths, pair, chain, paths[pair])
  }

  ghost predicate FoundBelow(rates: Rates, paths: Paths, pair: CcyPair, root: seq<Ccy>) {
    exists chain :: FoundAlong(rates, paths, pair, root, chain)
  }

  ghost predicate AllFoundBelow(rates: Rates, before: Paths, paths: Paths, root: seq<Ccy>) {
    forall pair :: pair in paths && pair !in before ==> FoundBelow(rates, paths, pair, root)
  }

  /** What a search from `cp` has added to the cache: the pair's own path, and paths found further down. */
  ghost predicate AllFound(rates: Rates, before: Paths, paths: Paths, cp: CcyPair, ignore: seq<Ccy>) {
    forall pair :: pair in paths && pair !in before ==>
      if pair == cp then Found(rates, paths, cp, ignore, paths[cp])
      else FoundBelow(rates, paths, pair, ignore + [cp.baseCcy])
  }

  lemma FoundStays(rates: Rates, paths: Paths, more: Paths, cp: CcyPair, ignore: seq<Ccy>, path: seq<Ccy>)
    requires Extends(paths, more) && Found(rates, paths, cp, ignore, path)
    ensures Found(rates, more, cp, ignore, path)
  {
    if cp !in rates {
      forall x | LeadsOn(rates, cp, ignore, x) ensures CachedNoBetter(more, cp, ignore, x, path[1..]) {
        assert CachedNoBetter(paths, cp, ignore, x, path[1..]);
      }
    }
  }

  lemma FoundBelowStays(rates: Rates, paths: Paths, more: Paths, pair: CcyPair, root: seq<Ccy>, above: seq<Ccy>)
    requires Extends(paths, more) && FoundBelow(rates, paths, pair, root) && above <= root
    ensures FoundBelow(rates, more, pair, above)
  {
    var chain :| FoundAlong(rates, paths, pair, root, chain);
    FoundStays(rates, paths, more, pair, chain, paths[pair]);
    assert FoundAlong(rates, more, pair, above, chain);
  }

  /** One search after the other, both below `root`. */
  lemma AllFoundBelowJoin(rates: Rates, before: Paths, paths: Paths, more: Paths, root: seq<Ccy>)
    requires AllFoundBelow(rates, before, paths, root) && AllFoundBelow(rates, paths, more, root)
    requires Extends(paths, more)
    ensures AllFoundBelow(rates, before, more, root)
  {
    forall pair | pair in more && pair !in before ensures FoundBelow(rates, more, pair, root) {
      if pair in paths {
        FoundBelowStays(rates, paths, more, pair, root, root);
      }
    }
  }

  /** What the search from a neighbour adds is found below. */
  lemma NeighbourFoundBelow(rates: Rates, before: Paths, paths: Paths, next: CcyPair, root: seq<Ccy>)
    requires AllFound(rates, before, paths, next, root)
    requires Walk(rates, root + [next.baseCcy]) && next.baseCcy !in root
    ensures AllFoundBelow(rates, before, paths, root)
  {
    forall pair | pair in paths && pair !in before ensures FoundBelow(rates, paths, pair, root) {
      if pair == next {
        assert FoundAlong(rates, paths, pair, root, root);
      } else {
        FoundBelowStays(rates, paths, paths, pair, root + [next.baseCcy], root);
      }
    }
  }

  /** The pair's own path comes on top of what was found below. */
  lemma OwnFound(rates: Rates, before: Paths, paths: Paths, cp: CcyPair, ignore: seq<Ccy>, path: seq<Ccy>)
    requires AllFoundBelow(rates, before, paths, ignore + [cp.baseCcy]) && cp !in paths
    requires Found(rates, paths, cp, ignore, path)
    ensures AllFound(rates, before, paths[cp := path], cp, ignore)
  {
    var more := paths[cp := path];
    forall pair | pair in more && pair !in before
      ensures if pair == cp then Found(rates, more, cp, ignore, more[cp])
              else FoundBelow(rates, more, pair, ignore + [cp.baseCcy])
    {
      if pair == cp {
        FoundStays(rates, paths, more, cp, ignore, path);
      } else {
        FoundBelowStays(rates, paths, more, pair, ignore + [cp.baseCcy], ignore + [cp.baseCcy]);
      }
    }
  }

  lemma NothingOwn(rates: Rates, before: Paths, paths: Paths, cp: CcyPair, ignore: seq<Ccy>)
    requires AllFoundBelow(rates, before, paths, ignore + [cp.baseCcy]) && cp !in paths
    ensures AllFound(rates, before, paths, cp, ignore)
  {
  }

  /** The order of the map of rates: by base currency, then by quote currency. */
  predicate Before(a: CcyPair, b: CcyPair) {
    a.baseCcy < b.baseCcy || (a.baseCcy == b.baseCcy && a.quoteCcy < b.quoteCcy)
  }

  ghost predicate FirstUsable(rates: Rates, cp: CcyPair, ignore: seq<Ccy>, y: Ccy) {
    Usable(rates, cp, ignore, y) && forall x :: Usable(rates, cp, ignore, x) ==> y <= x
  }

  /** The search from the neighbour `y` came first and left the cache as `middle`. */
  ghost predicate BeganWith(rates: Rates, before: Paths, middle: Paths, paths: Paths, cp: CcyPair,
                            ignore: seq<Ccy>, y: Ccy) {
    && Extends(middle, paths)
    && AllFound(rates, before, middle, CcyPair(y, cp.quoteCcy), ignore + [cp.baseCcy])
    && (ReachableAvoiding(rates, y, cp.quoteCcy, ignore + [cp.baseCcy]) ==> CcyPair(y, cp.quoteCcy) in middle)
  }

  ghost predicate Began(rates: Rates, before: Paths, paths: Paths, cp: CcyPair, ignore: seq<Ccy>, y: Ccy) {
    exists middle :: BeganWith(rates, before, middle, paths, cp, ignore, y)
  }

  /** The neighbours are tried in their order: the search began with the first. */
  ghost predicate BeganWithFirst(rates: Rates, before: Paths, paths: Paths, cp: CcyPair, ignore: seq<Ccy>) {
    forall y :: FirstUsable(rates, cp, ignore, y) ==> Began(rates, before, paths, cp, ignore, y)
  }

  lemma BeganStays(rates: Rates, before: Paths, paths: Paths, more: Paths, cp: CcyPair, ignore: seq<Ccy>, y: Ccy)
    requires Began(rates, before, paths, cp, ignore, y) && Extends(paths, more)
    ensures Began(rates, before, more, cp, ignore, y)
  {
    var middle :| BeganWith(rates, before, middle, paths, cp, ignore, y);
    assert BeganWith(rates, before, middle, more, cp, ignore, y);
  }

  predicate IsFirst(pairs: set<CcyPair>, pair: CcyPair) {
    pair in pairs && forall other :: other in pairs && other != pair ==> Before(pair, other)
  }

  lemma TotalOrder(a: CcyPair, b: CcyPair)
    ensures a == b || Before(a, b) || Before(b, a)
  {
  }

  lemma {:induction false} HasFirst(pairs: set<CcyPair>)
    requires pairs != {}
    ensures exists pair :: IsFirst(pairs, pair)
    decreases |pairs|
  {
    var some :| some in pairs;
    var rest := pairs - {some};
    if rest == {} {
      assert pairs == {some};
      assert IsFirst(pairs, some);
    } else {
      HasFirst(rest);
      var first :| IsFirst(rest, first);
      if Before(first, some) {
        assert IsFirst(pairs, first);
      } else {
        assert Before(some, first) by { TotalOrder(first, some); }
        forall other | other in pairs && other != some ensures Before(some, other) {
          assert other in rest && (other != first ==> Before(first, other));
        }
        assert IsFirst(pairs, some);
      }
    }
  }

  /** Where the loop over the rates stands: what lies before `todo` is done, and the first neighbour was first. */
  ghost predicate InOrder(rates: Rates, before: Paths, paths: Paths, cp: CcyPair, ignore: seq<Ccy>,
                          todo: set<CcyPair>) {
    && (forall a, b :: a in rates && a !in todo && b in todo ==> Before(a, b))
    && ((forall x :: Usable(rates, cp, ignore, x) ==> CcyPair(cp.baseCcy, x) in todo) ==> paths == before)
    && (forall y :: FirstUsable(rates, cp, ignore, y) && CcyPair(cp.baseCcy, y) !in todo ==>
          Began(rates, before, paths, cp, ignore, y))
  }

  /** A neighbour tried already comes before one that is still to be tried. */
  lemma TriedComesBefore(rates: Rates, before: Paths, paths: Paths, cp: CcyPair, ignore: seq<Ccy>,
                         todo: set<CcyPair>, y: Ccy, x: Ccy)
    requires InOrder(rates, before, paths, cp, ignore, todo) && Edge(rates, cp.baseCcy, y)
    requires CcyPair(cp.baseCcy, y) !in todo && CcyPair(cp.baseCcy, x) in todo
    ensures y < x
  {
    assert Before(CcyPair(cp.baseCcy, y), CcyPair(cp.baseCcy, x));
  }

  lemma OrderSkips(rates: Rates, before: Paths, paths: Paths, cp: CcyPair, ignore: seq<Ccy>,
                   todo: set<CcyPair>, pair: CcyPair)
    requires InOrder(rates, before, paths, cp, ignore, todo) && IsFirst(todo, pair)
    requires pair.baseCcy != cp.baseCcy || !Usable(rates, cp, ignore, pair.quoteCcy)
    ensures InOrder(rates, before, paths, cp, ignore, todo - {pair})
  {
  }

  lemma OrderTries(rates: Rates, before: Paths, paths: Paths, more: Paths, cp: CcyPair, ignore: seq<Ccy>,
                   todo: set<CcyPair>, x: Ccy)
    requires InOrder(rates, before, paths, cp, ignore, todo) && IsFirst(todo, CcyPair(cp.baseCcy, x))
    requires Usable(rates, cp, ignore, x) && Extends(paths, more)
    requires AllFound(rates, paths, more, CcyPair(x, cp.quoteCcy), ignore + [cp.baseCcy])
    requires ReachableAvoiding(rates, x, cp.quoteCcy, ignore + [cp.baseCcy]) ==> CcyPair(x, cp.quoteCcy) in more
    ensures InOrder(rates, before, more, cp, ignore, todo - {CcyPair(cp.baseCcy, x)})
  {
    var left := todo - {CcyPair(cp.baseCcy, x)};
    forall y | FirstUsable(rates, cp, ignore, y) && CcyPair(cp.baseCcy, y) !in left
      ensures Began(rates, before, more, cp, ignore, y)
    {
      if CcyPair(cp.baseCcy, y) !in todo {
        BeganStays(rates, before, paths, more, cp, ignore, y);
      } else {
        FirstComesFirst(rates, before, paths, cp, ignore, todo, x);
        assert BeganWith(rates, before, more, more, cp, ignore, x);
      }
    }
  }

  lemma FirstComesFirst(rates: Rates, before: Paths, paths: Paths, cp: CcyPair, ignore: seq<Ccy>,
                        todo: set<CcyPair>, y: Ccy)
    requires InOrder(rates, before, paths, cp, ignore, todo)
    requires FirstUsable(rates, cp, ignore, y) && CcyPair(cp.baseCcy, y) in todo
    ensures paths == before
  {
    forall x | Usable(rates, cp, ignore, x) ensures CcyPair(cp.baseCcy, x) in todo {
      assert CcyPair(cp.baseCcy, x) !in todo ==> Before(CcyPair(cp.baseCcy, x), CcyPair(cp.baseCcy, y));
    }
  }

  // ---------------------------------------------------------------------------------------------------------
  // Lengths
  // ---------------------------------------------------------------------------------------------------------

  /** No path of at most `n` currencies between the ends is shorter than `p`. */
  ghost predicate ShortestUpTo(rates: Rates, p: seq<Ccy>, a: Ccy, z: Ccy, n: nat) {
    forall q :: PathOf(rates, q, a, z) && |q| <= n ==> |p| <= |q|
  }

  /** Every path cached towards `z` is the shortest one wherever three currencies suffice. */
  ghost predicate ShortTowards(rates: Rates, paths: Paths, z: Ccy) {
    forall pair :: pair in paths && pair.quoteCcy == z ==> ShortestUpTo(rates, paths[pair], pair.baseCcy, z, 3)
  }

  /** The currencies a search comes through have no direct rate to its target: it would have ended there. */
  ghost predicate NoneDirect(rates: Rates, ignore: seq<Ccy>, z: Ccy) {
    forall l :: l in ignore ==> !Edge(rates, l, z)
  }

  lemma ShortTowardsGrows(rates: Rates, paths: Paths, pair: CcyPair, p: seq<Ccy>)
    requires ShortTowards(rates, paths, pair.quoteCcy) && pair !in paths
    requires ShortestUpTo(rates, p, pair.baseCcy, pair.quoteCcy, 3)
    ensures ShortTowards(rates, paths[pair := p], pair.quoteCcy)
  {
  }

  /** A direct rate is as short as a path can be. */
  lemma DirectIsShortest(rates: Rates, a: Ccy, z: Ccy, n: nat)
    ensures ShortestUpTo(rates, [a, z], a, z, n)
  {
  }

  /** The tail of a path is a path that avoids its start. */
  lemma TailAvoidsStart(rates: Rates, q: seq<Ccy>, a: Ccy, z: Ccy)
    requires PathOf(rates, q, a, z) && |q| >= 3
    ensures PathOf(rates, q[1..], q[1], z) && a !in q[1..] && Edge(rates, a, q[1])
  {
    assert Edge(rates, q[0], q[1]);
    assert forall i :: 0 <= i < |q| - 1 ==> q[1..][i] == q[i + 1];
    forall i | 0 <= i < |q[1..]| - 1 ensures Edge(rates, q[1..][i], q[1..][i + 1]) {
      assert Edge(rates, q[i + 1], q[(i + 1) + 1]);
    }
  }

  /** With at most four currencies, length and existence of a path say the same. */
  lemma LengthsMean(rates: Rates, p: seq<Ccy>, a: Ccy, z: Ccy)
    requires PathOf(rates, p, a, z) && ShortestUpTo(rates, p, a, z, 4)
    ensures |p| == 2 <==> Edge(rates, a, z)
    ensures |p| == 3 <==> !Edge(rates, a, z) && exists y :: BothLegs(rates, a, y, z)
    ensures |p| <= 4 <==> exists q :: PathOf(rates, q, a, z) && |q| <= 4
  {
    if Edge(rates, a, z) {
      DirectGivesPath(rates, a, z);
    }
    if |p| == 2 {
      assert Edge(rates, p[0], p[1]);
    }
    if |p| == 3 {
      assert Edge(rates, p[0], p[1]) && Edge(rates, p[1], p[2]);
      assert BothLegs(rates, a, p[1], z);
    }
    if exists y :: BothLegs(rates, a, y, z) {
      var y :| BothLegs(rates, a, y, z);
      LegsGivePath(rates, a, y, z);
    }
  }

  /** Direct rates lead from `a` over `y` to `z`. */
  predicate BothLegs(rates: Rates, a: Ccy, y: Ccy, z: Ccy) {
    y != a && y != z && Edge(rates, a, y) && Edge(rates, y, z)
  }

  lemma DirectGivesPath(rates: Rates, a: Ccy, z: Ccy)
    requires Edge(rates, a, z) && a != z
    ensures PathOf(rates, [a, z], a, z)
  {
  }

  lemma LegsGivePath(rates: Rates, a: Ccy, y: Ccy, z: Ccy)
    requires BothLegs(rates, a, y, z) && a != z
    ensures PathOf(rates, [a, y, z], a, z)
  {
  }

  /** Whatever is reached or left by a direct rate is a currency some rate mentions. */
  lemma ReachableNodes(rates: Rates, a: Ccy, z: Ccy)
    requires Reachable(rates, a, z)
    ensures a in Nodes(rates) && z in Nodes(rates)
  {
    var p :| Joins(p, a, z) && Walk(rates, p);
    var n := |p| - 1;
    assert Edge(rates, p[0], p[1]) && Edge(rates, p[n - 1], p[n]);
    assert CcyPair(p[0], p[1]).baseCcy in Nodes(rates);
    assert CcyPair(p[n - 1], p[n]).quoteCcy in Nodes(rates);
  }

  lemma CachedReachable(rates: Rates, paths: Paths, pair: CcyPair)
    requires CacheOk(rates, paths) && pair in paths
    ensures paths[pair] != [] && Reachable(rates, pair.baseCcy, pair.quoteCcy)
  {
    assert PathOf(rates, paths[pair], pair.baseCcy, pair.quoteCcy);
  }

  // ---------------------------------------------------------------------------------------------------------
  // Values
  // ---------------------------------------------------------------------------------------------------------

  /** The product of the direct rates along a walk. */
  ghost function Product(rates: Rates, p: seq<Ccy>): real
    requires Walk(rates, p)
  {
    if |p| < 2 then 1.0
    else
      assert Walk(rates, p[..|p| - 1]);
      assert Edge(rates, p[|p| - 2], p[|p| - 1]);
      Product(rates, p[..|p| - 1]) * rates[CcyPair(p[|p| - 2], p[|p| - 1])]
  }

  ghost predicate PositiveRates(rates: Rates) {
    forall pair :: pair in rates ==> pair.Valid() && rates[pair] > 0.0
  }

  lemma {:induction false} ProductPositive(rates: Rates, p: seq<Ccy>)
    requires Walk(rates, p) && PositiveRates(rates)
    ensures Product(rates, p) > 0.0
  {
    if |p| >= 2 {
      assert Walk(rates, p[..|p| - 1]);
      assert Edge(rates, p[|p| - 2], p[|p| - 1]);
      ProductPositive(rates, p[..|p| - 1]);
    }
  }

  lemma ProductOfOne(rates: Rates, a: Ccy)
    ensures Walk(rates, [a]) && Product(rates, [a]) == 1.0
  {
  }

  /** The value of a walk of two currencies is its rate. */
  lemma ProductOfEdge(rates: Rates, a: Ccy, b: Ccy)
    requires Edge(rates, a, b)
    ensures Walk(rates, [a, b]) && Product(rates, [a, b]) == rates[CcyPair(a, b)]
  {
    assert [a, b][..1] == [a];
    assert Product(rates, [a]) == 1.0;
  }

  /** Multiplication by name, so that equal factors are recognised without arithmetic. */
  predicate IsTimes(r: real, x: real, y: real) {
    r == x * y
  }

  /** A walk over some currency has the value of its part up to there times that of its part from there. */
  lemma {:induction false} ProductSplits(rates: Rates, p: seq<Ccy>, k: nat)
    requires Walk(rates, p) && k < |p|
    ensures Walk(rates, p[..k + 1]) && Walk(rates, p[k..])
    ensures IsTimes(Product(rates, p), Product(rates, p[..k + 1]), Product(rates, p[k..]))
    decreases |p|
  {
    PartsAreWalks(rates, p, k);
    var n := |p| - 1;
    if k == n {
      assert p[..k + 1] == p && p[k..] == [p[k]];
      ProductOfOne(rates, p[k]);
    } else {
      LastFactor(rates, p);
      ProductSplits(rates, p[..n], k);
      assert p[..n][..k + 1] == p[..k + 1] && p[..n][k..] == p[k..n];
      LastFactor(rates, p[k..]);
      assert p[k..][..|p[k..]| - 1] == p[k..n];
      Associate(Product(rates, p), Product(rates, p[..n]), Product(rates, p[k..]),
                Product(rates, p[..k + 1]), Product(rates, p[k..n]), rates[CcyPair(p[n - 1], p[n])]);
    }
  }

  lemma PartsAreWalks(rates: Rates, p: seq<Ccy>, k: nat)
    requires Walk(rates, p) && k < |p|
    ensures Walk(rates, p[..k + 1]) && Walk(rates, p[k..])
  {
    forall i | 0 <= i < |p[k..]| - 1 ensures Edge(rates, p[k..][i], p[k..][i + 1]) {
      assert Edge(rates, p[k + i], p[k + i + 1]);
    }
  }

  lemma LastFactor(rates: Rates, p: seq<Ccy>)
    requires |p| >= 2 && Walk(rates, p)
    ensures Edge(rates, p[|p| - 2], p[|p| - 1]) && Walk(rates, p[..|p| - 1])
    ensures IsTimes(Product(rates, p), Product(rates, p[..|p| - 1]), rates[CcyPair(p[|p| - 2], p[|p| - 1])])
  {
    assert Edge(rates, p[|p| - 2], p[|p| - 2 + 1]);
  }

  lemma Associate(all: real, front: real, back: real, x: real, y: real, z: real)
    requires IsTimes(all, front, z) && IsTimes(front, x, y) && IsTimes(back, y, z)
    ensures IsTimes(all, x, back)
  {
    assert x * y * z == x * (y * z);
  }

  /** So the value of a path is its first rate times the value from its second currency on. */
  lemma FirstFactor(rates: Rates, p: seq<Ccy>)
    requires |p| >= 2 && Walk(rates, p)
    ensures Edge(rates, p[0], p[1]) && Walk(rates, p[1..])
    ensures Product(rates, p) == rates[CcyPair(p[0], p[1])] * Product(rates, p[1..])
  {
    assert Edge(rates, p[0], p[1]);
    ProductSplits(rates, p, 1);
    assert p[..2] == [p[0], p[1]];
    ProductOfEdge(rates, p[0], p[1]);
  }

  /** And over one currency in between, the product of two rates. */
  lemma TwoLegs(rates: Rates, a: Ccy, y: Ccy, z: Ccy)
    requires Edge(rates, a, y) && Edge(rates, y, z)
    ensures Walk(rates, [a, y, z])
    ensures Product(rates, [a, y, z]) == rates[CcyPair(a, y)] * rates[CcyPair(y, z)]
  {
    var p := [a, y, z];
    FirstFactor(rates, p);
    assert p[1..] == [y, z];
    ProductOfEdge(rates, y, z);
  }

  /** What a path of direct rates is worth: each step multiplies, and nothing else does. */
  lemma PathValue(rates: Rates, p: seq<Ccy>, a: Ccy, z: Ccy)
    requires PathOf(rates, p, a, z)
    ensures Edge(rates, p[0], p[1]) && Walk(rates, p[1..])
    ensures |p| == 2 ==> Product(rates, p) == rates[CcyPair(a, z)]
    ensures |p| == 3 ==> Edge(rates, p[1], z) && Product(rates, p) == rates[CcyPair(a, p[1])] * rates[CcyPair(p[1], z)]
    ensures Product(rates, p) == rates[CcyPair(a, p[1])] * Product(rates, p[1..])
  {
    FirstFactor(rates, p);
    if |p| == 2 {
      assert p == [a, z];
      ProductOfEdge(rates, a, z);
    } else if |p| == 3 {
      assert Edge(rates, p[1], p[2]);
      assert p == [a, p[1], z];
      TwoLegs(rates, a, p[1], z);
    }
  }

  /** What the manager answers: 1 for a currency itself, a direct rate if there is one, else the path's product. */
  ghost function BidValue(rates: Rates, paths: Paths, cp: CcyPair): real
    requires CacheOk(rates, paths)
  {
    if !cp.Valid() then 0.0
    else if cp.baseCcy == cp.quoteCcy then 1.0
    else if cp in rates then rates[cp]
    else if cp in paths then
      assert PathOf(rates, paths[cp], cp.baseCcy, cp.quoteCcy);
      Product(rates, paths[cp])
    else 0.0
  }

  /** The rate of a pair without a direct rate: its path's first rate, times what the rest of the path is worth. */
  ghost predicate WorthOfPath(rates: Rates, p: seq<Ccy>, rate: real) {
    && |p| >= 3 && Walk(rates, p) && Edge(rates, p[0], p[1]) && Walk(rates, p[1..])
    && rate == rates[CcyPair(p[0], p[1])] * Product(rates, p[1..])
    && (|p| == 3 ==> Edge(rates, p[1], p[2]) && rate == rates[CcyPair(p[0], p[1])] * rates[CcyPair(p[1], p[2])])
  }

  /** The answer, case by case. */
  lemma BidValueMeans(rates: Rates, paths: Paths, cp: CcyPair)
    requires CacheOk(rates, paths)
    ensures var rate := BidValue(rates, paths, cp);
            && (!cp.Valid() ==> rate == 0.0)
            && (cp.Valid() && cp.baseCcy == cp.quoteCcy ==> rate == 1.0)
            && (cp.Valid() && cp.baseCcy != cp.quoteCcy && cp in rates ==> rate == rates[cp])
            && (cp.Valid() && cp.baseCcy != cp.quoteCcy && cp !in rates ==>
                  if cp in paths then WorthOfPath(rates, paths[cp], rate) else rate == 0.0)
  {
    if cp in paths {
      var p := paths[cp];
      assert PathOf(rates, p, cp.baseCcy, cp.quoteCcy);
      PathValue(rates, p, cp.baseCcy, cp.quoteCcy);
      assert |p| == 2 ==> CcyPair(p[0], p[1]) == cp;
    }
  }

  ghost function AskValue(rates: Rates, paths: Paths, cp: CcyPair): real
    requires CacheOk(rates, paths)
  {
    var back := BidValue(rates, paths, cp.Reverse());
    if back != 0.0 then 1.0 / back else 0.0
  }

  /** After an ask rate has been set, asking for it gives it back, exactly unless both currencies are the same. */
  lemma AskRateComesBack(rates: Rates, paths: Paths, cp: CcyPair, rate: real)
    requires CacheOk(rates, paths) && cp.Valid() && rate > 0.0
    ensures CacheOk(rates[cp.Reverse() := 1.0 / rate], paths)
    ensures AskValue(rates[cp.Reverse() := 1.0 / rate], paths, cp) == rate <==> cp.baseCcy != cp.quoteCcy || rate == 1.0
  {
    CacheSurvivesRates(rates, paths, cp.Reverse(), 1.0 / rate);
    assert 1.0 / rate != 0.0;
    assert 1.0 / (1.0 / rate) == rate;
  }
}
