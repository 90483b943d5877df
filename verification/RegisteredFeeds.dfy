/** Price feeds of registered currencies: what the registry and its memory of names mean on the market-data path. */
module RegisteredFeeds {
  import opened Quotes
  import opened MarketData
  import opened PipelineFeeds
  import C = CurrencyRegistries
  import S = Symbols

  /** The pair of two currencies, by their symbols. */
  predicate Stands(valToStr: map<int, string>, cp: S.CurrencyPair, pair: Pair) {
    && cp.Valid() && cp.baseCcy in valToStr && cp.quoteCcy in valToStr
    && pair == Pair(valToStr[cp.baseCcy], valToStr[cp.quoteCcy])
  }

  ghost predicate Registered(valToStr: map<int, string>, pair: Pair) {
    exists cp :: Stands(valToStr, cp, pair)
  }

  /** The name by which a registered pair goes: the remembered one, or else the fresh one. */
  ghost function GivenName(valToStr: map<int, string>, names: map<S.CurrencyPair, string>, pair: Pair): string {
    if Registered(valToStr, pair) then
      var cp :| Stands(valToStr, cp, pair);
      C.NameIn(valToStr, names, cp)
    else FreshName(pair)
  }

  /** How the registry names pairs. */
  ghost function NamesOf(registry: C.CurrencyRegistry): Naming
    reads registry
  {
    var valToStr, names := registry.valToStr, registry.nameCache;
    pair => GivenName(valToStr, names, pair)
  }

  lemma NoSymbolIsOdd(valToStr: map<int, string>, index: S.Index, v: int)
    requires S.Ordered(index) && S.Inverse(valToStr, index)
    requires S.NONE in valToStr && valToStr[S.NONE] == "" && S.INVALID in valToStr
    requires valToStr[S.INVALID] == S.INVALID_CURRENCY && v in valToStr && S.ValidValue(v)
    ensures ValidSymbol(valToStr[v])
  {
    S.ValueFinds(valToStr, index, v);
    S.ValueFinds(valToStr, index, S.NONE);
    S.ValueFinds(valToStr, index, S.INVALID);
  }

  lemma StandsForOne(registry: C.CurrencyRegistry, cp: S.CurrencyPair, other: S.CurrencyPair, pair: Pair)
    requires registry.Valid() && Stands(registry.valToStr, cp, pair) && Stands(registry.valToStr, other, pair)
    ensures cp == other
  {
    S.ValueFinds(registry.valToStr, registry.strToVal, cp.baseCcy);
    S.ValueFinds(registry.valToStr, registry.strToVal, cp.quoteCcy);
    S.ValueFinds(registry.valToStr, registry.strToVal, other.baseCcy);
    S.ValueFinds(registry.valToStr, registry.strToVal, other.quoteCcy);
  }

  lemma NameOfPair(registry: C.CurrencyRegistry, cp: S.CurrencyPair, pair: Pair)
    requires registry.Valid() && Stands(registry.valToStr, cp, pair)
    ensures NamesOf(registry)(pair) == C.NameIn(registry.valToStr, registry.nameCache, cp)
  {
    var valToStr := registry.valToStr;
    assert Registered(valToStr, pair);
    forall other | Stands(valToStr, other, pair) ensures other == cp {
      StandsForOne(registry, cp, other, pair);
    }
  }

  lemma RegisteredIsValid(registry: C.CurrencyRegistry, cp: S.CurrencyPair, pair: Pair)
    requires registry.Valid() && Stands(registry.valToStr, cp, pair)
    ensures pair.Valid() && FreshName(pair) == S.Name(registry.valToStr, cp)
  {
    NoSymbolIsOdd(registry.valToStr, registry.strToVal, cp.baseCcy);
    NoSymbolIsOdd(registry.valToStr, registry.strToVal, cp.quoteCcy);
  }

  /** A feed of registered pairs, on either side, with price texts that have no separator, as numerals. */
  ghost predicate RegisteredFeed(registry: C.CurrencyRegistry, feed: Feed)
    reads registry
  {
    PlainTexts(feed) && forall a :: feed(a) ==> Registered(registry.valToStr, a.cp) && !a.side.NoType?
  }

  /** What the method that gives out a pair's name answers is the name of this naming. */
  method AskName(registry: C.CurrencyRegistry, cp: S.CurrencyPair, pair: Pair) returns (name: string)
    requires registry.Valid() && Stands(registry.valToStr, cp, pair)
    modifies registry
    ensures name == old(NamesOf(registry)(pair)) && registry.Valid() && registry.NamesSteady()
    ensures name == NamesOf(registry)(pair)
  {
    NameOfPair(registry, cp, pair);
    name := registry.ToString(cp);
    NameOfPair(registry, cp, pair);
  }

  lemma RegisteredFeedIsValid(registry: C.CurrencyRegistry, feed: Feed)
    requires registry.Valid() && RegisteredFeed(registry, feed)
    ensures ValidFeed(feed)
  {
    forall a | feed(a) ensures a.Valid() {
      var cp :| Stands(registry.valToStr, cp, a.cp);
      RegisteredIsValid(registry, cp, a.cp);
    }
  }

  /**
    Feeds of registered pairs are carried without a missing reference, over every run of any number of connections,
    exactly if different pairs with the same price on the same side go by different names.
   */
  lemma RegisteredFeedFaultlessExactlyWhen(registry: C.CurrencyRegistry, scales: Scales, read: Reader, feed: Feed,
                                           connections: nat)
    requires registry.Valid() && RegisteredFeed(registry, feed) && connections >= 1
    ensures Faultless(scales, read, NamesOf(registry), feed, connections)
       <==> NamesDifferAtOnePrice(NamesOf(registry), feed)
    ensures PricesShared(feed) ==> (Faultless(scales, read, NamesOf(registry), feed, connections)
                                    <==> NamesDiffer(NamesOf(registry), feed))
  {
    RegisteredFeedIsValid(registry, feed);
    PlainFeedFaultlessExactlyWhen(scales, read, NamesOf(registry), feed, connections);
  }

  /** The names of the feed's pairs are what their symbols make. */
  ghost predicate NamesFresh(registry: C.CurrencyRegistry, feed: Feed)
    reads registry
  {
    forall a :: feed(a) ==> NamesOf(registry)(a.cp) == FreshName(a.cp)
  }

  /** Two registered pairs with one fresh name are one pair. */
  lemma FreshNamesDiffer(registry: C.CurrencyRegistry, a: Pair, b: Pair)
    requires registry.Valid() && Registered(registry.valToStr, a) && Registered(registry.valToStr, b)
    requires FreshName(a) == FreshName(b)
    ensures a == b
  {
    var x :| Stands(registry.valToStr, x, a);
    var y :| Stands(registry.valToStr, y, b);
    RegisteredIsValid(registry, x, a);
    RegisteredIsValid(registry, y, b);
    S.NamesDiffer(registry.valToStr, registry.strToVal, x, y);
  }

  /** With fresh names, whatever symbols the registry has let in, nothing is ever missed. */
  lemma FreshFeedIsFaultless(registry: C.CurrencyRegistry, scales: Scales, read: Reader, feed: Feed, connections: nat)
    requires registry.Valid() && RegisteredFeed(registry, feed) && NamesFresh(registry, feed)
    ensures Faultless(scales, read, NamesOf(registry), feed, connections)
  {
    var name := NamesOf(registry);
    forall a, b | feed(a) && feed(b) && name(a.cp) == name(b.cp) ensures a.cp == b.cp {
      FreshNamesDiffer(registry, a.cp, b.cp);
    }
    PlainFeedExactlyWhen(name, feed);
    UnambiguousIsCarried(scales, read, name, feed, connections);
  }

  /** A name is fresh exactly if no other is remembered; in particular if no registration of its ids had failed. */
  lemma FreshExactlyWhen(registry: C.CurrencyRegistry, cp: S.CurrencyPair, pair: Pair)
    requires registry.Valid() && Stands(registry.valToStr, cp, pair)
    ensures NamesOf(registry)(pair) == FreshName(pair) <==>
              (cp in registry.nameCache ==> registry.nameCache[cp] == FreshName(pair))
    ensures cp.baseCcy !in registry.failedIds && cp.quoteCcy !in registry.failedIds ==>
              NamesOf(registry)(pair) == FreshName(pair)
  {
    NameOfPair(registry, cp, pair);
    RegisteredIsValid(registry, cp, pair);
  }

  /** No registration of an id of the pair had failed. */
  ghost predicate NeverFailed(registry: C.CurrencyRegistry, pair: Pair)
    reads registry
  {
    exists cp :: Stands(registry.valToStr, cp, pair)
      && cp.baseCcy !in registry.failedIds && cp.quoteCcy !in registry.failedIds
  }

  lemma NeverFailedIsFaultless(registry: C.CurrencyRegistry, scales: Scales, read: Reader, feed: Feed,
                               connections: nat)
    requires registry.Valid() && RegisteredFeed(registry, feed)
    requires forall a :: feed(a) ==> NeverFailed(registry, a.cp)
    ensures Faultless(scales, read, NamesOf(registry), feed, connections)
  {
    forall a | feed(a) ensures NamesOf(registry)(a.cp) == FreshName(a.cp) {
      var cp :| Stands(registry.valToStr, cp, a.cp)
        && cp.baseCcy !in registry.failedIds && cp.quoteCcy !in registry.failedIds;
      FreshExactlyWhen(registry, cp, a.cp);
    }
    FreshFeedIsFaultless(registry, scales, read, feed, connections);
  }
}
