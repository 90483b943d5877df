/** A price feed that cannot be carried although nothing is wrong with its pairs: two of them go by one name. */
module FeedExample {
  import opened Quotes
  import opened ActiveQuoteTables
  import opened MarketData
  import opened PipelineResults
  import opened PipelineFeeds
  import opened RegisteredFeeds
  import R = RegistryExample
  import C = CurrencyRegistries
  import S = Symbols

  const AB: Pair := Pair("A", "B")
  const AC: Pair := Pair("A", "C")

  /** Bids for both pairs at the price 5. */
  predicate BothAtFive(a: Source) {
    a == Source(AB, Bid, "5") || a == Source(AC, Bid, "5")
  }

  ghost predicate Abc(registry: C.CurrencyRegistry)
    reads registry
  {
    registry.Valid() && registry.valToStr == R.NO_SYMBOLS[1 := "A"][2 := "B"][3 := "C"]
  }

  lemma BothStand(registry: C.CurrencyRegistry)
    requires Abc(registry)
    ensures Stands(registry.valToStr, S.CurrencyPair(1, 2), AB) && Stands(registry.valToStr, S.CurrencyPair(1, 3), AC)
  {
  }

  lemma BothRegistered(registry: C.CurrencyRegistry)
    requires Abc(registry)
    ensures RegisteredFeed(registry, BothAtFive)
  {
    BothStand(registry);
  }

  lemma OneName(registry: C.CurrencyRegistry, name: string)
    requires Abc(registry)
    requires R.GoesBy(registry, S.CurrencyPair(1, 2), name) && R.GoesBy(registry, S.CurrencyPair(1, 3), name)
    ensures NamesOf(registry)(AB) == name == NamesOf(registry)(AC)
  {
    BothStand(registry);
    NameOfPair(registry, S.CurrencyPair(1, 2), AB);
    NameOfPair(registry, S.CurrencyPair(1, 3), AC);
  }

  /** With one name for both, some run misses a reference, however prices are read and scaled. */
  lemma OneNameFails(registry: C.CurrencyRegistry, scales: Scales, read: Reader, connections: nat)
    requires Abc(registry) && NamesOf(registry)(AB) == NamesOf(registry)(AC) && connections >= 1
    ensures !Faultless(scales, read, NamesOf(registry), BothAtFive, connections)
  {
    BothRegistered(registry);
    RegisteredFeedFaultlessExactlyWhen(registry, scales, read, BothAtFive, connections);
    assert BothAtFive(Source(AB, Bid, "5")) && BothAtFive(Source(AC, Bid, "5"));
    assert Source(AB, Bid, "5").SameLevel(Source(AC, Bid, "5"));
  }

  /**
    The history: "A" has id 1, "AA" is refused for 2 and for 3, "B" gets 2 and "C" gets 3.  The registry is valid, its
    pairs are clean and the price is a numeral, but both pairs go by the name A/AA, and a run misses a reference.
   */
  method NumeralFeedWithFault(ghost scales: Scales, ghost read: Reader)
    returns (registry: C.CurrencyRegistry, second: string, third: string)
    ensures registry.Valid() && RegisteredFeed(registry, BothAtFive) && CleanPair(AB) && CleanPair(AC)
    ensures second == "A/AA" == third
    ensures NamesOf(registry)(AB) == second && NamesOf(registry)(AC) == third
    ensures !Faultless(scales, read, NamesOf(registry), BothAtFive, 1)
  {
    registry, second, third := R.SharedName();
    BothRegistered(registry);
    OneName(registry, second);
    OneNameFails(registry, scales, read, 1);
  }
}
