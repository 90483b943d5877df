/**
  Which price feeds the market-data path can carry: exactly those in which an id stands for one side of one pair.
 */
module PipelineFeeds {
  import opened Wrappers
  import opened Quotes
  import opened OrderBooks
  import opened ActiveQuoteTables
  import opened MarketData
  import opened Pipeline
  import opened PipelineResults

  /** Where levels may come from: a side of a pair, and a price text. */
  datatype Source = Source(cp: Pair, side: EntryType, priceText: string) {
    function Id(name: Naming): string {
      EntryId(name, cp, side, priceText)
    }

    predicate Valid() {
      cp.Valid() && !side.NoType?
    }

    predicate SameHome(other: Source) {
      cp == other.cp && side.Bid? == other.side.Bid?
    }

    predicate SameLevel(other: Source) {
      side.Bid? == other.side.Bid? && priceText == other.priceText
    }
  }

  type Feed = Source -> bool

  /** How the library reads a price from its text. */
  type Reader = string -> real

  ghost predicate ValidFeed(feed: Feed) {
    forall a :: feed(a) ==> a.Valid()
  }

  /** A parsed message of levels of the feed, with prices as their texts are read and any sizes. */
  ghost predicate MessageOf(read: Reader, name: Naming, feed: Feed, entries: seq<Entry>) {
    exists levels, side, cp :: Parsed(read, name, feed, levels, side, cp, entries)
  }

  ghost predicate Parsed(read: Reader, name: Naming, feed: Feed, levels: seq<Level>, side: EntryType, cp: Pair,
                         entries: seq<Entry>) {
    && entries == ParseLevels(name, levels, side, cp)
    && (forall i :: 0 <= i < |levels| ==> feed(Source(cp, side, levels[i].priceText)))
    && (forall i :: 0 <= i < |levels| ==> levels[i].price == read(levels[i].priceText))
  }

  ghost predicate FedBy(read: Reader, name: Naming, feed: Feed, actions: seq<Action>) {
    forall i :: 0 <= i < |actions| && actions[i].Begin? ==> MessageOf(read, name, feed, actions[i].entries)
  }

  /** Sources that share an id share pair and side. */
  ghost predicate Unambiguous(name: Naming, feed: Feed) {
    forall a, b :: feed(a) && feed(b) && a.Id(name) == b.Id(name) ==> a.SameHome(b)
  }

  /** No run on messages of the feed ever misses a reference. */
  ghost predicate Faultless(scales: Scales, read: Reader, name: Naming, feed: Feed, connections: nat) {
    forall actions, s :: Runs(scales, Initial(connections), actions, s) && FedBy(read, name, feed, actions) ==>
      s.faults == 0
  }

  ghost function HomeOf(name: Naming, feed: Feed, id: string): (Pair, bool) {
    if exists a :: feed(a) && a.Id(name) == id then
      var a :| feed(a) && a.Id(name) == id;
      (a.cp, a.side.Bid?)
    else (Pair("", ""), false)
  }

  lemma HomeIsHome(name: Naming, feed: Feed, a: Source)
    requires Unambiguous(name, feed) && feed(a)
    ensures HomeOf(name, feed, a.Id(name)) == (a.cp, a.side.Bid?)
  {
  }

  lemma MessageWellFormed(read: Reader, name: Naming, feed: Feed, entries: seq<Entry>)
    requires Unambiguous(name, feed) && MessageOf(read, name, feed, entries)
    ensures AllWellFormed(id => HomeOf(name, feed, id), entries)
  {
    var levels: seq<Level>, side: EntryType, cp: Pair :| Parsed(read, name, feed, levels, side, cp, entries);
    forall i | 0 <= i < |entries| ensures WellFormed(id => HomeOf(name, feed, id), entries[i]) {
      var a := Source(cp, side, levels[i].priceText);
      HomeIsHome(name, feed, a);
      assert |a.Id(name)| >= 2;
    }
  }

  lemma FedIsReached(scales: Scales, read: Reader, name: Naming, feed: Feed, connections: nat,
                     actions: seq<Action>, s: State)
    requires Unambiguous(name, feed) && FedBy(read, name, feed, actions)
    requires Runs(scales, Initial(connections), actions, s)
    ensures Reached(scales, id => HomeOf(name, feed, id), connections, actions, s)
  {
    var home := id => HomeOf(name, feed, id);
    forall i | 0 <= i < |actions| && actions[i].Begin? ensures AllWellFormed(home, actions[i].entries) {
      MessageWellFormed(read, name, feed, actions[i].entries);
    }
    assert MessagesWellFormed(home, actions);
  }

  lemma UnambiguousIsCarried(scales: Scales, read: Reader, name: Naming, feed: Feed, connections: nat)
    requires Unambiguous(name, feed)
    ensures Faultless(scales, read, name, feed, connections)
  {
    forall actions, s | Runs(scales, Initial(connections), actions, s) && FedBy(read, name, feed, actions)
      ensures s.faults == 0
    {
      FedIsReached(scales, read, name, feed, connections, actions, s);
      ReferencesAlwaysFound(scales, id => HomeOf(name, feed, id), connections, actions, s);
    }
  }

  // ---------------------------------------------------------------------------------------------------------
  // A collision
  // ---------------------------------------------------------------------------------------------------------

  /** A level of the source, with some size. */
  function LevelOf(read: Reader, a: Source): Level {
    Level(a.priceText, read(a.priceText), 1.0)
  }

  function EntryOf(read: Reader, name: Naming, a: Source): Entry {
    ParseLevel(name, LevelOf(read, a), a.side, a.cp)
  }

  lemma OneLevelMessage(read: Reader, name: Naming, feed: Feed, a: Source)
    requires feed(a)
    ensures MessageOf(read, name, feed, [EntryOf(read, name, a)])
  {
    assert ParseLevels(name, [LevelOf(read, a)], a.side, a.cp) == [EntryOf(read, name, a)];
    assert Parsed(read, name, feed, [LevelOf(read, a)], a.side, a.cp, [EntryOf(read, name, a)]);
  }

  /** One entry on its way through an idle connection. */
  function Carried(scales: Scales, s: State, e: Entry): State
    requires |s.conns| > 0 && Idle(s.conns[0])
    requires Register(scales, s.conns[0].table, s.lastKey, e, 0).outcome.Publish?
  {
    Apply(scales, Apply(scales, Apply(scales, s, Begin(0, [e])), Take(0, 0)), Deliver(0))
  }

  function Carry(e: Entry): seq<Action> {
    [Begin(0, [e]), Take(0, 0), Deliver(0)]
  }

  lemma CarriedRuns(scales: Scales, s: State, e: Entry, rest: seq<Action>, t: State)
    requires |s.conns| > 0 && Idle(s.conns[0])
    requires Register(scales, s.conns[0].table, s.lastKey, e, 0).outcome.Publish?
    requires Runs(scales, Carried(scales, s, e), rest, t)
    ensures Runs(scales, s, Carry(e) + rest, t)
  {
    var s1 := Apply(scales, s, Begin(0, [e]));
    var s2 := Apply(scales, s1, Take(0, 0));
    RunsCons(scales, s2, Deliver(0), rest, t);
    RunsCons(scales, s1, Take(0, 0), [Deliver(0)] + rest, t);
    RunsCons(scales, s, Begin(0, [e]), [Take(0, 0)] + ([Deliver(0)] + rest), t);
    assert Carry(e) + rest == [Begin(0, [e])] + ([Take(0, 0)] + ([Deliver(0)] + rest));
  }

  lemma RunsCons(scales: Scales, s: State, a: Action, rest: seq<Action>, t: State)
    requires Enabled(s, a) && Runs(scales, Apply(scales, s, a), rest, t)
    ensures Runs(scales, s, [a] + rest, t)
  {
    assert ([a] + rest)[1..] == rest;
  }

  /** After the first of two sources with one id, the second is taken for an update its own side cannot find. */
  lemma SecondMisses(scales: Scales, read: Reader, name: Naming, connections: nat, a: Source, b: Source)
    requires connections >= 1 && a.Valid() && b.Valid() && a.Id(name) == b.Id(name) && !a.SameHome(b)
    ensures var e, f := EntryOf(read, name, a), EntryOf(read, name, b);
            var s := Initial(connections);
            && Register(scales, s.conns[0].table, s.lastKey, e, 0).outcome.Publish?
            && var s1 := Carried(scales, s, e);
               Idle(s1.conns[0]) && Register(scales, s1.conns[0].table, s1.lastKey, f, 0).outcome.Publish?
               && Carried(scales, s1, f).faults == 1
  {
    var e, f := EntryOf(read, name, a), EntryOf(read, name, b);
    var s := Initial(connections);
    assert |a.Id(name)| >= 2;
    var s1 := Carried(scales, s, e);
    assert s1.conns[0].table[e.id].key == 1;
    assert s1.books.Keys == {a.cp};
    assert SideOf(s1.books, b.cp, b.side.Bid?) == [];
  }

  lemma TwoCarried(scales: Scales, s: State, e: Entry, s1: State, f: Entry, s2: State)
    requires |s.conns| > 0 && Idle(s.conns[0])
    requires Register(scales, s.conns[0].table, s.lastKey, e, 0).outcome.Publish? && s1 == Carried(scales, s, e)
    requires |s1.conns| > 0 && Idle(s1.conns[0])
    requires Register(scales, s1.conns[0].table, s1.lastKey, f, 0).outcome.Publish? && s2 == Carried(scales, s1, f)
    ensures Runs(scales, s, Carry(e) + Carry(f), s2)
  {
    OneCarried(scales, s1, f, s2);
    CarriedRuns(scales, s, e, Carry(f), s2);
  }

  lemma OneCarried(scales: Scales, s: State, e: Entry, t: State)
    requires |s.conns| > 0 && Idle(s.conns[0])
    requires Register(scales, s.conns[0].table, s.lastKey, e, 0).outcome.Publish? && t == Carried(scales, s, e)
    ensures Runs(scales, s, Carry(e), t)
  {
    NothingToRun(scales, t);
    CarriedRuns(scales, s, e, [], t);
    assert Carry(e) + [] == Carry(e);
  }

  lemma NothingToRun(scales: Scales, s: State)
    ensures Runs(scales, s, [], s)
  {
  }

  lemma BothFed(read: Reader, name: Naming, feed: Feed, a: Source, b: Source)
    requires feed(a) && feed(b)
    ensures FedBy(read, name, feed, Carry(EntryOf(read, name, a)) + Carry(EntryOf(read, name, b)))
  {
    OneLevelMessage(read, name, feed, a);
    OneLevelMessage(read, name, feed, b);
  }

  lemma CollisionIsReached(scales: Scales, read: Reader, name: Naming, feed: Feed, connections: nat,
                           a: Source, b: Source)
    requires connections >= 1 && feed(a) && feed(b) && a.Valid() && b.Valid()
    requires a.Id(name) == b.Id(name) && !a.SameHome(b)
    ensures !Faultless(scales, read, name, feed, connections)
  {
    var e, f := EntryOf(read, name, a), EntryOf(read, name, b);
    SecondMisses(scales, read, name, connections, a, b);
    BothFed(read, name, feed, a, b);
    var s1 := Carried(scales, Initial(connections), e);
    TwoCarried(scales, Initial(connections), e, s1, f, Carried(scales, s1, f));
  }

  /**
    A feed is carried without a missing reference, over every run of any number of connections, exactly if its sources
    that share an id share pair and side.
   */
  lemma FaultlessExactlyWhen(scales: Scales, read: Reader, name: Naming, feed: Feed, connections: nat)
    requires connections >= 1 && ValidFeed(feed)
    ensures Faultless(scales, read, name, feed, connections) <==> Unambiguous(name, feed)
  {
    if Unambiguous(name, feed) {
      UnambiguousIsCarried(scales, read, name, feed, connections);
    } else {
      var a, b :| feed(a) && feed(b) && a.Id(name) == b.Id(name) && !a.SameHome(b);
      CollisionIsReached(scales, read, name, feed, connections, a, b);
    }
  }

  /** Clean pairs under their fresh names, whatever the price texts, are such a feed. */
  lemma CleanFeedIsUnambiguous(name: Naming, feed: Feed)
    requires ValidFeed(feed) && forall a :: feed(a) ==> CleanPair(a.cp) && name(a.cp) == FreshName(a.cp)
    ensures Unambiguous(name, feed)
  {
    forall a, b | feed(a) && feed(b) && a.Id(name) == b.Id(name) ensures a.SameHome(b) {
      HomeOfEntryId(name, a.cp, a.side, a.priceText);
      HomeOfEntryId(name, b.cp, b.side, b.priceText);
    }
  }

  // ---------------------------------------------------------------------------------------------------------
  // Price texts without the separator, as numerals are
  // ---------------------------------------------------------------------------------------------------------

  ghost predicate PlainTexts(feed: Feed) {
    forall a :: feed(a) ==> '_' !in a.priceText
  }

  /** Different pairs have different names. */
  ghost predicate NamesDiffer(name: Naming, feed: Feed) {
    forall a, b :: feed(a) && feed(b) && name(a.cp) == name(b.cp) ==> a.cp == b.cp
  }

  /** Different pairs have different names as far as they come with the same price on the same side. */
  ghost predicate NamesDifferAtOnePrice(name: Naming, feed: Feed) {
    forall a, b :: feed(a) && feed(b) && a.SameLevel(b) && name(a.cp) == name(b.cp) ==> a.cp == b.cp
  }

  /** Any pair may come with any price on either side that the feed has. */
  ghost predicate PricesShared(feed: Feed) {
    forall a, b :: feed(a) && feed(b) ==> feed(Source(b.cp, a.side, a.priceText))
  }

  /** The last separator of an id is the generated one, so name, side and text are read back. */
  lemma PlainIdsEqualExactlyWhen(name: Naming, a: Source, b: Source)
    requires '_' !in a.priceText && '_' !in b.priceText
    ensures a.Id(name) == b.Id(name) <==> name(a.cp) == name(b.cp) && a.SameLevel(b)
  {
    if a.Id(name) == b.Id(name) {
      SameNameLength(name, a, b);
      var n := |name(a.cp)|;
      assert a.Id(name)[..n] == name(a.cp) && b.Id(name)[..n] == name(b.cp);
      assert a.Id(name)[n + 2..] == a.priceText && b.Id(name)[n + 2..] == b.priceText;
      assert a.Id(name)[n + 1] == b.Id(name)[n + 1];
    }
  }

  lemma SameNameLength(name: Naming, a: Source, b: Source)
    requires '_' !in a.priceText && '_' !in b.priceText && a.Id(name) == b.Id(name)
    ensures |name(a.cp)| == |name(b.cp)|
  {
    if |name(a.cp)| < |name(b.cp)| {
      NoneBehindName(name, a, |name(b.cp)|);
    } else if |name(b.cp)| < |name(a.cp)| {
      NoneBehindName(name, b, |name(a.cp)|);
    }
  }

  lemma NoneBehindName(name: Naming, a: Source, k: nat)
    requires '_' !in a.priceText && |name(a.cp)| < k < |a.Id(name)|
    ensures a.Id(name)[k] != '_'
  {
    var n := |name(a.cp)|;
    assert a.Id(name)[n + 1] == if a.side.Bid? then 'B' else 'A';
    assert k > n + 1 ==> a.Id(name)[k] == a.priceText[k - n - 2];
  }

  /**
    With plain price texts, ids tell pairs apart exactly if names do wherever prices meet; so if any pair may come with
    any price, exactly if different pairs have different names.
   */
  lemma PlainFeedExactlyWhen(name: Naming, feed: Feed)
    requires PlainTexts(feed)
    ensures Unambiguous(name, feed) <==> NamesDifferAtOnePrice(name, feed)
    ensures PricesShared(feed) ==> (Unambiguous(name, feed) <==> NamesDiffer(name, feed))
    ensures NamesDiffer(name, feed) ==> Unambiguous(name, feed)
  {
    forall a, b | feed(a) && feed(b)
      ensures a.Id(name) == b.Id(name) <==> name(a.cp) == name(b.cp) && a.SameLevel(b)
    {
      PlainIdsEqualExactlyWhen(name, a, b);
    }
    if PricesShared(feed) && NamesDifferAtOnePrice(name, feed) {
      forall a, b | feed(a) && feed(b) && name(a.cp) == name(b.cp) ensures a.cp == b.cp {
        assert feed(Source(b.cp, a.side, a.priceText)) && a.SameLevel(Source(b.cp, a.side, a.priceText));
      }
    }
  }

  /** So this is when such a feed is carried without a missing reference. */
  lemma PlainFeedFaultlessExactlyWhen(scales: Scales, read: Reader, name: Naming, feed: Feed, connections: nat)
    requires PlainTexts(feed) && ValidFeed(feed) && connections >= 1
    ensures Faultless(scales, read, name, feed, connections) <==> NamesDifferAtOnePrice(name, feed)
    ensures PricesShared(feed) ==>
              (Faultless(scales, read, name, feed, connections) <==> NamesDiffer(name, feed))
  {
    PlainFeedExactlyWhen(name, feed);
    FaultlessExactlyWhen(scales, read, name, feed, connections);
  }

  // ---------------------------------------------------------------------------------------------------------
  // A feed that cannot be carried
  // ---------------------------------------------------------------------------------------------------------

  /** Two valid pairs with different names: a symbol contains the separator, and a price text does too. */
  lemma FeedWithFault(scales: Scales, read: Reader)
    ensures var feed := a => a == Source(Pair("X", "Y"), Bid, "1_B5") || a == Source(Pair("X", "Y_B1"), Bid, "5");
            ValidFeed(feed) && !Faultless(scales, read, FreshName, feed, 1)
  {
    var feed := a => a == Source(Pair("X", "Y"), Bid, "1_B5") || a == Source(Pair("X", "Y_B1"), Bid, "5");
    IdsCanCollide();
    assert feed(Source(Pair("X", "Y"), Bid, "1_B5")) && feed(Source(Pair("X", "Y_B1"), Bid, "5"));
    assert !Unambiguous(FreshName, feed);
    FaultlessExactlyWhen(scales, read, FreshName, feed, 1);
  }
}
