/**
  One connection at work: the parsing and publishing loops over the table, the key source and the shared book
  (`ConnectionBaseMD`, `NewInt64Key`), tied to the actions of `Pipeline`.
 */
module ConnectionsMD {
  import opened Wrappers
  import opened Quotes
  import opened OrderBooks
  import opened ActiveQuoteTables
  import opened MarketData
  import opened Pipeline
  import opened PipelineProofs
  import opened PipelineResults
  import opened PipelineFeeds
  import opened MessageLevels

  /** Table, books and last key after publishing entries without interference, and how many were published. */
  datatype Published = Published(table: Table, books: Books, lastKey: int, count: nat)

  function PublishAll(scales: Scales, table: Table, books: Books, lastKey: int, entries: seq<Entry>,
                      times: seq<int>): Published
    requires |times| == |entries|
    decreases |entries|
  {
    if entries == [] then Published(table, books, lastKey, 0)
    else
      var r := Register(scales, table, lastKey, entries[0], times[0]);
      match r.outcome
      case Stop => Published(r.table, books, r.lastKey, 0)
      case Skip => PublishAll(scales, r.table, books, r.lastKey, entries[1..], times[1..])
      case Publish(cp, bid, quote) =>
        var rest :=
          PublishAll(scales, r.table, UpdateBooks(books, cp, bid, quote), r.lastKey, entries[1..], times[1..]);
        rest.(count := rest.count + 1)
  }

  function AddCount(n: nat, p: Published): Published {
    p.(count := n + p.count)
  }

  predicate NothingBegins(actions: seq<Action>) {
    forall i :: 0 <= i < |actions| ==> !actions[i].Begin?
  }

  /** `actions` take connection `c` from `s` to being idle in `t`, with the result `p`; the others have not moved. */
  ghost predicate Finishes(scales: Scales, s: State, c: nat, p: Published, actions: seq<Action>, t: State) {
    && c < |s.conns| == |t.conns|
    && Runs(scales, s, actions, t) && NothingBegins(actions)
    && t.books == p.books && t.lastKey == p.lastKey && t.conns[c].table == p.table
    && Idle(t.conns[c]) && t.conns[c].history == s.conns[c].history
    && (forall d :: 0 <= d < |s.conns| && d != c ==> t.conns[d] == s.conns[d])
  }

  /** The loop, run without interference, is a run of the pipeline that ends with the connection idle again. */
  lemma {:induction false} PublishAllIsARun(scales: Scales, s: State, c: nat, times: seq<int>)
    returns (actions: seq<Action>, t: State)
    requires c < |s.conns| && s.conns[c].pending.None? && |times| == |s.conns[c].todo|
    ensures Finishes(scales, s, c,
                     PublishAll(scales, s.conns[c].table, s.books, s.lastKey, s.conns[c].todo, times), actions, t)
    decreases |s.conns[c].todo|
  {
    if s.conns[c].todo == [] {
      return [], s;
    }
    var a := Take(c, times[0]);
    var s1 := Apply(scales, s, a);
    if s1.conns[c].pending.None? {
      actions, t := PublishAllIsARun(scales, s1, c, if s1.conns[c].todo == [] then [] else times[1..]);
    } else {
      var s2 := Apply(scales, s1, Deliver(c));
      actions, t := PublishAllIsARun(scales, s2, c, times[1..]);
      RunCons(scales, s1, Deliver(c), actions, t);
      actions := [Deliver(c)] + actions;
    }
    RunCons(scales, s, a, actions, t);
    actions := [a] + actions;
  }

  lemma RunCons(scales: Scales, s: State, a: Action, actions: seq<Action>, t: State)
    requires Enabled(s, a) && !a.Begin? && Runs(scales, Apply(scales, s, a), actions, t)
    requires NothingBegins(actions)
    ensures Runs(scales, s, [a] + actions, t) && NothingBegins([a] + actions)
  {
    assert ([a] + actions)[1..] == actions;
  }

  /** What the specification says of a message shows in the book, once for each active id and for nothing else. */
  ghost predicate Meets(scales: Scales, conn: Conn, entries: seq<Entry>, p: Published) {
    var spec := SpecMessage(scales, SpecAll(scales, conn.history), entries);
    && p.table.Keys == spec.Keys
    && forall id :: id in spec ==>
         HoldsOnce(SideOf(p.books, spec[id].cp, spec[id].bid), p.table[id].key, spec[id])
  }

  /**
    In any state the pipeline reaches, an idle connection that publishes a well-formed message leaves each active id,
    and only those, with exactly one quote, showing what the specification says of the message.
   */
  lemma PublishMeetsSpecification(scales: Scales, home: Homes, connections: nat, actions: seq<Action>, s: State,
                                  c: nat, entries: seq<Entry>, times: seq<int>)
    requires Reached(scales, home, connections, actions, s) && c < |s.conns| && Idle(s.conns[c])
    requires AllWellFormed(home, entries) && |times| == |entries|
    ensures Meets(scales, s.conns[c], entries,
                  PublishAll(scales, s.conns[c].table, s.books, s.lastKey, entries, times))
  {
    ReachedInv(scales, home, connections, actions, s);
    BeginInv(scales, home, s, Begin(c, entries));
    var begun := Apply(scales, s, Begin(c, entries));
    var rest, t := PublishAllIsARun(scales, begun, c, times);
    RunInv(scales, home, begun, rest, t);
    ActiveIdsHeld(scales, home, t, c);
    var history := s.conns[c].history;
    assert t.conns[c].history == history + [entries];
    assert (history + [entries])[..|history|] == history;
  }

  /** End to end: so it is with every message parsed from a feed whose ids stand for one side of one pair. */
  lemma FeedMeetsSpecification(scales: Scales, read: Reader, name: Naming, feed: Feed, connections: nat,
                               actions: seq<Action>, s: State, c: nat, entries: seq<Entry>, times: seq<int>)
    requires Unambiguous(name, feed) && Runs(scales, Initial(connections), actions, s)
    requires FedBy(read, name, feed, actions) && c < |s.conns| && Idle(s.conns[c])
    requires MessageOf(read, name, feed, entries) && |times| == |entries|
    ensures Meets(scales, s.conns[c], entries,
                  PublishAll(scales, s.conns[c].table, s.books, s.lastKey, entries, times))
  {
    MessageWellFormed(read, name, feed, entries);
    FedIsReached(scales, read, name, feed, connections, actions, s);
    PublishMeetsSpecification(scales, id => HomeOf(name, feed, id), connections, actions, s, c, entries, times);
  }

  lemma EntryRegistered(scales: Scales, name: Naming, m: Message, entries: seq<Entry>, n: nat, table: Table,
                        lastKey: int, now: int)
    requires m.Valid() && EntriesOf(name, m, entries) && n < |entries|
    ensures var r, id := Register(scales, table, lastKey, entries[n], now), m.IdAt(name, n);
            && (r.outcome.Stop? <==> m.levels[n].size == 0.0 && id !in table) && !r.outcome.Skip?
            && (r.outcome.Publish? ==> forall other :: other != id ==> (other in r.table <==> other in table))
            && (r.outcome.Publish? ==> (id in r.table <==> m.levels[n].size != 0.0))
  {
    assert |m.IdAt(name, n)| >= 2;
    RegisterHandles(scales, table, lastKey, entries[n], now);
  }

  lemma ActiveOfNext(name: Naming, active: set<string>, m: Message, n: nat, id: string)
    requires n < |m.levels|
    ensures ActiveAfter(name, active, m.First(n + 1), id)
       <==> if m.IdAt(name, n) == id then m.levels[n].size != 0.0 else ActiveAfter(name, active, m.First(n), id)
  {
    LastOfNext(name, m, n, id);
  }

  /** From level `n` on, one quote is published for each level that counts. */
  lemma {:induction false} RestCounts(scales: Scales, name: Naming, active: set<string>, m: Message,
                                      entries: seq<Entry>, n: nat, table: Table, books: Books, lastKey: int,
                                      times: seq<int>) returns (h: nat)
    requires m.Valid() && EntriesOf(name, m, entries) && n <= |entries| == |times|
    requires forall id :: id in table <==> ActiveAfter(name, active, m.First(n), id)
    requires forall i :: 0 <= i < n ==> !Ends(name, active, m, i)
    ensures n <= h && Counting(name, active, m, h)
    ensures PublishAll(scales, table, books, lastKey, entries[n..], times[n..]).count == h - n
    decreases |entries| - n
  {
    if n == |entries| {
      return n;
    }
    assert entries[n..][0] == entries[n] && entries[n..][1..] == entries[n + 1..];
    assert times[n..][0] == times[n] && times[n..][1..] == times[n + 1..];
    EntryRegistered(scales, name, m, entries, n, table, lastKey, times[n]);
    var r := Register(scales, table, lastKey, entries[n], times[n]);
    if r.outcome.Stop? {
      return n;
    }
    forall id ensures id in r.table <==> ActiveAfter(name, active, m.First(n + 1), id) {
      ActiveOfNext(name, active, m, n, id);
    }
    var updated := UpdateBooks(books, r.outcome.cp, r.outcome.bid, r.outcome.quote);
    h := RestCounts(scales, name, active, m, entries, n + 1, r.table, updated, r.lastKey, times);
  }

  /** One quote is published for each level before the one that ends the message, if any. */
  lemma LevelsCounted(scales: Scales, name: Naming, m: Message, entries: seq<Entry>, table: Table, books: Books,
                      lastKey: int, times: seq<int>) returns (h: nat)
    requires m.Valid() && EntriesOf(name, m, entries) && |entries| == |times|
    ensures Counting(name, table.Keys, m, h)
    ensures PublishAll(scales, table, books, lastKey, entries, times).count == h
  {
    assert entries[0..] == entries && times[0..] == times;
    assert forall id :: ActiveAfter(name, table.Keys, m.First(0), id) <==> id in table;
    h := RestCounts(scales, name, table.Keys, m, entries, 0, table, books, lastKey, times);
  }

  /** What the book shows of an id: the last of the levels that count, or as before the message. */
  ghost predicate BookShows(scales: Scales, name: Naming, before: Ladder, m: Message, p: Published, id: string) {
    match LastWith(name, m, id)
    case None =>
      && (id in p.table <==> id in before)
      && (id in before ==>
            HoldsOnce(SideOf(p.books, before[id].cp, before[id].bid), p.table[id].key, before[id]))
    case Some(level) =>
      && (id in p.table <==> level.size != 0.0)
      && (id in p.table ==>
            HoldsOnce(SideOf(p.books, m.cp, m.side.Bid?), p.table[id].key,
                      Live(m.cp, m.side.Bid?, scales(m.cp).ToCpip(level.price), scales(m.cp).ToQty(level.size))))
  }

  /**
    End to end, from levels to the book.  In any state reached on a feed whose ids stand for one side of one pair, an
    idle connection publishes one quote for each level before the one that ends the message, if any; of these levels
    the last one of each id is what the book shows, and all other ids are as before.
   */
  lemma LevelsShowInBook(scales: Scales, read: Reader, name: Naming, feed: Feed, connections: nat,
                         actions: seq<Action>, s: State, c: nat, m: Message, entries: seq<Entry>, times: seq<int>)
    returns (h: nat)
    requires Unambiguous(name, feed) && Runs(scales, Initial(connections), actions, s)
    requires FedBy(read, name, feed, actions) && c < |s.conns| && Idle(s.conns[c])
    requires m.Valid() && EntriesOf(name, m, entries) && |times| == |entries|
    requires forall i :: 0 <= i < |m.levels| ==>
               feed(Source(m.cp, m.side, m.levels[i].priceText)) && m.levels[i].price == read(m.levels[i].priceText)
    ensures var before := SpecAll(scales, s.conns[c].history);
            var p := PublishAll(scales, s.conns[c].table, s.books, s.lastKey, entries, times);
            && Counting(name, before.Keys, m, h) && p.count == h
            && forall id :: BookShows(scales, name, before, m.First(h), p, id)
  {
    var before := SpecAll(scales, s.conns[c].history);
    var p := PublishAll(scales, s.conns[c].table, s.books, s.lastKey, entries, times);
    EntriesAreParsed(name, m, entries);
    assert Parsed(read, name, feed, m.levels, m.side, m.cp, entries);
    FeedMeetsSpecification(scales, read, name, feed, connections, actions, s, c, entries, times);
    h := LevelsLeave(scales, name, before, m, entries);
    var k := LevelsCounted(scales, name, m, entries, s.conns[c].table, s.books, s.lastKey, times);
    FedIsReached(scales, read, name, feed, connections, actions, s);
    ReachedInv(scales, id => HomeOf(name, feed, id), connections, actions, s);
    ActiveIdsHeld(scales, id => HomeOf(name, feed, id), s, c);
    CountingIsUnique(name, before.Keys, m, h, k);
    var first := m.First(h);
    forall id ensures BookShows(scales, name, before, first, p, id) {
      LeftIsShown(scales, name, before, first, s.conns[c], entries, p, id);
    }
  }

  lemma LeftIsShown(scales: Scales, name: Naming, before: Ladder, m: Message, conn: Conn, entries: seq<Entry>,
                    p: Published, id: string)
    requires before == SpecAll(scales, conn.history) && Meets(scales, conn, entries, p)
    requires LeavesId(scales, name, before, m, SpecMessage(scales, before, entries), id)
    ensures BookShows(scales, name, before, m, p, id)
  {
    var spec := SpecMessage(scales, before, entries);
    assert id in spec <==> id in p.table.Keys;
  }

  /** The process-wide source of unique ascending keys. */
  class KeySource {
    var lastKey: int

    constructor ()
      ensures lastKey == 0
    {
      lastKey := 0;
    }

    /** Every key is greater than all keys before it, whatever the clock says. */
    method NewInt64Key(now: int) returns (key: int)
      modifies this
      ensures key == lastKey == NextKey(old(lastKey), now)
      ensures key > old(lastKey) && key >= now && (key == now || key == old(lastKey) + 1)
    {
      if now <= lastKey {
        lastKey := lastKey + 1;
      } else {
        lastKey := now;
      }
      return lastKey;
    }
  }

  class ConnectionBaseMD {
    const activeQuoteTable: ActiveQuoteTable
    const orderBook: OrderBook
    const keys: KeySource
    const scales: Scales
    const name: Naming
    var publishedQuotesCounter: nat

    constructor (orderBook: OrderBook, keys: KeySource, scales: Scales, name: Naming)
      ensures this.orderBook == orderBook && this.keys == keys && this.scales == scales && this.name == name
      ensures publishedQuotesCounter == 0 && fresh(activeQuoteTable) && activeQuoteTable.activeQuoteMap == map[]
    {
      this.orderBook, this.keys, this.scales, this.name := orderBook, keys, scales, name;
      publishedQuotesCounter := 0;
      activeQuoteTable := new ActiveQuoteTable();
    }

    /** One entry per level, in order: a delete for size zero, else a new quote, referring to its own generated id. */
    method ParseQuote(levels: seq<Level>, side: EntryType, instrument: Pair) returns (entries: seq<Entry>)
      ensures entries == ParseLevels(name, levels, side, instrument)
      ensures EntriesOf(name, Message(instrument, side, levels), entries)
    {
      entries := [];
      var i := 0;
      while i < |levels|
        invariant i == |entries| <= |levels|
        invariant forall j :: 0 <= j < i ==> entries[j] == ParseLevel(name, levels[j], side, instrument)
      {
        var id := EntryId(name, instrument, side, levels[i].priceText);
        var updateType := if levels[i].size == 0.0 then QtDelete else QtNew;
        entries := entries + [Entry(id, id, instrument, side, updateType, levels[i].price, levels[i].size)];
        i := i + 1;
      }
      EntriesAreParsed(name, Message(instrument, side, levels), entries);
    }

    /** The body of the publishing loop up to the call of the book. */
    method RegisterEntry(e: Entry, now: int) returns (outcome: Outcome)
      modifies activeQuoteTable, keys
      ensures var r := Register(scales, old(activeQuoteTable.activeQuoteMap), old(keys.lastKey), e, now);
              activeQuoteTable.activeQuoteMap == r.table && keys.lastKey == r.lastKey && outcome == r.outcome
      ensures Handles(scales, old(activeQuoteTable.activeQuoteMap), old(keys.lastKey), e, now,
                      Registered(activeQuoteTable.activeQuoteMap, keys.lastKey, outcome))
    {
      RegisterHandles(scales, activeQuoteTable.activeQuoteMap, keys.lastKey, e, now);
      var cp, entryType := e.cp, e.entryType;
      if entryType.NoType? || !cp.Valid() {
        var quoteInfo := activeQuoteTable.FindQuoteInfo(e.refId);
        if quoteInfo.None? {
          return Skip;
        }
        cp := if cp.Valid() then cp else quoteInfo.value.cp;
        entryType := if entryType.NoType? then quoteInfo.value.entryType else entryType;
      }
      var key := keys.NewInt64Key(now);
      var replacedQuoteRef;
      if e.updateType.QtDelete? {
        replacedQuoteRef := activeQuoteTable.RemoveQuoteInfo(e.refId);
      } else {
        replacedQuoteRef := activeQuoteTable.ReplaceQuoteInfo(e.refId, e.id, key, cp, entryType);
      }
      var updateType, refKey := e.updateType, 0;
      if replacedQuoteRef.Some? {
        if updateType.QtNew? {
          updateType := QtUpdate;
        }
        refKey := replacedQuoteRef.value.key;
      } else if updateType.QtDelete? {
        return Stop;
      } else if updateType.QtUpdate? {
        updateType := QtNew;
      }
      return Publish(cp, entryType.Bid?, MakeQuote(scales, cp, key, refKey, updateType, e));
    }

    /** One pass of the publishing loop. */
    method PublishEntry(e: Entry, now: int) returns (outcome: Outcome)
      requires orderBook.Valid()
      modifies this, activeQuoteTable, keys, orderBook
      ensures orderBook.Valid()
      ensures var r := Register(scales, old(activeQuoteTable.activeQuoteMap), old(keys.lastKey), e, now);
              activeQuoteTable.activeQuoteMap == r.table && keys.lastKey == r.lastKey && outcome == r.outcome
      ensures orderBook.books
           == if outcome.Publish? then UpdateBooks(old(orderBook.books), outcome.cp, outcome.bid, outcome.quote)
              else old(orderBook.books)
      ensures publishedQuotesCounter == old(publishedQuotesCounter) + if outcome.Publish? then 1 else 0
    {
      outcome := RegisterEntry(e, now);
      if outcome.Publish? {
        var moved, diagnosis := orderBook.AddQuote(outcome.cp, outcome.bid, outcome.quote);
        publishedQuotesCounter := publishedQuotesCounter + 1;
      }
    }

    /** Publishes a message.  `times` are the clock readings; `None` is the null message, which only logs an error. */
    method PublishQuotes(nmd: Option<seq<Entry>>, times: seq<int>)
      requires orderBook.Valid() && (nmd.Some? ==> |times| == |nmd.value|)
      modifies this, activeQuoteTable, keys, orderBook
      ensures orderBook.Valid()
      ensures var p := if nmd.Some? then
                         PublishAll(scales, old(activeQuoteTable.activeQuoteMap), old(orderBook.books),
                                    old(keys.lastKey), nmd.value, times)
                       else Published(old(activeQuoteTable.activeQuoteMap), old(orderBook.books), old(keys.lastKey), 0);
              && activeQuoteTable.activeQuoteMap == p.table
              && orderBook.books == p.books
              && keys.lastKey == p.lastKey
              && publishedQuotesCounter == old(publishedQuotesCounter) + p.count
    {
      if nmd.Some? {
        var entries := nmd.value;
        var i := 0;
        ghost var goal :=
          PublishAll(scales, activeQuoteTable.activeQuoteMap, orderBook.books, keys.lastKey, entries, times);
        while i < |entries|
          invariant i <= |entries| && orderBook.Valid() && publishedQuotesCounter >= old(publishedQuotesCounter)
          invariant goal == AddCount(publishedQuotesCounter - old(publishedQuotesCounter),
                                     PublishAll(scales, activeQuoteTable.activeQuoteMap, orderBook.books,
                                                keys.lastKey, entries[i..], times[i..]))
        {
          var outcome := PublishEntry(entries[i], times[i]);
          assert entries[i..][1..] == entries[i + 1..] && times[i..][1..] == times[i + 1..];
          if outcome.Stop? {
            return;
          }
          i := i + 1;
        }
      }
    }
  }
}
