/**
  What the market-data path guarantees, and on what it rests: that a quote id stands for one side of one pair.
 */
module PipelineResults {
  import opened Wrappers
  import opened Quotes
  import opened OrderBooks
  import opened ActiveQuoteTables
  import opened MarketData
  import opened Pipeline
  import opened PipelineProofs

  ghost predicate Reached(scales: Scales, home: Homes, connections: nat, actions: seq<Action>, s: State) {
    Runs(scales, Initial(connections), actions, s) && MessagesWellFormed(home, actions)
  }

  lemma ReachedInv(scales: Scales, home: Homes, connections: nat, actions: seq<Action>, s: State)
    requires Reached(scales, home, connections, actions, s)
    ensures Inv(scales, home, s)
  {
    InitialInv(scales, home, connections);
    RunInv(scales, home, Initial(connections), actions, s);
  }

  predicate Idle(conn: Conn) {
    conn.pending.None? && conn.todo == []
  }

  /** `vec` holds a quote under `key` once, and it shows `live`. */
  ghost predicate HoldsOnce(vec: seq<Quote>, key: int, live: Live) {
    && Holds(vec, key, live)
    && (forall i, j :: 0 <= i < |vec| && 0 <= j < |vec| && vec[i].key == key && vec[j].key == key ==> i == j)
  }

  /** The reference-key errors of the book are never reached, however the connections interleave. */
  lemma ReferencesAlwaysFound(scales: Scales, home: Homes, connections: nat, actions: seq<Action>, s: State)
    requires Reached(scales, home, connections, actions, s)
    ensures s.faults == 0
    ensures forall c :: 0 <= c < |s.conns| && s.conns[c].pending.Some? ==>
              var p := s.conns[c].pending.value; Diagnose(SideOf(s.books, p.cp, p.bid), p.quote) == Clean
  {
    ReachedInv(scales, home, connections, actions, s);
    forall c | 0 <= c < |s.conns| && s.conns[c].pending.Some?
      ensures var p := s.conns[c].pending.value; Diagnose(SideOf(s.books, p.cp, p.bid), p.quote) == Clean
    {
      PendingDeliverable(home, s, c);
      DeliverBooks(s, c, s.conns[c].pending.value);
    }
  }

  lemma ActiveIdsHeld(scales: Scales, home: Homes, s: State, c: nat)
    requires Inv(scales, home, s) && c < |s.conns| && Idle(s.conns[c])
    ensures var spec, conn := SpecAll(scales, s.conns[c].history), s.conns[c];
            && conn.table.Keys == spec.Keys
            && forall id :: id in spec ==>
                  HoldsOnce(SideOf(s.books, spec[id].cp, spec[id].bid), conn.table[id].key, spec[id])
  {
    var conn := s.conns[c];
    assert ConnOk(scales, home, conn, s.lastKey);
    assert conn.ladder == SpecAll(scales, conn.history);
    forall id | id in conn.ladder
      ensures HoldsOnce(SideOf(s.books, conn.ladder[id].cp, conn.ladder[id].bid), conn.table[id].key, conn.ladder[id])
    {
      var k := BookKey(conn, id);
      var live := conn.ladder[id];
      assert k == conn.table[id].key && k in s.posted && s.posted[k].live == live;
      assert PostedAt(s.posted, k, live.cp, live.bid);
      assert SideMatches(SideOf(s.books, live.cp, live.bid), live.cp, live.bid, s.posted);
    }
  }

  /** Every active id of an idle connection has exactly one quote: key from the table, last non-zero level. */
  lemma BookHoldsEveryActiveId(scales: Scales, home: Homes, connections: nat, actions: seq<Action>, s: State, c: nat)
    requires Reached(scales, home, connections, actions, s) && c < |s.conns| && Idle(s.conns[c])
    ensures var spec, conn := SpecAll(scales, s.conns[c].history), s.conns[c];
            && conn.table.Keys == spec.Keys
            && forall id :: id in spec ==>
                  HoldsOnce(SideOf(s.books, spec[id].cp, spec[id].bid), conn.table[id].key, spec[id])
  {
    ReachedInv(scales, home, connections, actions, s);
    ActiveIdsHeld(scales, home, s, c);
  }

  /** Nothing else is in the book: with all connections idle, every quote is the current one of some active id. */
  lemma BookHoldsNothingElse(scales: Scales, home: Homes, connections: nat, actions: seq<Action>, s: State,
                             cp: Pair, bid: bool, i: nat)
    requires Reached(scales, home, connections, actions, s)
    requires forall c :: 0 <= c < |s.conns| ==> Idle(s.conns[c])
    requires i < |SideOf(s.books, cp, bid)|
    ensures var q := SideOf(s.books, cp, bid)[i];
            exists c, id :: 0 <= c < |s.conns|
              && id in SpecAll(scales, s.conns[c].history) && id in s.conns[c].table
              && s.conns[c].table[id].key == q.key
              && SpecAll(scales, s.conns[c].history)[id] == Live(cp, bid, q.price, q.volume)
  {
    ReachedInv(scales, home, connections, actions, s);
    var vec := SideOf(s.books, cp, bid);
    var q := vec[i];
    assert SideMatches(vec, cp, bid, s.posted);
    assert PostedAt(s.posted, q.key, cp, bid);
    var c, id := s.posted[q.key].owner, s.posted[q.key].id;
    assert BookKey(s.conns[c], id) == q.key;
    assert ConnOk(scales, home, s.conns[c], s.lastKey);
    assert s.conns[c].ladder == SpecAll(scales, s.conns[c].history);
    assert Holds(vec, q.key, s.posted[q.key].live);
  }

  /** Keys identify: two active ids, of one connection or of two, never share a key. */
  lemma KeysAreUnique(scales: Scales, home: Homes, connections: nat, actions: seq<Action>, s: State,
                      c: nat, d: nat, id: string, other: string)
    requires Reached(scales, home, connections, actions, s)
    requires c < |s.conns| && d < |s.conns| && Idle(s.conns[c]) && Idle(s.conns[d])
    requires id in s.conns[c].table && other in s.conns[d].table
    requires s.conns[c].table[id].key == s.conns[d].table[other].key
    ensures c == d && id == other
  {
    ReachedInv(scales, home, connections, actions, s);
    assert ConnOk(scales, home, s.conns[c], s.lastKey) && ConnOk(scales, home, s.conns[d], s.lastKey);
    assert BookKey(s.conns[c], id) != 0 && BookKey(s.conns[d], other) != 0;
  }

  /** The sides stay sorted over every run, whatever the messages. */
  lemma {:induction false} BooksStaySorted(scales: Scales, s: State, actions: seq<Action>, t: State)
    requires AllSorted(s.books) && Runs(scales, s, actions, t)
    ensures AllSorted(t.books)
    decreases |actions|
  {
    if actions != [] {
      if actions[0].Deliver? {
        var p := s.conns[actions[0].c].pending.value;
        UpdateAllSorted(s.books, p.cp, p.bid, p.quote);
      }
      BooksStaySorted(scales, Apply(scales, s, actions[0]), actions[1..], t);
    }
  }

  // ---------------------------------------------------------------------------------------------------------
  // Ids
  // ---------------------------------------------------------------------------------------------------------

  /** Position of the first `c`; the length if there is none. */
  function FirstOf(s: string, c: char): (k: nat)
    ensures k <= |s|
    ensures k < |s| ==> s[k] == c
    ensures forall j :: 0 <= j < k ==> s[j] != c
  {
    if s == [] || s[0] == c then 0 else 1 + FirstOf(s[1..], c)
  }

  lemma FirstOfPrefix(head: string, c: char, tail: string)
    requires c !in head
    ensures FirstOf(head + [c] + tail, c) == |head|
  {
    assert (head + [c] + tail)[|head|] == c;
    assert forall j :: 0 <= j < |head| ==> (head + [c] + tail)[j] == head[j];
  }

  function PairOf(text: string): Pair {
    var k := FirstOf(text, '/');
    if k < |text| then Pair(text[..k], text[k + 1..]) else Pair(text, "")
  }

  /** Reads pair and side back from a generated id. */
  function Home(id: string): (Pair, bool) {
    var k := FirstOf(id, '_');
    (PairOf(id[..k]), k + 1 < |id| && id[k + 1] == 'B')
  }

  /** Neither separator of the id occurs where it could be mistaken. */
  predicate CleanPair(cp: Pair) {
    '_' !in cp.baseCcy && '_' !in cp.quoteCcy && '/' !in cp.baseCcy
  }

  /** Pair and side can be read back from an id, if the pair is clean and goes by its fresh name. */
  lemma HomeOfEntryId(name: Naming, cp: Pair, entryType: EntryType, priceText: string)
    requires CleanPair(cp) && name(cp) == FreshName(cp)
    ensures Home(EntryId(name, cp, entryType, priceText)).1 == entryType.Bid?
    ensures cp.Valid() ==> Home(EntryId(name, cp, entryType, priceText)).0 == cp
  {
    var side := if entryType.Bid? then "B" else "A";
    var text := cp.ToString();
    var id := EntryId(name, cp, entryType, priceText);
    assert id == text + ['_'] + (side + priceText);
    FirstOfPrefix(text, '_', side + priceText);
    assert id[..|text|] == text;
    if cp.Valid() {
      assert text == cp.baseCcy + ['/'] + cp.quoteCcy;
      FirstOfPrefix(cp.baseCcy, '/', cp.quoteCcy);
    }
  }

  /**
    Everything the parser makes of clean pairs under their fresh names is well formed, so the results above hold for
    every feed of it.
   */
  lemma ParsedEntriesWellFormed(name: Naming, levels: seq<Level>, entryType: EntryType, cp: Pair)
    requires CleanPair(cp) && name(cp) == FreshName(cp)
    ensures AllWellFormed(Home, ParseLevels(name, levels, entryType, cp))
  {
    forall i | 0 <= i < |levels| ensures WellFormed(Home, ParseLevels(name, levels, entryType, cp)[i]) {
      HomeOfEntryId(name, cp, entryType, levels[i].priceText);
    }
  }

  /** Without clean pairs two pairs can share an id ... */
  lemma IdsCanCollide()
    ensures var p, q := Pair("X", "Y"), Pair("X", "Y_B1");
            && p.Valid() && q.Valid() && p != q
            && EntryId(FreshName, p, Bid, "1_B5") == EntryId(FreshName, q, Bid, "5")
  {
    assert EntryId(FreshName, Pair("X", "Y"), Bid, "1_B5") == "X/Y_B1_B5";
    assert EntryId(FreshName, Pair("X", "Y_B1"), Bid, "5") == "X/Y_B1_B5";
  }

  /** ... and whenever two new entries share an id but not the side of the book, the book misses a reference. */
  lemma CollisionIsAFault(scales: Scales, e: Entry, f: Entry)
    requires Complete(e) && Complete(f) && e.updateType.QtNew? && f.updateType.QtNew?
    requires e.id == e.refId == f.id == f.refId != ""
    requires (e.cp, e.entryType.Bid?) != (f.cp, f.entryType.Bid?)
    ensures exists s ::
              Runs(scales, Initial(1), [Begin(0, [e, f]), Take(0, 0), Deliver(0), Take(0, 0), Deliver(0)], s)
              && s.faults > 0
  {
    var s0 := Initial(1);
    var s1 := Apply(scales, s0, Begin(0, [e, f]));
    assert s1.conns[0].todo == [e, f];
    var s2 := Apply(scales, s1, Take(0, 0));
    assert s2.conns[0].todo == [f] && s2.conns[0].table[e.id].key == 1;
    var s3 := Apply(scales, s2, Deliver(0));
    assert s3.books.Keys == {e.cp};
    var s4 := Apply(scales, s3, Take(0, 0));
    var s5 := Apply(scales, s4, Deliver(0));
    assert SideOf(s3.books, f.cp, f.entryType.Bid?) == [];
    assert s5.faults > 0;
    Run5(scales, s0, Begin(0, [e, f]), s1, Take(0, 0), s2, Deliver(0), s3, Take(0, 0), s4, Deliver(0), s5);
  }

  lemma Run5(scales: Scales, s0: State, a0: Action, s1: State, a1: Action, s2: State, a2: Action, s3: State,
             a3: Action, s4: State, a4: Action, s5: State)
    requires Enabled(s0, a0) && s1 == Apply(scales, s0, a0)
    requires Enabled(s1, a1) && s2 == Apply(scales, s1, a1)
    requires Enabled(s2, a2) && s3 == Apply(scales, s2, a2)
    requires Enabled(s3, a3) && s4 == Apply(scales, s3, a3)
    requires Enabled(s4, a4) && s5 == Apply(scales, s4, a4)
    ensures Runs(scales, s0, [a0, a1, a2, a3, a4], s5)
  {
    assert [a0, a1, a2, a3, a4][1..] == [a1, a2, a3, a4];
    assert [a1, a2, a3, a4][1..] == [a2, a3, a4];
    assert [a2, a3, a4][1..] == [a3, a4];
    assert [a3, a4][1..] == [a4];
    assert [a4][1..] == [];
    assert Runs(scales, s5, [], s5);
    assert Runs(scales, s4, [a4], s5);
    assert Runs(scales, s3, [a3, a4], s5);
    assert Runs(scales, s2, [a2, a3, a4], s5);
    assert Runs(scales, s1, [a1, a2, a3, a4], s5);
  }
}
