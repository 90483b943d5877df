/** The shared book equals the specification's ladders, over every run and interleaving of the connections. */
module PipelineProofs {
  import opened Wrappers
  import opened Quotes
  import opened OrderBooks
  import opened ActiveQuoteTables
  import opened MarketData
  import opened Pipeline

  // ---------------------------------------------------------------------------------------------------------
  // One side of the book
  // ---------------------------------------------------------------------------------------------------------

  lemma RemoveAtIndex(vec: seq<Quote>, k: nat)
    requires k < |vec|
    ensures |RemoveAt(vec, k)| == |vec| - 1
    ensures forall i :: 0 <= i < |vec| - 1 ==> RemoveAt(vec, k)[i] == vec[if i < k then i else i + 1]
  {
  }

  lemma InsertAtIndex(vec: seq<Quote>, k: nat, q: Quote)
    requires k <= |vec|
    ensures |InsertAt(vec, k, q)| == |vec| + 1
    ensures forall i :: 0 <= i <= |vec| ==>
              InsertAt(vec, k, q)[i] == if i < k then vec[i] else if i == k then q else vec[i - 1]
  {
  }

  lemma RemoveAtHolds(vec: seq<Quote>, k: nat, key: int, live: Live)
    requires k < |vec| && vec[k].key != key && Holds(vec, key, live)
    ensures Holds(RemoveAt(vec, k), key, live)
  {
    var i :| 0 <= i < |vec| && vec[i].key == key && Shows(vec[i], live);
    assert RemoveAt(vec, k)[if i < k then i else i - 1] == vec[i];
  }

  lemma InsertAtHolds(vec: seq<Quote>, k: nat, q: Quote, key: int, live: Live)
    requires k <= |vec| && Holds(vec, key, live)
    ensures Holds(InsertAt(vec, k, q), key, live)
  {
    var i :| 0 <= i < |vec| && vec[i].key == key && Shows(vec[i], live);
    assert InsertAt(vec, k, q)[if i < k then i else i + 1] == vec[i];
  }

  /** Dropping the quote with a posted key. */
  lemma WithdrawMatches(vec: seq<Quote>, cp: Pair, bid: bool, posted: map<int, Posted>, key: int)
    requires SideMatches(vec, cp, bid, posted) && PostedAt(posted, key, cp, bid)
    ensures FindKey(vec, key) < |vec|
    ensures SideMatches(RemoveAt(vec, FindKey(vec, key)), cp, bid, posted - {key})
  {
    assert Holds(vec, key, posted[key].live);
    var k := FindKey(vec, key);
    RemoveAtIndex(vec, k);
    forall other | PostedAt(posted - {key}, other, cp, bid)
      ensures Holds(RemoveAt(vec, k), other, posted[other].live)
    {
      assert PostedAt(posted, other, cp, bid);
      RemoveAtHolds(vec, k, other, posted[other].live);
    }
  }

  /** Adding a quote under a new key, anywhere. */
  lemma InsertMatches(vec: seq<Quote>, cp: Pair, bid: bool, posted: map<int, Posted>, k: nat, q: Quote, post: Posted)
    requires SideMatches(vec, cp, bid, posted)
    requires k <= |vec| && q.key !in posted && Shows(q, post.live) && (post.live.cp, post.live.bid) == (cp, bid)
    ensures SideMatches(InsertAt(vec, k, q), cp, bid, posted[q.key := post])
  {
    InsertDistinct(vec, cp, bid, posted, k, q);
    InsertAllPosted(vec, cp, bid, posted, k, q, post);
    var posted' := posted[q.key := post];
    forall other | PostedAt(posted', other, cp, bid)
      ensures Holds(InsertAt(vec, k, q), other, posted'[other].live)
    {
      if other == q.key {
        assert InsertAt(vec, k, q)[k] == q;
      } else {
        assert PostedAt(posted, other, cp, bid);
        InsertAtHolds(vec, k, q, other, posted[other].live);
      }
    }
  }

  lemma InsertDistinct(vec: seq<Quote>, cp: Pair, bid: bool, posted: map<int, Posted>, k: nat, q: Quote)
    requires DistinctKeys(vec) && AllPosted(vec, cp, bid, posted) && k <= |vec| && q.key !in posted
    ensures DistinctKeys(InsertAt(vec, k, q))
  {
    InsertAtIndex(vec, k, q);
  }

  lemma InsertAllPosted(vec: seq<Quote>, cp: Pair, bid: bool, posted: map<int, Posted>, k: nat, q: Quote, post: Posted)
    requires AllPosted(vec, cp, bid, posted) && k <= |vec| && q.key !in posted
    requires (post.live.cp, post.live.bid) == (cp, bid)
    ensures AllPosted(InsertAt(vec, k, q), cp, bid, posted[q.key := post])
  {
    InsertAtIndex(vec, k, q);
    assert forall i :: 0 <= i < |vec| ==> PostedAt(posted, vec[i].key, cp, bid);
  }

  /** What delivering relies on: the quote's own key is new, and what it refers to is posted on the same side. */
  ghost predicate Deliverable(posted: map<int, Posted>, p: Pending) {
    && !p.quote.updateType.QtSnapshot?
    && p.quote.key !in posted
    && (p.quote.updateType.QtNew? || (p.quote.refKey > 0 && PostedAt(posted, p.quote.refKey, p.cp, p.bid)))
  }

  lemma DeliverSide(vec: seq<Quote>, posted: map<int, Posted>, c: nat, p: Pending)
    requires SideMatches(vec, p.cp, p.bid, posted) && Deliverable(posted, p)
    ensures Diagnose(vec, p.quote) == Clean
    ensures SideMatches(UpdateSide(vec, p.bid, p.quote), p.cp, p.bid, Post(posted, c, p))
  {
    var q := p.quote;
    var rest, left := Withdraw(vec, q), posted;
    if !q.updateType.QtNew? {
      WithdrawMatches(vec, p.cp, p.bid, posted, q.refKey);
      left := posted - {q.refKey};
    }
    if !q.updateType.QtDelete? {
      InsertMatches(rest, p.cp, p.bid, left, InsertPosition(rest, p.bid, q), q, Posted(c, p.id, LiveOf(p)));
    }
  }

  lemma DeliverOtherSide(vec: seq<Quote>, cp: Pair, bid: bool, posted: map<int, Posted>, c: nat, p: Pending)
    requires SideMatches(vec, cp, bid, posted) && Deliverable(posted, p) && (cp, bid) != (p.cp, p.bid)
    ensures SideMatches(vec, cp, bid, Post(posted, c, p))
  {
    assert forall k :: PostedAt(Post(posted, c, p), k, cp, bid) <==> PostedAt(posted, k, cp, bid);
  }

  lemma DeliverBooks(s: State, c: nat, p: Pending)
    requires BooksMatch(s) && Deliverable(s.posted, p)
    ensures Diagnose(SideOf(s.books, p.cp, p.bid), p.quote) == Clean
    ensures BooksMatch(s.(books := UpdateBooks(s.books, p.cp, p.bid, p.quote), posted := Post(s.posted, c, p)))
  {
    var books, posted := UpdateBooks(s.books, p.cp, p.bid, p.quote), Post(s.posted, c, p);
    DeliverSide(SideOf(s.books, p.cp, p.bid), s.posted, c, p);
    forall cp, bid ensures SideMatches(SideOf(books, cp, bid), cp, bid, posted) {
      UpdateElsewhere(s.books, p.cp, p.bid, p.quote, cp, bid);
      if (cp, bid) != (p.cp, p.bid) {
        DeliverOtherSide(SideOf(s.books, cp, bid), cp, bid, s.posted, c, p);
      }
    }
  }

  // ---------------------------------------------------------------------------------------------------------
  // One connection taking an entry
  // ---------------------------------------------------------------------------------------------------------

  /** Taking an entry keeps a connection in order and leaves alone what the book is known to hold of it. */
  lemma TakeConnOk(scales: Scales, home: Homes, conn: Conn, lastKey: int, now: int)
    requires ConnOk(scales, home, conn, lastKey) && conn.pending.None? && conn.todo != [] && lastKey >= 0
    ensures var r := Register(scales, conn.table, lastKey, conn.todo[0], now);
            var conn' := TakeConn(scales, conn, lastKey, now);
            && lastKey <= r.lastKey
            && ConnOk(scales, home, conn', r.lastKey) && PendingOk(home, conn', r.lastKey)
            && (forall id :: BookKey(conn', id) == BookKey(conn, id))
            && (conn'.pending.Some? ==> lastKey < conn'.pending.value.quote.key <= r.lastKey)
            && (forall id :: id in conn'.ladder && !(conn'.pending.Some? && conn'.pending.value.id == id) ==>
                  id in conn.ladder && conn'.ladder[id] == conn.ladder[id])
  {
    assert WellFormed(home, conn.todo[0]);
    TakeTable(scales, home, conn, lastKey, now);
    TakePending(scales, home, conn, lastKey, now);
    TakeBookKey(scales, home, conn, lastKey, now);
  }

  lemma TakeTable(scales: Scales, home: Homes, conn: Conn, lastKey: int, now: int)
    requires TableOk(home, conn.table, conn.ladder, lastKey) && conn.todo != [] && WellFormed(home, conn.todo[0])
    requires lastKey >= 0
    ensures var r := Register(scales, conn.table, lastKey, conn.todo[0], now);
            lastKey <= r.lastKey && TableOk(home, r.table, NextLadder(scales, conn.ladder, conn.todo[0]), r.lastKey)
  {
    var e := conn.todo[0];
    var r := Register(scales, conn.table, lastKey, e, now);
    var ladder' := NextLadder(scales, conn.ladder, e);
    if !r.outcome.Publish? {
      assert r.table == conn.table && ladder' == conn.ladder;
    } else if e.updateType.QtDelete? {
      assert r.table == conn.table - {e.id} && ladder' == conn.ladder - {e.id};
    } else {
      var where := Resolve(conn.table, e);
      var info := FreshInfo(r.lastKey, where.cp, where.entryType);
      assert r.table == conn.table[e.id := info];
      assert (info.cp, info.entryType.Bid?) == home(e.id) && !info.entryType.NoType?;
      TableInsert(home, conn.table, conn.ladder, lastKey, e.id, info, ladder'[e.id]);
    }
  }

  lemma TableInsert(home: Homes, table: Table, ladder: Ladder, lastKey: int, id: string, info: QuoteInfo, live: Live)
    requires TableOk(home, table, ladder, lastKey) && lastKey >= 0
    requires id != "" && lastKey < info.key && !info.entryType.NoType?
    requires (info.cp, info.entryType.Bid?) == home(id) && (live.cp, live.bid) == home(id)
    ensures TableOk(home, table[id := info], ladder[id := live], info.key)
  {
  }

  lemma TakePending(scales: Scales, home: Homes, conn: Conn, lastKey: int, now: int)
    requires TableOk(home, conn.table, conn.ladder, lastKey) && conn.todo != [] && WellFormed(home, conn.todo[0])
    requires lastKey >= 0
    ensures PendingOk(home, TakeConn(scales, conn, lastKey, now),
                      Register(scales, conn.table, lastKey, conn.todo[0], now).lastKey)
  {
  }

  lemma TakeBookKey(scales: Scales, home: Homes, conn: Conn, lastKey: int, now: int)
    requires ConnOk(scales, home, conn, lastKey) && conn.pending.None? && conn.todo != [] && lastKey >= 0
    ensures var r := Register(scales, conn.table, lastKey, conn.todo[0], now);
            var conn' := TakeConn(scales, conn, lastKey, now);
            && (forall id :: BookKey(conn', id) == BookKey(conn, id))
            && (conn'.pending.Some? ==> lastKey < conn'.pending.value.quote.key <= r.lastKey)
            && (forall id :: id in conn'.ladder && !(conn'.pending.Some? && conn'.pending.value.id == id) ==>
                  id in conn.ladder && conn'.ladder[id] == conn.ladder[id])
  {
    assert WellFormed(home, conn.todo[0]);
  }

  // ---------------------------------------------------------------------------------------------------------
  // The steps
  // ---------------------------------------------------------------------------------------------------------

  lemma LaterKeysOk(scales: Scales, home: Homes, conn: Conn, lastKey: int, later: int)
    requires ConnOk(scales, home, conn, lastKey) && PendingOk(home, conn, lastKey) && lastKey <= later
    ensures ConnOk(scales, home, conn, later) && PendingOk(home, conn, later)
  {
  }

  /** `r` is `s` with connection `c` replaced by one of which the book is known to hold the same. */
  ghost predicate OneConnMoved(s: State, c: nat, r: State) {
    && c < |s.conns|
    && r.posted == s.posted && r.books == s.books && r.faults == s.faults && s.lastKey <= r.lastKey
    && |r.conns| == |s.conns| && r.conns == s.conns[c := r.conns[c]]
    && (forall id :: BookKey(r.conns[c], id) == BookKey(s.conns[c], id))
  }

  lemma MovedLinked(s: State, c: nat, r: State)
    requires Linked(s) && OneConnMoved(s, c, r)
    ensures Linked(r)
  {
    forall d, id | 0 <= d < |s.conns| ensures BookKey(r.conns[d], id) == BookKey(s.conns[d], id) {
    }
  }

  lemma BeginInv(scales: Scales, home: Homes, s: State, a: Action)
    requires a.Begin? && Enabled(s, a) && Inv(scales, home, s) && AllWellFormed(home, a.entries)
    ensures Inv(scales, home, Apply(scales, s, a))
  {
    var r := Apply(scales, s, a);
    var conn := s.conns[a.c];
    assert (conn.history + [a.entries])[..|conn.history|] == conn.history;
    assert ConnOk(scales, home, r.conns[a.c], s.lastKey);
    MovedLinked(s, a.c, r);
  }

  lemma TakeInv(scales: Scales, home: Homes, s: State, a: Action)
    requires a.Take? && Enabled(s, a) && Inv(scales, home, s)
    ensures Inv(scales, home, Apply(scales, s, a))
  {
    var r := Apply(scales, s, a);
    TakeConnOk(scales, home, s.conns[a.c], s.lastKey, a.now);
    forall d | 0 <= d < |s.conns| && d != a.c
      ensures ConnOk(scales, home, r.conns[d], r.lastKey) && PendingOk(home, r.conns[d], r.lastKey)
    {
      LaterKeysOk(scales, home, s.conns[d], s.lastKey, r.lastKey);
    }
    MovedLinked(s, a.c, r);
    TakeCurrent(home, s, r, a.c);
    TakeKeysNew(scales, home, s, r, a.c);
  }

  lemma TakeCurrent(home: Homes, s: State, r: State, c: nat)
    requires PostedCurrent(home, s) && OneConnMoved(s, c, r) && s.conns[c].pending.None?
    requires forall id ::
               id in r.conns[c].ladder && !(r.conns[c].pending.Some? && r.conns[c].pending.value.id == id) ==>
                 id in s.conns[c].ladder && r.conns[c].ladder[id] == s.conns[c].ladder[id]
    ensures PostedCurrent(home, r)
  {
  }

  lemma TakeKeysNew(scales: Scales, home: Homes, s: State, r: State, c: nat)
    requires ConnsOk(scales, home, s) && Linked(s) && PendingKeysNew(s) && OneConnMoved(s, c, r)
    requires r.conns[c].pending.Some? ==> s.lastKey < r.conns[c].pending.value.quote.key
    ensures PendingKeysNew(r)
  {
    forall d | 0 <= d < |r.conns| && d != c && r.conns[d].pending.Some?
      ensures r.conns[d].pending.value.quote.key <= s.lastKey
    {
      assert PendingOk(home, s.conns[d], s.lastKey);
    }
  }

  /** A pending quote can always be delivered: what it refers to is in the book, on its side. */
  lemma PendingDeliverable(home: Homes, s: State, c: nat)
    requires c < |s.conns| && s.conns[c].pending.Some?
    requires PendingOk(home, s.conns[c], s.lastKey) && Linked(s) && PostedCurrent(home, s) && PendingKeysNew(s)
    ensures Deliverable(s.posted, s.conns[c].pending.value)
  {
    var p := s.conns[c].pending.value;
    assert !p.quote.updateType.QtNew? ==> BookKey(s.conns[c], p.id) == p.quote.refKey;
  }

  lemma DeliverLinked(home: Homes, s: State, c: nat, r: State)
    requires c < |s.conns| && s.conns[c].pending.Some? && PendingOk(home, s.conns[c], s.lastKey)
    requires Linked(s) && PendingKeysNew(s)
    requires r.conns == s.conns[c := s.conns[c].(pending := None)] && r.lastKey == s.lastKey
    requires r.posted == Post(s.posted, c, s.conns[c].pending.value)
    requires s.conns[c].table.Keys == s.conns[c].ladder.Keys
    ensures Linked(r)
  {
    var p := s.conns[c].pending.value;
    assert BookKey(s.conns[c], p.id) == if p.quote.updateType.QtNew? then 0 else p.quote.refKey;
    forall id ensures BookKey(r.conns[c], id) == if id != p.id then BookKey(s.conns[c], id)
                                                  else if p.quote.updateType.QtDelete? then 0 else p.quote.key {
    }
    forall d, id | 0 <= d < |s.conns| && d != c ensures BookKey(r.conns[d], id) == BookKey(s.conns[d], id) {
    }
    DeliverLinkedForward(s, c, r);
    DeliverLinkedBack(s, c, r);
  }

  ghost predicate DeliveredKeys(s: State, c: nat, r: State) {
    && c < |s.conns| && s.conns[c].pending.Some? && |r.conns| == |s.conns| && r.lastKey == s.lastKey
    && var p := s.conns[c].pending.value;
    && 0 < p.quote.key <= s.lastKey && p.quote.key !in s.posted
    && !p.quote.updateType.QtSnapshot?
    && BookKey(s.conns[c], p.id) == (if p.quote.updateType.QtNew? then 0 else p.quote.refKey)
    && r.posted == Post(s.posted, c, p)
    && (forall id :: BookKey(r.conns[c], id) == if id != p.id then BookKey(s.conns[c], id)
                                                else if p.quote.updateType.QtDelete? then 0 else p.quote.key)
    && (forall d, id :: 0 <= d < |s.conns| && d != c ==> BookKey(r.conns[d], id) == BookKey(s.conns[d], id))
  }

  lemma DeliverLinkedForward(s: State, c: nat, r: State)
    requires Linked(s) && DeliveredKeys(s, c, r)
    ensures forall k :: k in r.posted ==>
              && 0 < k <= r.lastKey && r.posted[k].owner < |r.conns|
              && BookKey(r.conns[r.posted[k].owner], r.posted[k].id) == k
  {
    var p := s.conns[c].pending.value;
    forall k | k in r.posted
      ensures 0 < k <= r.lastKey && r.posted[k].owner < |r.conns|
      ensures BookKey(r.conns[r.posted[k].owner], r.posted[k].id) == k
    {
      if k != p.quote.key {
        assert k in s.posted && r.posted[k] == s.posted[k];
      }
    }
  }

  lemma DeliverLinkedBack(s: State, c: nat, r: State)
    requires Linked(s) && DeliveredKeys(s, c, r)
    ensures forall d, id :: 0 <= d < |r.conns| && BookKey(r.conns[d], id) != 0 ==>
              && BookKey(r.conns[d], id) in r.posted
              && r.posted[BookKey(r.conns[d], id)].owner == d
              && r.posted[BookKey(r.conns[d], id)].id == id
  {
    var p := s.conns[c].pending.value;
    forall d, id | 0 <= d < |r.conns| && BookKey(r.conns[d], id) != 0
      ensures BookKey(r.conns[d], id) in r.posted
      ensures r.posted[BookKey(r.conns[d], id)].owner == d && r.posted[BookKey(r.conns[d], id)].id == id
    {
      if d != c || id != p.id {
        var k := BookKey(s.conns[d], id);
        assert k == BookKey(r.conns[d], id) && k in s.posted;
      }
    }
  }

  lemma DeliverCurrent(home: Homes, s: State, c: nat, r: State)
    requires c < |s.conns| && s.conns[c].pending.Some? && PendingOk(home, s.conns[c], s.lastKey)
    requires PostedCurrent(home, s) && Linked(s) && s.conns[c].table.Keys == s.conns[c].ladder.Keys
    requires r.conns == s.conns[c := s.conns[c].(pending := None)]
    requires r.posted == Post(s.posted, c, s.conns[c].pending.value)
    ensures PostedCurrent(home, r)
  {
    var p := s.conns[c].pending.value;
    assert BookKey(s.conns[c], p.id) == if p.quote.updateType.QtNew? then 0 else p.quote.refKey;
    forall k | k in r.posted && r.posted[k].owner < |r.conns|
      ensures var conn := r.conns[r.posted[k].owner];
              var id := r.posted[k].id;
              && (r.posted[k].live.cp, r.posted[k].live.bid) == home(id)
              && (!(conn.pending.Some? && conn.pending.value.id == id) && id in conn.ladder ==>
                    r.posted[k].live == conn.ladder[id])
    {
      if k == p.quote.key && !p.quote.updateType.QtDelete? {
        assert r.posted[k] == Posted(c, p.id, LiveOf(p));
      } else {
        assert k in s.posted && r.posted[k] == s.posted[k];
      }
    }
  }

  lemma DeliverInv(scales: Scales, home: Homes, s: State, a: Action)
    requires a.Deliver? && Enabled(s, a) && Inv(scales, home, s)
    ensures Inv(scales, home, Apply(scales, s, a))
  {
    var r := Apply(scales, s, a);
    var p := s.conns[a.c].pending.value;
    assert ConnOk(scales, home, s.conns[a.c], s.lastKey) && PendingOk(home, s.conns[a.c], s.lastKey);
    PendingDeliverable(home, s, a.c);
    DeliverBooks(s, a.c, p);
    DeliverLinked(home, s, a.c, r);
    DeliverCurrent(home, s, a.c, r);
    DeliverRest(scales, home, s, a.c, r);
  }

  lemma DeliverRest(scales: Scales, home: Homes, s: State, c: nat, r: State)
    requires c < |s.conns| && s.conns[c].pending.Some?
    requires ConnsOk(scales, home, s) && PendingKeysNew(s)
    requires r.conns == s.conns[c := s.conns[c].(pending := None)] && r.lastKey == s.lastKey
    requires r.posted == Post(s.posted, c, s.conns[c].pending.value)
    ensures ConnsOk(scales, home, r) && PendingKeysNew(r)
  {
    forall d | 0 <= d < |r.conns|
      ensures ConnOk(scales, home, r.conns[d], r.lastKey) && PendingOk(home, r.conns[d], r.lastKey)
    {
      assert ConnOk(scales, home, s.conns[d], s.lastKey) && PendingOk(home, s.conns[d], s.lastKey);
    }
  }

  lemma StepInv(scales: Scales, home: Homes, s: State, a: Action)
    requires Enabled(s, a) && Inv(scales, home, s)
    requires a.Begin? ==> AllWellFormed(home, a.entries)
    ensures Inv(scales, home, Apply(scales, s, a))
  {
    match a
    case Begin(_, _) => BeginInv(scales, home, s, a);
    case Take(_, _) => TakeInv(scales, home, s, a);
    case Deliver(_) => DeliverInv(scales, home, s, a);
  }

  lemma {:induction false} RunInv(scales: Scales, home: Homes, s: State, actions: seq<Action>, t: State)
    requires Inv(scales, home, s) && Runs(scales, s, actions, t) && MessagesWellFormed(home, actions)
    ensures Inv(scales, home, t)
    decreases |actions|
  {
    if actions != [] {
      StepInv(scales, home, s, actions[0]);
      RunInv(scales, home, Apply(scales, s, actions[0]), actions[1..], t);
    }
  }

  lemma InitialInv(scales: Scales, home: Homes, connections: nat)
    ensures Inv(scales, home, Initial(connections))
  {
    var s := Initial(connections);
    assert forall c :: 0 <= c < |s.conns| ==> s.conns[c] == IDLE;
    assert ConnOk(scales, home, IDLE, 0);
    forall cp, bid ensures SideMatches(SideOf(s.books, cp, bid), cp, bid, s.posted) {
      assert SideOf(s.books, cp, bid) == [];
    }
  }
}
