/**
  Several connections feeding one order book.  A connection handles its messages one at a time on its own thread;
  between the moment it has registered an entry in its table and the moment it has delivered the quote to the book,
  the other connections may take any number of steps.
 */
module Pipeline {
  import opened Wrappers
  import opened Quotes
  import opened OrderBooks
  import opened ActiveQuoteTables
  import opened MarketData

  datatype Pending = Pending(id: string, cp: Pair, bid: bool, quote: Quote)

  datatype Conn = Conn(
    table: Table,
    todo: seq<Entry>,            // the rest of the message in progress
    pending: Option<Pending>,    // registered, not yet in the book
    history: seq<seq<Entry>>,    // history: all messages begun
    ladder: Ladder               // history: what the specification says so far
  )

  /** Whose quote a key in the book is, and what it says. */
  datatype Posted = Posted(owner: nat, id: string, live: Live)

  datatype State = State(
    conns: seq<Conn>,
    books: Books,
    lastKey: int,
    faults: nat,                 // how often the book complained about a reference key
    posted: map<int, Posted>     // history: the quotes in the book, by key
  )

  datatype Action = Begin(c: nat, entries: seq<Entry>) | Take(c: nat, now: int) | Deliver(c: nat)

  const IDLE := Conn(map[], [], None, [], map[])

  function Initial(connections: nat): State {
    State(seq(connections, i => IDLE), map[], 0, 0, map[])
  }

  predicate Enabled(s: State, a: Action) {
    match a
    case Begin(c, _) => c < |s.conns| && s.conns[c].pending.None? && s.conns[c].todo == []
    case Take(c, _) => c < |s.conns| && s.conns[c].pending.None? && s.conns[c].todo != []
    case Deliver(c) => c < |s.conns| && s.conns[c].pending.Some?
  }

  function NextLadder(scales: Scales, ladder: Ladder, e: Entry): Ladder {
    match SpecEntry(scales, ladder, e)
    case Halt => ladder
    case Continue(next) => next
  }

  function TakeConn(scales: Scales, conn: Conn, lastKey: int, now: int): Conn
    requires conn.todo != []
  {
    var e := conn.todo[0];
    var r := Register(scales, conn.table, lastKey, e, now);
    Conn(r.table,
         if r.outcome.Stop? then [] else conn.todo[1..],
         if r.outcome.Publish? then Some(Pending(e.id, r.outcome.cp, r.outcome.bid, r.outcome.quote)) else None,
         conn.history,
         NextLadder(scales, conn.ladder, e))
  }

  function LiveOf(p: Pending): Live {
    Live(p.cp, p.bid, p.quote.price, p.quote.volume)
  }

  function Post(posted: map<int, Posted>, c: nat, p: Pending): map<int, Posted> {
    var rest := if p.quote.updateType.QtNew? then posted else posted - {p.quote.refKey};
    if p.quote.updateType.QtDelete? then rest else rest[p.quote.key := Posted(c, p.id, LiveOf(p))]
  }

  function Apply(scales: Scales, s: State, a: Action): State
    requires Enabled(s, a)
  {
    var conn := s.conns[a.c];
    match a
    case Begin(c, entries) => s.(conns := s.conns[c := conn.(todo := entries, history := conn.history + [entries])])
    case Take(c, now) =>
      s.(conns := s.conns[c := TakeConn(scales, conn, s.lastKey, now)],
         lastKey := Register(scales, conn.table, s.lastKey, conn.todo[0], now).lastKey)
    case Deliver(c) =>
      var p := conn.pending.value;
      s.(conns := s.conns[c := conn.(pending := None)],
         books := UpdateBooks(s.books, p.cp, p.bid, p.quote),
         faults := s.faults + if Diagnose(SideOf(s.books, p.cp, p.bid), p.quote) == Clean then 0 else 1,
         posted := Post(s.posted, c, p))
  }

  ghost predicate Runs(scales: Scales, s: State, actions: seq<Action>, t: State)
    decreases |actions|
  {
    if actions == [] then s == t
    else Enabled(s, actions[0]) && Runs(scales, Apply(scales, s, actions[0]), actions[1..], t)
  }

  // ---------------------------------------------------------------------------------------------------------
  // The entries the parser makes, and where their ids belong
  // ---------------------------------------------------------------------------------------------------------

  type Homes = string -> (Pair, bool)

  /** An entry that refers to itself and whose pair and side, as far as given, are those its id stands for. */
  predicate WellFormed(home: Homes, e: Entry) {
    && e.id != "" && e.refId == e.id
    && !e.updateType.QtSnapshot?
    && (e.cp.Valid() ==> e.cp == home(e.id).0)
    && (!e.entryType.NoType? ==> e.entryType.Bid? == home(e.id).1)
  }

  predicate AllWellFormed(home: Homes, entries: seq<Entry>) {
    forall i :: 0 <= i < |entries| ==> WellFormed(home, entries[i])
  }

  predicate MessagesWellFormed(home: Homes, actions: seq<Action>) {
    forall i :: 0 <= i < |actions| && actions[i].Begin? ==> AllWellFormed(home, actions[i].entries)
  }

  // ---------------------------------------------------------------------------------------------------------
  // The invariant
  // ---------------------------------------------------------------------------------------------------------

  /** Table and specification of one connection know the same ids, at their homes. */
  ghost predicate TableOk(home: Homes, table: Table, ladder: Ladder, lastKey: int) {
    && table.Keys == ladder.Keys
    && (forall id :: id in table ==>
          && id != ""
          && 0 < table[id].key <= lastKey
          && !table[id].entryType.NoType?
          && (table[id].cp, table[id].entryType.Bid?) == home(id)
          && (ladder[id].cp, ladder[id].bid) == home(id))
  }

  /** A connection by itself: the rest of its message will take its ladder to what the specification says of it all. */
  ghost predicate ConnOk(scales: Scales, home: Homes, conn: Conn, lastKey: int) {
    && TableOk(home, conn.table, conn.ladder, lastKey)
    && AllWellFormed(home, conn.todo)
    && SpecMessage(scales, conn.ladder, conn.todo) == SpecAll(scales, conn.history)
  }

  /** A pending quote says what its connection's table says, and refers to nothing exactly if it is new. */
  ghost predicate PendingOk(home: Homes, conn: Conn, lastKey: int) {
    conn.pending.Some? ==>
      var p := conn.pending.value;
      && 0 < p.quote.key <= lastKey
      && (p.cp, p.bid) == home(p.id)
      && !p.quote.updateType.QtSnapshot?
      && (p.quote.refKey > 0 <==> !p.quote.updateType.QtNew?)
      && (p.id in conn.table <==> !p.quote.updateType.QtDelete?)
      && (p.id in conn.table && p.id in conn.ladder ==>
            conn.table[p.id].key == p.quote.key && conn.ladder[p.id] == LiveOf(p))
  }

  /** The key under which the book holds the quote of an id at the moment; 0 if it holds none. */
  function BookKey(conn: Conn, id: string): int {
    if conn.pending.Some? && conn.pending.value.id == id then
      if conn.pending.value.quote.updateType.QtNew? then 0 else conn.pending.value.quote.refKey
    else if id in conn.table then conn.table[id].key
    else 0
  }

  /** The posted quotes are exactly those the connections' tables account for. */
  ghost predicate Linked(s: State) {
    && (forall k :: k in s.posted ==>
          && 0 < k <= s.lastKey
          && s.posted[k].owner < |s.conns|
          && BookKey(s.conns[s.posted[k].owner], s.posted[k].id) == k)
    && (forall c, id :: 0 <= c < |s.conns| && BookKey(s.conns[c], id) != 0 ==>
          && BookKey(s.conns[c], id) in s.posted
          && s.posted[BookKey(s.conns[c], id)].owner == c
          && s.posted[BookKey(s.conns[c], id)].id == id)
  }

  /** What is posted for an id is what the specification says, unless a newer quote is pending. */
  ghost predicate PostedCurrent(home: Homes, s: State) {
    forall k :: k in s.posted && s.posted[k].owner < |s.conns| ==>
      var conn := s.conns[s.posted[k].owner];
      var id := s.posted[k].id;
      && (s.posted[k].live.cp, s.posted[k].live.bid) == home(id)
      && (!(conn.pending.Some? && conn.pending.value.id == id) && id in conn.ladder ==>
            s.posted[k].live == conn.ladder[id])
  }

  /** Keys of pending quotes are not in the book and belong to one connection only. */
  ghost predicate PendingKeysNew(s: State) {
    && (forall c :: 0 <= c < |s.conns| && s.conns[c].pending.Some? ==> s.conns[c].pending.value.quote.key !in s.posted)
    && (forall c, d :: 0 <= c < d < |s.conns| && s.conns[c].pending.Some? && s.conns[d].pending.Some? ==>
          s.conns[c].pending.value.quote.key != s.conns[d].pending.value.quote.key)
  }

  predicate Shows(q: Quote, live: Live) {
    q.price == live.price && q.volume == live.volume
  }

  predicate Holds(vec: seq<Quote>, key: int, live: Live) {
    exists i :: 0 <= i < |vec| && vec[i].key == key && Shows(vec[i], live)
  }

  ghost predicate DistinctKeys(vec: seq<Quote>) {
    forall i, j :: 0 <= i < j < |vec| ==> vec[i].key != vec[j].key
  }

  predicate PostedAt(posted: map<int, Posted>, k: int, cp: Pair, bid: bool) {
    k in posted && (posted[k].live.cp, posted[k].live.bid) == (cp, bid)
  }

  ghost predicate AllPosted(vec: seq<Quote>, cp: Pair, bid: bool, posted: map<int, Posted>) {
    forall i :: 0 <= i < |vec| ==> PostedAt(posted, vec[i].key, cp, bid)
  }

  ghost predicate AllHeld(vec: seq<Quote>, cp: Pair, bid: bool, posted: map<int, Posted>) {
    forall k :: PostedAt(posted, k, cp, bid) ==> Holds(vec, k, posted[k].live)
  }

  /** One side of the book against the posted quotes of that side. */
  ghost predicate SideMatches(vec: seq<Quote>, cp: Pair, bid: bool, posted: map<int, Posted>) {
    DistinctKeys(vec) && AllPosted(vec, cp, bid, posted) && AllHeld(vec, cp, bid, posted)
  }

  ghost predicate BooksMatch(s: State) {
    forall cp, bid :: SideMatches(SideOf(s.books, cp, bid), cp, bid, s.posted)
  }

  ghost predicate ConnsOk(scales: Scales, home: Homes, s: State) {
    && 0 <= s.lastKey
    && (forall c :: 0 <= c < |s.conns| ==>
          ConnOk(scales, home, s.conns[c], s.lastKey) && PendingOk(home, s.conns[c], s.lastKey))
  }

  ghost predicate Inv(scales: Scales, home: Homes, s: State) {
    && ConnsOk(scales, home, s)
    && Linked(s)
    && PostedCurrent(home, s)
    && PendingKeysNew(s)
    && BooksMatch(s)
    && s.faults == 0
  }
}
