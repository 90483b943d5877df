/** The order book: one sorted vector of quotes per pair and side (`OrderBook`). */
module OrderBooks {
  import opened Wrappers
  import opened Quotes

  type Books = map<Pair, Sides>

  function SideOf(books: Books, cp: Pair, bid: bool): seq<Quote> {
    if cp in books then books[cp].Get(bid) else []
  }

  // ---------------------------------------------------------------------------------------------------------
  // Order within a side
  // ---------------------------------------------------------------------------------------------------------

  predicate BetterPrice(bid: bool, p: int, q: int) {
    if bid then p > q else p < q
  }

  /** A new quote goes in front of `q`: better price, or the same price and no smaller volume. */
  predicate InFrontOf(bid: bool, next: Quote, q: Quote) {
    if next.price != q.price then BetterPrice(bid, next.price, q.price) else next.volume >= q.volume
  }

  ghost predicate Sorted(bid: bool, vec: seq<Quote>) {
    forall i, j :: 0 <= i < j < |vec| ==> InFrontOf(bid, vec[i], vec[j])
  }

  /** In a sorted side bids fall and asks rise, and at one price the volumes do not grow. */
  lemma SortedMeans(bid: bool, vec: seq<Quote>)
    ensures Sorted(bid, vec) <==>
              forall i, j :: 0 <= i < j < |vec| ==>
                && (if bid then vec[i].price >= vec[j].price else vec[i].price <= vec[j].price)
                && (vec[i].price == vec[j].price ==> vec[i].volume >= vec[j].volume)
  {
    if forall i, j :: 0 <= i < j < |vec| ==>
         && (if bid then vec[i].price >= vec[j].price else vec[i].price <= vec[j].price)
         && (vec[i].price == vec[j].price ==> vec[i].volume >= vec[j].volume) {
      forall i, j | 0 <= i < j < |vec| ensures InFrontOf(bid, vec[i], vec[j]) {
      }
    }
    if Sorted(bid, vec) {
      forall i, j | 0 <= i < j < |vec|
        ensures if bid then vec[i].price >= vec[j].price else vec[i].price <= vec[j].price
        ensures vec[i].price == vec[j].price ==> vec[i].volume >= vec[j].volume
      {
        assert InFrontOf(bid, vec[i], vec[j]);
      }
    }
  }

  // ---------------------------------------------------------------------------------------------------------
  // One update of one side
  // ---------------------------------------------------------------------------------------------------------

  datatype Diagnosis = Clean | RefKeyNotFound | MissingRefKey

  /** Position of the first quote with this key; the length if there is none. */
  function FindKey(vec: seq<Quote>, key: int): (k: nat)
    ensures k <= |vec|
    ensures k < |vec| ==> vec[k].key == key
    ensures forall j :: 0 <= j < k ==> vec[j].key != key
  {
    if vec == [] || vec[0].key == key then 0 else 1 + FindKey(vec[1..], key)
  }

  /** Position at which a new quote is inserted. */
  function InsertPosition(vec: seq<Quote>, bid: bool, next: Quote): (k: nat)
    ensures k <= |vec|
    ensures k < |vec| ==> InFrontOf(bid, next, vec[k])
    ensures forall j :: 0 <= j < k ==> !InFrontOf(bid, next, vec[j])
  {
    if vec == [] || InFrontOf(bid, next, vec[0]) then 0 else 1 + InsertPosition(vec[1..], bid, next)
  }

  function RemoveAt(vec: seq<Quote>, k: nat): seq<Quote>
    requires k < |vec|
  {
    vec[..k] + vec[k + 1..]
  }

  function InsertAt(vec: seq<Quote>, k: nat, q: Quote): seq<Quote>
    requires k <= |vec|
  {
    vec[..k] + [q] + vec[k..]
  }

  predicate Replaces(q: Quote) {
    q.updateType.QtDelete? || q.updateType.QtUpdate?
  }

  function Diagnose(vec: seq<Quote>, q: Quote): Diagnosis {
    if !Replaces(q) then Clean
    else if vec == [] || q.refKey <= 0 then MissingRefKey
    else if FindKey(vec, q.refKey) == |vec| then RefKeyNotFound
    else Clean
  }

  function Withdraw(vec: seq<Quote>, q: Quote): seq<Quote> {
    if Replaces(q) && q.refKey > 0 && FindKey(vec, q.refKey) < |vec| then RemoveAt(vec, FindKey(vec, q.refKey)) else vec
  }

  function UpdateSide(vec: seq<Quote>, bid: bool, q: Quote): seq<Quote> {
    var rest := Withdraw(vec, q);
    if q.updateType.QtDelete? then rest else InsertAt(rest, InsertPosition(rest, bid, q), q)
  }

  function UpdateBooks(books: Books, cp: Pair, bid: bool, q: Quote): Books {
    var sides := if cp in books then books[cp] else Sides([], []);
    books[cp := sides.Set(bid, UpdateSide(sides.Get(bid), bid, q))]
  }

  ghost predicate AllSorted(books: Books) {
    forall cp, bid :: cp in books ==> Sorted(bid, SideOf(books, cp, bid))
  }

  lemma InsertKeepsSorted(vec: seq<Quote>, bid: bool, q: Quote)
    requires Sorted(bid, vec)
    ensures Sorted(bid, InsertAt(vec, InsertPosition(vec, bid, q), q))
  {
    var k := InsertPosition(vec, bid, q);
    var out := InsertAt(vec, k, q);
    forall i, j | 0 <= i < j < |out| ensures InFrontOf(bid, out[i], out[j]) {
      if j < k {
        assert out[i] == vec[i] && out[j] == vec[j];
      } else if j == k {
        assert !InFrontOf(bid, q, vec[i]);
      } else if i < k {
        assert out[i] == vec[i] && out[j] == vec[j - 1];
      } else if i == k {
        assert InFrontOf(bid, q, vec[k]) && out[j] == vec[j - 1];
      } else {
        assert out[i] == vec[i - 1] && out[j] == vec[j - 1];
      }
    }
  }

  /** Every update keeps a side sorted by better price, then by larger volume. */
  lemma UpdateKeepsSorted(vec: seq<Quote>, bid: bool, q: Quote)
    requires Sorted(bid, vec)
    ensures Sorted(bid, UpdateSide(vec, bid, q))
  {
    var rest := Withdraw(vec, q);
    if rest != vec {
      var k := FindKey(vec, q.refKey);
      assert forall i :: 0 <= i < |rest| ==> rest[i] == vec[if i < k then i else i + 1];
    }
    assert Sorted(bid, rest);
    InsertKeepsSorted(rest, bid, q);
  }

  lemma InsertAtContents(vec: seq<Quote>, k: nat, q: Quote)
    requires k <= |vec|
    ensures multiset(InsertAt(vec, k, q)) == multiset(vec) + multiset{q}
  {
    assert vec == vec[..k] + vec[k..];
  }

  lemma RemoveAtContents(vec: seq<Quote>, k: nat)
    requires k < |vec|
    ensures multiset(vec) == multiset(RemoveAt(vec, k)) + multiset{vec[k]}
  {
    assert vec == vec[..k] + [vec[k]] + vec[k + 1..];
  }

  /** An update or a delete refers to the first quote with its reference key. */
  predicate Refers(vec: seq<Quote>, q: Quote, k: nat) {
    && k < |vec| && (q.updateType.QtDelete? || q.updateType.QtUpdate?) && q.refKey > 0
    && vec[k].key == q.refKey && forall j :: 0 <= j < k ==> vec[j].key != q.refKey
  }

  /** The quotes without the one referred to, if there is one, in the same order. */
  ghost predicate Without(vec: seq<Quote>, q: Quote, rest: seq<Quote>) {
    if exists k: nat :: Refers(vec, q, k) then exists k: nat :: Refers(vec, q, k) && rest == vec[..k] + vec[k + 1..]
    else rest == vec
  }

  /** `a` is worse than `b` on the side, or as good and of less volume. */
  predicate Behind(bid: bool, a: Quote, b: Quote) {
    if a.price == b.price then a.volume < b.volume else if bid then a.price < b.price else a.price > b.price
  }

  /** The new quote comes directly before the first one that is not in front of it. */
  ghost predicate PutAt(rest: seq<Quote>, bid: bool, q: Quote, out: seq<Quote>, k: nat) {
    && k <= |rest| && out == rest[..k] + [q] + rest[k..]
    && (forall j :: 0 <= j < k ==> Behind(bid, q, rest[j]))
    && (k < |rest| ==> !Behind(bid, q, rest[k]))
  }

  ghost predicate Put(rest: seq<Quote>, bid: bool, q: Quote, out: seq<Quote>) {
    if q.updateType.QtDelete? then out == rest else exists k: nat :: PutAt(rest, bid, q, out, k)
  }

  ghost predicate Updated(vec: seq<Quote>, bid: bool, q: Quote, out: seq<Quote>) {
    exists rest :: Without(vec, q, rest) && Put(rest, bid, q, out)
  }

  lemma WithdrawMeans(vec: seq<Quote>, q: Quote)
    ensures Without(vec, q, Withdraw(vec, q))
  {
    var k := FindKey(vec, q.refKey);
    if Replaces(q) && q.refKey > 0 && k < |vec| {
      assert Refers(vec, q, k);
    }
  }

  /** An update takes out what the quote refers to, and puts the quote in at its place unless it is a delete. */
  lemma UpdateMeans(vec: seq<Quote>, bid: bool, q: Quote)
    ensures Updated(vec, bid, q, UpdateSide(vec, bid, q))
  {
    var rest := Withdraw(vec, q);
    WithdrawMeans(vec, q);
    if !q.updateType.QtDelete? {
      assert PutAt(rest, bid, q, UpdateSide(vec, bid, q), InsertPosition(rest, bid, q));
    }
  }

  /** The error messages: a reference that is missing, or that is not found. */
  lemma DiagnoseMeans(vec: seq<Quote>, q: Quote)
    ensures var refers := q.updateType.QtDelete? || q.updateType.QtUpdate?;
            && (Diagnose(vec, q) == MissingRefKey <==> refers && (vec == [] || q.refKey <= 0))
            && (Diagnose(vec, q) == RefKeyNotFound <==>
                  refers && vec != [] && q.refKey > 0 && forall k :: 0 <= k < |vec| ==> vec[k].key != q.refKey)
            && (Diagnose(vec, q) == Clean <==> !refers || exists k: nat :: Refers(vec, q, k))
  {
    var k := FindKey(vec, q.refKey);
    if k < |vec| && Replaces(q) && q.refKey > 0 {
      assert Refers(vec, q, k);
    }
  }

  /** A clean update drops exactly the quote it refers to, if any, and adds itself unless it is a delete. */
  lemma UpdateContents(vec: seq<Quote>, bid: bool, q: Quote)
    ensures var added := if q.updateType.QtDelete? then multiset{} else multiset{q};
            if Diagnose(vec, q) == Clean && (q.updateType.QtDelete? || q.updateType.QtUpdate?) then
              exists k: nat :: Refers(vec, q, k)
                && multiset(UpdateSide(vec, bid, q)) + multiset{vec[k]} == multiset(vec) + added
            else multiset(UpdateSide(vec, bid, q)) == multiset(vec) + added
  {
    var rest := Withdraw(vec, q);
    InsertAtContents(rest, InsertPosition(rest, bid, q), q);
    if Replaces(q) && q.refKey > 0 && FindKey(vec, q.refKey) < |vec| {
      var k := FindKey(vec, q.refKey);
      RemoveAtContents(vec, k);
      assert Refers(vec, q, k);
      assert multiset(UpdateSide(vec, bid, q)) + multiset{vec[k]}
          == multiset(vec) + if q.updateType.QtDelete? then multiset{} else multiset{q};
    }
  }

  lemma UpdateElsewhere(books: Books, cp: Pair, bid: bool, q: Quote, other: Pair, otherBid: bool)
    ensures SideOf(UpdateBooks(books, cp, bid, q), other, otherBid)
         == if other == cp && otherBid == bid then UpdateSide(SideOf(books, cp, bid), bid, q)
            else SideOf(books, other, otherBid)
  {
  }

  lemma UpdateAllSorted(before: Books, cp: Pair, bid: bool, q: Quote)
    requires AllSorted(before)
    ensures AllSorted(UpdateBooks(before, cp, bid, q))
  {
    UpdateKeepsSorted(SideOf(before, cp, bid), bid, q);
    forall c, b | c in UpdateBooks(before, cp, bid, q)
      ensures Sorted(b, SideOf(UpdateBooks(before, cp, bid, q), c, b))
    {
      UpdateElsewhere(before, cp, bid, q, c, b);
    }
  }

  // ---------------------------------------------------------------------------------------------------------
  // Best quotes
  // ---------------------------------------------------------------------------------------------------------

  type Accept = (bool, Quote) -> bool

  predicate AcceptAll(bid: bool, q: Quote) {
    true
  }

  /** The first quote of a side with a positive price that is accepted. */
  function FirstPositive(vec: seq<Quote>, bid: bool, accept: Accept): (best: Option<Quote>)
    ensures best.Some? ==> best.value in vec && best.value.price > 0 && accept(bid, best.value)
    ensures best.None? ==> forall q :: q in vec ==> q.price <= 0 || !accept(bid, q)
    ensures best.Some? ==> exists i :: 0 <= i < |vec| && vec[i] == best.value
                                       && forall j :: 0 <= j < i ==> vec[j].price <= 0 || !accept(bid, vec[j])
  {
    if vec == [] then None
    else if vec[0].price > 0 && accept(bid, vec[0]) then Some(vec[0])
    else FirstPositive(vec[1..], bid, accept)
  }

  /** On a sorted side the first positive price is the best one: the greatest bid, the least ask. */
  lemma {:induction false} FirstPositiveIsBest(vec: seq<Quote>, bid: bool, accept: Accept)
    requires Sorted(bid, vec)
    ensures var best := FirstPositive(vec, bid, accept);
            best.Some? ==> forall q :: q in vec && q.price > 0 && accept(bid, q) ==>
                  !BetterPrice(bid, q.price, best.value.price)
  {
    if vec != [] && !(vec[0].price > 0 && accept(bid, vec[0])) {
      assert Sorted(bid, vec[1..]);
      FirstPositiveIsBest(vec[1..], bid, accept);
    } else if vec != [] {
      forall q | q in vec && q.price > 0 && accept(bid, q) ensures !BetterPrice(bid, q.price, vec[0].price) {
        var i :| 0 <= i < |vec| && vec[i] == q;
        if i > 0 { assert InFrontOf(bid, vec[0], vec[i]); }
      }
    }
  }

  /** Leaving the predicate out of account matters exactly if the first quote with a positive price is not accepted. */
  lemma {:induction false} PredicateMattersExactlyWhen(vec: seq<Quote>, bid: bool, accept: Accept)
    ensures var first := FirstPositive(vec, bid, AcceptAll);
            first == FirstPositive(vec, bid, accept) <==> first.None? || accept(bid, first.value)
  {
    if vec != [] {
      PredicateMattersExactlyWhen(vec[1..], bid, accept);
    }
  }

  function PriceOf(best: Option<Quote>): int {
    if best.Some? then best.value.price else 0
  }

  function BestPrice(books: Books, cp: Pair, bid: bool): int {
    PriceOf(FirstPositive(SideOf(books, cp, bid), bid, AcceptAll))
  }

  /** Halving as C++ integer division does it, toward zero. */
  function Halve(x: int): int {
    if x >= 0 then x / 2 else -((-x) / 2)
  }

  function MidOf(bidPrice: int, askPrice: int): int {
    if bidPrice > 0 && askPrice > 0 then Halve(bidPrice + askPrice) else 0
  }

  function MidPrice(books: Books, cp: Pair, accept: Accept): int {
    MidOf(PriceOf(FirstPositive(SideOf(books, cp, true), true, accept)),
          PriceOf(FirstPositive(SideOf(books, cp, false), false, accept)))
  }

  /** The best price is the extreme positive price of the side, or 0 exactly if no price is positive. */
  lemma BestPriceMeaning(books: Books, cp: Pair, bid: bool)
    requires AllSorted(books)
    ensures var vec, p := SideOf(books, cp, bid), PriceOf(FirstPositive(SideOf(books, cp, bid), bid, AcceptAll));
            && p >= 0
            && (p == 0 <==> forall q :: q in vec ==> q.price <= 0)
            && (p > 0 ==> exists q :: q in vec && q.price == p)
            && (p > 0 ==> forall q :: q in vec && q.price > 0 ==> if bid then q.price <= p else p <= q.price)
  {
    var vec := SideOf(books, cp, bid);
    assert Sorted(bid, vec);
    FirstPositiveIsBest(vec, bid, AcceptAll);
  }

  /** On an uncrossed book the mid price lies between the best prices; it is 0 iff a side offers no positive price. */
  lemma MidBetweenBestPrices(books: Books, cp: Pair)
    requires AllSorted(books)
    ensures var b := PriceOf(FirstPositive(SideOf(books, cp, true), true, AcceptAll));
            var a := PriceOf(FirstPositive(SideOf(books, cp, false), false, AcceptAll));
            var m := MidPrice(books, cp, AcceptAll);
            && (m == 0 <==> b == 0 || a == 0)
            && (0 < b <= a ==> b <= m <= a)
            && (0 < a < b ==> a <= m <= b)
            && (b > 0 && a > 0 ==> 2 * m <= b + a <= 2 * m + 1)
  {
    BestPriceMeaning(books, cp, true);
    BestPriceMeaning(books, cp, false);
  }

  class OrderBook {
    var books: Books
    var lastQuote: Option<Quote>

    ghost predicate Valid()
      reads this
    {
      AllSorted(books)
    }

    constructor ()
      ensures Valid() && books == map[] && lastQuote == None
    {
      books, lastQuote := map[], None;
    }

    method FindByKey(vec: seq<Quote>, key: int) returns (k: nat)
      ensures k == FindKey(vec, key)
    {
      k := 0;
      while k < |vec| && vec[k].key != key
        invariant k <= |vec| && forall j :: 0 <= j < k ==> vec[j].key != key
      {
        k := k + 1;
      }
    }

    method FindPlace(vec: seq<Quote>, bid: bool, quote: Quote) returns (k: nat)
      ensures k == InsertPosition(vec, bid, quote)
    {
      k := 0;
      while k < |vec| && !InFrontOf(bid, quote, vec[k])
        invariant k <= |vec| && forall j :: 0 <= j < k ==> !InFrontOf(bid, quote, vec[j])
      {
        k := k + 1;
      }
    }

    /** The work on one side's vector: take out what the quote refers to, put in the quote. */
    method ChangeSide(side: seq<Quote>, bid: bool, quote: Quote) returns (vec: seq<Quote>, diagnosis: Diagnosis)
      ensures vec == UpdateSide(side, bid, quote) && diagnosis == Diagnose(side, quote)
      ensures Updated(side, bid, quote, vec)
    {
      vec, diagnosis := side, Clean;
      if Replaces(quote) {
        if vec != [] && quote.refKey > 0 {
          var k := FindByKey(vec, quote.refKey);
          if k < |vec| {
            vec := RemoveAt(vec, k);
          } else {
            diagnosis := RefKeyNotFound;
          }
        } else {
          diagnosis := MissingRefKey;
        }
      }
      assert vec == Withdraw(side, quote);
      if !quote.updateType.QtDelete? {
        if vec == [] {
          vec := [quote];
        } else {
          var k := FindPlace(vec, bid, quote);
          vec := InsertAt(vec, k, quote);
        }
      }
      UpdateMeans(side, bid, quote);
    }

    /**
      Applies one quote to its side.  `moved` tells whether the mid price of the pair changed, which is when the
      book's price-movement action is called; `diagnosis` is the error message, if any.
     */
    method AddQuote(cp: Pair, bid: bool, quote: Quote) returns (moved: bool, diagnosis: Diagnosis)
      requires Valid()
      modifies this
      ensures Valid()
      ensures books == UpdateBooks(old(books), cp, bid, quote)
      ensures lastQuote == Some(quote)
      ensures diagnosis == Diagnose(old(SideOf(books, cp, bid)), quote)
      ensures moved <==> MidPrice(books, cp, AcceptAll) != old(MidPrice(books, cp, AcceptAll))
      ensures Updated(old(SideOf(books, cp, bid)), bid, quote, SideOf(books, cp, bid))
      ensures forall other, side :: other != cp || side != bid ==>
                SideOf(books, other, side) == old(SideOf(books, other, side))
    {
      var midBefore := GetMidPrice(cp);
      diagnosis := ChangeBook(cp, bid, quote);
      lastQuote := Some(quote);
      var midAfter := GetMidPrice(cp);
      moved := midBefore != midAfter;
    }

    /** The part of it that is done under the lock: the pair gets its vectors if need be, and one of them changes. */
    method ChangeBook(cp: Pair, bid: bool, quote: Quote) returns (diagnosis: Diagnosis)
      requires Valid()
      modifies this`books
      ensures Valid()
      ensures books == UpdateBooks(old(books), cp, bid, quote)
      ensures diagnosis == Diagnose(old(SideOf(books, cp, bid)), quote)
      ensures Updated(old(SideOf(books, cp, bid)), bid, quote, SideOf(books, cp, bid))
      ensures forall other, side :: other != cp || side != bid ==>
                SideOf(books, other, side) == old(SideOf(books, other, side))
    {
      ghost var before := books;
      if cp !in books {
        books := books[cp := Sides([], [])];
      }
      var vec;
      vec, diagnosis := ChangeSide(books[cp].Get(bid), bid, quote);
      books := books[cp := books[cp].Set(bid, vec)];
      assert books == UpdateBooks(before, cp, bid, quote);
      UpdateAllSorted(before, cp, bid, quote);
      UpdateMeans(SideOf(before, cp, bid), bid, quote);
      forall other, side
        ensures other != cp || side != bid ==> SideOf(books, other, side) == SideOf(before, other, side)
      {
        UpdateElsewhere(before, cp, bid, quote, other, side);
      }
    }

    /** The best accepted quotes of both sides. */
    method GetBestQuotes(cp: Pair, accept: Accept) returns (bestBid: Option<Quote>, bestAsk: Option<Quote>)
      ensures bestBid == FirstPositive(SideOf(books, cp, true), true, accept)
      ensures bestAsk == FirstPositive(SideOf(books, cp, false), false, accept)
    {
      bestBid, bestAsk := None, None;
      if cp in books {
        bestBid := BestOfSide(books[cp].Get(true), true, accept);
        bestAsk := BestOfSide(books[cp].Get(false), false, accept);
      }
    }

    /** The scan of one side, which stops at the first positive accepted price. */
    method BestOfSide(vec: seq<Quote>, bid: bool, accept: Accept) returns (best: Option<Quote>)
      ensures best == FirstPositive(vec, bid, accept)
    {
      var i := 0;
      while i < |vec|
        invariant i <= |vec| && FirstPositive(vec, bid, accept) == FirstPositive(vec[i..], bid, accept)
      {
        if vec[i].price > 0 && accept(bid, vec[i]) {
          return Some(vec[i]);
        }
        i := i + 1;
      }
      return None;
    }

    /** The best quote of one side.  The code takes an acceptance predicate here as well but never calls it. */
    method GetBestQuote(cp: Pair, bid: bool, accept: Accept) returns (best: Option<Quote>)
      ensures best == FirstPositive(SideOf(books, cp, bid), bid, AcceptAll)
    {
      best := None;
      if cp in books {
        best := BestOfSide(books[cp].Get(bid), bid, AcceptAll);
      }
    }

    method GetMidPrice(cp: Pair) returns (mid: int)
      ensures mid == MidPrice(books, cp, AcceptAll)
      ensures var b, a := BestPrice(books, cp, true), BestPrice(books, cp, false);
              if b > 0 && a > 0 then 2 * mid <= b + a <= 2 * mid + 1 else mid == 0
    {
      var b, a := GetBestQuotes(cp, AcceptAll);
      mid := MidOf(PriceOf(b), PriceOf(a));
    }

    /** Drops everything. */
    method Clear()
      modifies this
      ensures Valid() && books == map[] && lastQuote == None
    {
      books, lastQuote := map[], None;
    }
  }
}
