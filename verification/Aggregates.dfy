/**
  Aggregate values of a group of quotes: kept up to date quote by quote (the group in namespace `ORDERBOOK`), and
  calculated afresh from the whole vector (the group in namespace `CORE::BOOK`).
 */
module Aggregates {
  import opened Wrappers
  import opened Quotes
  import opened Averages

  datatype Values = Values(minPrice: int, maxPrice: int, avgPrice: int, maxVolume: int, totalVolume: int, minQty: int)

  const ZERO := Values(0, 0, 0, 0, 0, 0)

  function Min(a: int, b: int): int {
    if a <= b then a else b
  }

  function Max(a: int, b: int): int {
    if a >= b then a else b
  }

  // ---------------------------------------------------------------------------------------------------------
  // Kept up to date
  // ---------------------------------------------------------------------------------------------------------

  /** Adds one quote.  No result stands for a division by zero. */
  function Adjust(v: Values, q: Quote): Option<Values> {
    if q.used then Some(v)
    else
      var low := if v.totalVolume == 0 || v.minPrice > q.price then q.price else v.minPrice;
      var high := if v.totalVolume == 0 || v.maxPrice < q.price then q.price else v.maxPrice;
      var total := v.totalVolume + q.volume;
      if low != high && total == 0 then None
      else
        var avg := if low == high then low else Step(v.avgPrice, q.price, q.volume, total);
        Some(Values(low, high, avg, Max(v.maxVolume, q.volume), total, Max(v.minQty, q.minQty)))
  }

  predicate IsMax(r: int, a: int, b: int) {
    r >= a && r >= b && (r == a || r == b)
  }

  predicate IsMin(r: int, a: int, b: int) {
    r <= a && r <= b && (r == a || r == b)
  }

  /** What one quote does: nothing if it is used, and else field by field; without volume so far its price is all. */
  ghost predicate Adjusts(v: Values, q: Quote, r: Values) {
    if q.used then r == v
    else
      && (if v.totalVolume == 0 then r.minPrice == q.price == r.maxPrice
          else IsMin(r.minPrice, v.minPrice, q.price) && IsMax(r.maxPrice, v.maxPrice, q.price))
      && r.totalVolume == v.totalVolume + q.volume
      && IsMax(r.maxVolume, v.maxVolume, q.volume) && IsMax(r.minQty, v.minQty, q.minQty)
      && (if r.minPrice == r.maxPrice then r.avgPrice == r.minPrice
          else r.totalVolume != 0
               && Truncates(r.avgPrice - v.avgPrice, (q.price - v.avgPrice) * q.volume, r.totalVolume))
  }

  lemma AdjustMeans(v: Values, q: Quote)
    ensures Adjust(v, q).Some? ==> Adjusts(v, q, Adjust(v, q).value)
    ensures Adjust(v, q).None? ==> !q.used && v.totalVolume + q.volume == 0
  {
    if Adjust(v, q).Some? && !q.used && Adjust(v, q).value.totalVolume != 0 {
      StepTruncates(v.avgPrice, q.price, q.volume, v.totalVolume + q.volume);
    }
  }

  function AdjustAll(quotes: seq<Quote>): Option<Values> {
    if quotes == [] then Some(ZERO)
    else
      var before := AdjustAll(quotes[..|quotes| - 1]);
      if before.None? then None else Adjust(before.value, quotes[|quotes| - 1])
  }

  predicate VolumesNotNegative(quotes: seq<Quote>) {
    forall i :: 0 <= i < |quotes| ==> quotes[i].volume >= 0
  }

  /** The unused quotes that have a volume, as price and volume. */
  function Traded(quotes: seq<Quote>): (fills: seq<Fill>)
    ensures Positive(fills)
  {
    if quotes == [] then []
    else
      var last := quotes[|quotes| - 1];
      Traded(quotes[..|quotes| - 1]) + if last.used || last.volume <= 0 then [] else [Fill(last.price, last.volume)]
  }

  lemma AppendFill(fills: seq<Fill>, fill: Fill)
    ensures VolumeOf(fills + [fill]) == VolumeOf(fills) + fill.volume
    ensures Notional(fills + [fill]) == Notional(fills) + fill.price * fill.volume
  {
    assert (fills + [fill])[..|fills|] == fills;
  }

  /** How far the average may be off, over the total volume. */
  ghost predicate Near(v: Values, fills: seq<Fill>) {
    && v.totalVolume == VolumeOf(fills)
    && (fills == [] ==> v.totalVolume == 0)
    && (fills != [] ==> v.totalVolume > 0)
    && (fills != [] ==> Abs(v.avgPrice * v.totalVolume - Notional(fills)) <= (|fills| - 1) * v.totalVolume)
  }

  ghost predicate Within(v: Values, fills: seq<Fill>) {
    && v.minPrice <= v.avgPrice <= v.maxPrice
    && (forall i :: 0 <= i < |fills| ==> v.minPrice <= fills[i].price <= v.maxPrice)
    && (v.minPrice == v.maxPrice ==> Notional(fills) == v.minPrice * VolumeOf(fills))
  }

  lemma AdjustWithin(v: Values, q: Quote, fills: seq<Fill>)
    requires !q.used && q.volume >= 0 && Near(v, fills) && Within(v, fills)
    ensures Adjust(v, q).Some?
    ensures Within(Adjust(v, q).value, if q.volume > 0 then fills + [Fill(q.price, q.volume)] else fills)
  {
    var r := Adjust(v, q).value;
    AppendFill(fills, Fill(q.price, q.volume));
    if v.totalVolume != 0 && r.minPrice != r.maxPrice {
      StepBetween(v.avgPrice, q.price, q.volume, r.totalVolume);
    }
    if r.minPrice == r.maxPrice {
      assert r.minPrice * (VolumeOf(fills) + q.volume) == r.minPrice * VolumeOf(fills) + r.minPrice * q.volume;
    }
  }

  lemma AdjustNear(v: Values, q: Quote, fills: seq<Fill>)
    requires !q.used && q.volume >= 0 && Near(v, fills) && Within(v, fills)
    requires Adjust(v, q).Some?
    requires Within(Adjust(v, q).value, if q.volume > 0 then fills + [Fill(q.price, q.volume)] else fills)
    ensures Near(Adjust(v, q).value, if q.volume > 0 then fills + [Fill(q.price, q.volume)] else fills)
  {
    var r := Adjust(v, q).value;
    var fill := Fill(q.price, q.volume);
    AppendFill(fills, fill);
    if r.minPrice == r.maxPrice {
      var all := if q.volume > 0 then fills + [fill] else fills;
      assert Notional(all) == r.avgPrice * r.totalVolume;
      assert all != [] ==> (|all| - 1) * r.totalVolume >= 0;
    } else {
      StepDrift(v.avgPrice, q.price, q.volume, r.totalVolume);
      if q.volume > 0 {
        var e := v.avgPrice * v.totalVolume - Notional(fills);
        var rest := r.avgPrice * r.totalVolume - (v.avgPrice * v.totalVolume + q.price * q.volume);
        assert r.totalVolume - q.volume == v.totalVolume;
        DriftAdds(e, rest, |fills| - 1, v.totalVolume, r.totalVolume);
      }
    }
  }

  /**
    With volumes that are not negative no division by zero happens, the average lies between the least and the
    greatest price, and is off the exact weighted average by at most the number of traded quotes less one.
   */
  lemma {:induction false} RunningAverageIsNear(quotes: seq<Quote>)
    requires VolumesNotNegative(quotes)
    ensures AdjustAll(quotes).Some?
    ensures Near(AdjustAll(quotes).value, Traded(quotes)) && Within(AdjustAll(quotes).value, Traded(quotes))
  {
    if quotes != [] {
      var before, last := quotes[..|quotes| - 1], quotes[|quotes| - 1];
      RunningAverageIsNear(before);
      if !last.used {
        AdjustWithin(AdjustAll(before).value, last, Traded(before));
        AdjustNear(AdjustAll(before).value, last, Traded(before));
      }
      assert last.used || last.volume <= 0 ==> Traded(quotes) == Traded(before);
    }
  }

  predicate HasFillAt(fills: seq<Fill>, price: int) {
    exists i :: 0 <= i < |fills| && fills[i].price == price
  }

  lemma FillStays(fills: seq<Fill>, fill: Fill, price: int)
    requires HasFillAt(fills, price) || fill.price == price
    ensures HasFillAt(fills + [fill], price)
  {
    if HasFillAt(fills, price) {
      var i :| 0 <= i < |fills| && fills[i].price == price;
      assert (fills + [fill])[i].price == price;
    } else {
      assert (fills + [fill])[|fills|].price == price;
    }
  }

  /** Least and greatest price are prices of the group, as soon as it has any volume. */
  ghost predicate Attained(v: Values, fills: seq<Fill>) {
    && (fills == [] <==> v.totalVolume == 0) && v.totalVolume >= 0
    && (fills != [] ==> HasFillAt(fills, v.minPrice) && HasFillAt(fills, v.maxPrice))
  }

  predicate UnusedPositive(quotes: seq<Quote>) {
    forall i :: 0 <= i < |quotes| ==> quotes[i].volume >= 0 && (!quotes[i].used ==> quotes[i].volume > 0)
  }

  /** By `RunningAverageIsNear` they bound all prices; here, they are among them. */
  lemma {:induction false} RunningExtremesAttained(quotes: seq<Quote>)
    requires UnusedPositive(quotes)
    ensures AdjustAll(quotes).Some? && Attained(AdjustAll(quotes).value, Traded(quotes))
  {
    SomeValues(quotes);
    if quotes != [] {
      var before, q := quotes[..|quotes| - 1], quotes[|quotes| - 1];
      RunningExtremesAttained(before);
      if !q.used {
        AttainedStep(AdjustAll(before).value, q, Traded(before));
      }
    }
  }

  lemma SomeValues(quotes: seq<Quote>)
    requires VolumesNotNegative(quotes)
    ensures AdjustAll(quotes).Some?
  {
    RunningAverageIsNear(quotes);
  }

  lemma AttainedStep(v: Values, q: Quote, fills: seq<Fill>)
    requires !q.used && q.volume > 0 && Adjust(v, q).Some? && Attained(v, fills)
    ensures Attained(Adjust(v, q).value, fills + [Fill(q.price, q.volume)])
  {
    FillStays(fills, Fill(q.price, q.volume), Adjust(v, q).value.minPrice);
    FillStays(fills, Fill(q.price, q.volume), Adjust(v, q).value.maxPrice);
  }

  /** Zero, or one of the values that the unused quotes have of the kind. */
  ghost predicate OneOf(quotes: seq<Quote>, f: Quote -> int, value: int) {
    value == 0 || exists i :: 0 <= i < |quotes| && !quotes[i].used && f(quotes[i]) == value
  }

  lemma OneOfMore(quotes: seq<Quote>, q: Quote, f: Quote -> int, value: int)
    requires OneOf(quotes, f, value) || (!q.used && f(q) == value)
    ensures OneOf(quotes + [q], f, value)
  {
    if OneOf(quotes, f, value) && value != 0 {
      var i :| 0 <= i < |quotes| && !quotes[i].used && f(quotes[i]) == value;
      assert (quotes + [q])[i] == quotes[i];
    } else {
      assert (quotes + [q])[|quotes|] == q;
    }
  }

  /**
    The volumes are added up, whatever their signs; the greatest volume and minimum quantity are those of the unused
    quotes, and never below zero.
   */
  lemma {:induction false} TotalsAreExact(quotes: seq<Quote>)
    requires AdjustAll(quotes).Some?
    ensures AdjustAll(quotes).value.totalVolume == UnusedVolume(quotes)
    ensures forall i :: 0 <= i < |quotes| && !quotes[i].used ==>
              quotes[i].volume <= AdjustAll(quotes).value.maxVolume
              && quotes[i].minQty <= AdjustAll(quotes).value.minQty
    ensures AdjustAll(quotes).value.maxVolume >= 0 && AdjustAll(quotes).value.minQty >= 0
    ensures OneOf(quotes, VolumeIn, AdjustAll(quotes).value.maxVolume)
    ensures OneOf(quotes, MinQtyIn, AdjustAll(quotes).value.minQty)
    ensures AdjustAll(quotes).value.minPrice <= AdjustAll(quotes).value.maxPrice
  {
    if quotes != [] {
      var before, q := quotes[..|quotes| - 1], quotes[|quotes| - 1];
      TotalsAreExact(before);
      AdjustTotals(AdjustAll(before).value, q);
      assert quotes == before + [q];
      OneOfMore(before, q, VolumeIn, AdjustAll(quotes).value.maxVolume);
      OneOfMore(before, q, MinQtyIn, AdjustAll(quotes).value.minQty);
    }
  }

  function VolumeIn(q: Quote): int {
    q.volume
  }

  function MinQtyIn(q: Quote): int {
    q.minQty
  }

  lemma AdjustTotals(v: Values, q: Quote)
    requires Adjust(v, q).Some?
    ensures var r := Adjust(v, q).value;
            && r.totalVolume == v.totalVolume + (if q.used then 0 else q.volume)
            && r.maxVolume >= v.maxVolume && r.minQty >= v.minQty
            && (!q.used ==> r.maxVolume >= q.volume && r.minQty >= q.minQty)
            && (r.maxVolume == v.maxVolume || (!q.used && r.maxVolume == q.volume))
            && (r.minQty == v.minQty || (!q.used && r.minQty == q.minQty))
            && (v.minPrice <= v.maxPrice ==> r.minPrice <= r.maxPrice)
  {
  }

  function UnusedVolume(quotes: seq<Quote>): int {
    if quotes == [] then 0
    else UnusedVolume(quotes[..|quotes| - 1]) + if quotes[|quotes| - 1].used then 0 else quotes[|quotes| - 1].volume
  }

  /** Volumes of the unused quotes add up. */
  lemma {:induction false} UnusedVolumeConcat(a: seq<Quote>, b: seq<Quote>)
    ensures UnusedVolume(a + b) == UnusedVolume(a) + UnusedVolume(b)
    ensures |a| == 1 ==> UnusedVolume(a) == if a[0].used then 0 else a[0].volume
  {
    if |a| == 1 {
      assert a[..0] == [];
    }
    if b == [] {
      assert a + b == a;
    } else {
      assert (a + b)[..|a + b| - 1] == a + b[..|b| - 1];
      UnusedVolumeConcat(a, b[..|b| - 1]);
    }
  }

  /**
    A quote makes the running average divide by zero exactly if it is unused, cancels out a volume that is not zero,
    and is not at the one price of all quotes before it.
   */
  lemma DividesByZeroExactlyWhen(quotes: seq<Quote>, q: Quote)
    requires AdjustAll(quotes).Some?
    ensures var v := AdjustAll(quotes).value;
            AdjustAll(quotes + [q]).None? <==>
              !q.used && UnusedVolume(quotes) != 0 && q.volume == -UnusedVolume(quotes)
              && !(v.minPrice == v.maxPrice == q.price)
  {
    assert (quotes + [q])[..|quotes|] == quotes;
    TotalsAreExact(quotes);
  }

  /** So negative volumes can do it: one unit at price 1, then minus one unit at price 2. */
  lemma NegativeVolumeDividesByZero()
    ensures var q1, q2 := Quote(1, 0, QtNew, 1, 1, 0, false), Quote(2, 0, QtNew, 2, -1, 0, false);
            AdjustAll([q1]).Some? && AdjustAll([q1, q2]).None?
  {
    var q1, q2 := Quote(1, 0, QtNew, 1, 1, 0, false), Quote(2, 0, QtNew, 2, -1, 0, false);
    assert [q1][..0] == [];
    assert [q1, q2][..1] == [q1];
  }

  // ---------------------------------------------------------------------------------------------------------
  // Calculated afresh
  // ---------------------------------------------------------------------------------------------------------

  /** The first pass over the vector: everything but the average. */
  function Gather(quotes: seq<Quote>): Values {
    if quotes == [] then ZERO
    else
      var v, q := Gather(quotes[..|quotes| - 1]), quotes[|quotes| - 1];
      Values(if v.totalVolume == 0 || v.minPrice > q.price then q.price else v.minPrice,
             Max(v.maxPrice, q.price), 0, Max(v.maxVolume, q.volume), v.totalVolume + q.volume, Max(v.minQty, q.minQty))
  }

  function Worth(q: Quote): int {
    q.price * q.volume
  }

  function Sum(quotes: seq<Quote>, f: Quote -> int): int {
    if quotes == [] then 0 else Sum(quotes[..|quotes| - 1], f) + f(quotes[|quotes| - 1])
  }

  function Calculate(quotes: seq<Quote>): Values {
    var v := Gather(quotes);
    v.(avgPrice :=
         if v.totalVolume == 0 || v.minPrice == v.maxPrice then v.minPrice
         else TDiv(Sum(quotes, Worth), v.totalVolume))
  }

  /** Sums over quotes add up. */
  lemma {:induction false} SumConcat(a: seq<Quote>, b: seq<Quote>, f: Quote -> int)
    ensures Sum(a + b, f) == Sum(a, f) + Sum(b, f)
    ensures |a| == 1 ==> Sum(a, f) == f(a[0])
  {
    if |a| == 1 {
      assert a[..0] == [];
    }
    if b == [] {
      assert a + b == a;
    } else {
      assert (a + b)[..|a + b| - 1] == a + b[..|b| - 1];
      SumConcat(a, b[..|b| - 1], f);
    }
  }

  /** One of the quotes' values of the kind, or zero. */
  ghost predicate AnyOf(quotes: seq<Quote>, f: Quote -> int, value: int) {
    value == 0 || exists i :: 0 <= i < |quotes| && f(quotes[i]) == value
  }

  lemma AnyOfMore(quotes: seq<Quote>, q: Quote, f: Quote -> int, value: int)
    requires AnyOf(quotes, f, value) || f(q) == value
    ensures AnyOf(quotes + [q], f, value)
  {
    if AnyOf(quotes, f, value) && value != 0 {
      var i :| 0 <= i < |quotes| && f(quotes[i]) == value;
      assert (quotes + [q])[i] == quotes[i];
    } else {
      assert (quotes + [q])[|quotes|] == q;
    }
  }

  /** Total volume is the sum, whatever the signs; greatest volume and minimum quantity are those of the quotes. */
  lemma {:induction false} CalculatedTotals(quotes: seq<Quote>)
    ensures var v := Calculate(quotes);
            && v.totalVolume == Sum(quotes, VolumeIn) && v.maxVolume >= 0 && v.minQty >= 0
            && (forall i :: 0 <= i < |quotes| ==> quotes[i].volume <= v.maxVolume && quotes[i].minQty <= v.minQty)
            && AnyOf(quotes, VolumeIn, v.maxVolume) && AnyOf(quotes, MinQtyIn, v.minQty)
  {
    if quotes != [] {
      var before, q := quotes[..|quotes| - 1], quotes[|quotes| - 1];
      CalculatedTotals(before);
      assert quotes == before + [q];
      AnyOfMore(before, q, VolumeIn, Gather(quotes).maxVolume);
      AnyOfMore(before, q, MinQtyIn, Gather(quotes).minQty);
    }
  }

  lemma {:induction false} GatherBounds(quotes: seq<Quote>)
    requires VolumesNotNegative(quotes)
    ensures var v := Gather(quotes);
            && v.totalVolume >= 0 && v.minPrice <= v.maxPrice
            && v.minPrice * v.totalVolume <= Sum(quotes, Worth) <= v.maxPrice * v.totalVolume
            && (v.totalVolume == 0 ==> Sum(quotes, Worth) == 0)
            && forall i :: 0 <= i < |quotes| ==> quotes[i].price <= v.maxPrice && quotes[i].volume <= v.maxVolume
  {
    if quotes != [] {
      var before, q := quotes[..|quotes| - 1], quotes[|quotes| - 1];
      GatherBounds(before);
      var v, r := Gather(before), Gather(quotes);
      SumAbove(v.totalVolume, Sum(before, Worth), v.minPrice, q.price, q.volume, r.minPrice);
      SumBelow(v.totalVolume, Sum(before, Worth), v.maxPrice, q.price, q.volume, r.maxPrice);
    }
  }

  predicate HasPrice(quotes: seq<Quote>, price: int) {
    exists i :: 0 <= i < |quotes| && quotes[i].price == price
  }

  /** With positive volumes the least price is one; the greatest starts from 0, and counts prices above that. */
  lemma {:induction false} GatherExtremes(quotes: seq<Quote>)
    requires forall i :: 0 <= i < |quotes| ==> quotes[i].volume > 0
    ensures var v := Gather(quotes);
            && (quotes == [] <==> v.totalVolume == 0) && v.totalVolume >= 0
            && (forall i :: 0 <= i < |quotes| ==> v.minPrice <= quotes[i].price <= v.maxPrice)
            && (quotes != [] ==> HasPrice(quotes, v.minPrice))
            && (v.maxPrice == 0 || HasPrice(quotes, v.maxPrice)) && v.maxPrice >= 0
  {
    if quotes != [] {
      var before, q := quotes[..|quotes| - 1], quotes[|quotes| - 1];
      GatherExtremes(before);
      assert forall price :: HasPrice(before, price) ==> HasPrice(quotes, price);
      assert quotes[|quotes| - 1].price == q.price;
      assert HasPrice(quotes, q.price);
    }
  }

  /** So the least price is right, and the greatest exactly if some price is not negative. */
  lemma ExtremesAttainedExactlyWhen(quotes: seq<Quote>)
    requires quotes != [] && forall i :: 0 <= i < |quotes| ==> quotes[i].volume > 0
    ensures var v := Calculate(quotes);
            && (forall i :: 0 <= i < |quotes| ==> v.minPrice <= quotes[i].price <= v.maxPrice)
            && HasPrice(quotes, v.minPrice)
            && (HasPrice(quotes, v.maxPrice) <==> exists i :: 0 <= i < |quotes| && quotes[i].price >= 0)
  {
    GatherExtremes(quotes);
  }

  lemma SumAbove(total: int, sum: int, low: int, price: int, volume: int, newLow: int)
    requires total >= 0 && volume >= 0 && low * total <= sum && (total == 0 ==> sum == 0)
    requires newLow <= price && (total != 0 ==> newLow <= low)
    ensures newLow * (total + volume) <= sum + price * volume
    ensures total + volume == 0 ==> sum + price * volume == 0
  {
    assert newLow * (total + volume) == newLow * total + newLow * volume;
    assert (price - newLow) * volume >= 0;
    assert total != 0 ==> (low - newLow) * total >= 0;
  }

  lemma SumBelow(total: int, sum: int, high: int, price: int, volume: int, newHigh: int)
    requires total >= 0 && volume >= 0 && sum <= high * total
    requires price <= newHigh && high <= newHigh
    ensures sum + price * volume <= newHigh * (total + volume)
  {
    assert newHigh * (total + volume) == newHigh * total + newHigh * volume;
    assert (newHigh - price) * volume >= 0;
    assert (newHigh - high) * total >= 0;
  }

  /** The average is the truncated exact one in every case, and lies between the least and the greatest price. */
  lemma CalculatedAverage(quotes: seq<Quote>)
    requires VolumesNotNegative(quotes)
    ensures var v := Calculate(quotes);
            v.minPrice <= v.avgPrice <= v.maxPrice
            && (v.totalVolume > 0 ==> v.avgPrice == TDiv(Sum(quotes, Worth), v.totalVolume))
  {
    GatherBounds(quotes);
    var v := Gather(quotes);
    if v.totalVolume > 0 {
      DivBetween(Sum(quotes, Worth), v.totalVolume, v.minPrice, v.maxPrice);
    }
  }

  lemma DivBetween(sum: int, total: int, low: int, high: int)
    requires total > 0 && low * total <= sum <= high * total
    ensures low <= TDiv(sum, total) <= high
  {
    var r := TDiv(sum, total);
    if sum >= 0 {
      Cancel(r, high, total);
      assert r + 1 <= low ==> (r + 1) * total <= low * total;
    } else {
      Cancel(low, r, total);
      assert high <= r - 1 ==> high * total <= (r - 1) * total;
    }
  }
}
