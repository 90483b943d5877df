/** Quotes as shared objects, and the two kinds of groups that hold them. */
module QuoteGroups {
  import opened Wrappers
  import Quotes
  import opened Averages
  import opened Aggregates

  type Row = Quotes.Quote

  /** A quote object: all that changes in it is the flag `used`. */
  class Quote {
    const fixed: Row  // the flag in here is not used
    var used: bool

    constructor (row: Row)
      ensures fixed == row.(used := false) && !used
    {
      fixed, used := row.(used := false), false;
    }

    function Value(): Row
      reads this
    {
      fixed.(used := used)
    }

    method SetUsed() returns (result: bool)
      modifies this
      ensures used && result == !old(used)
    {
      result := false;
      if !used {
        used := true;
        result := true;
      }
    }
  }

  /** What the quotes of a vector are at present. */
  function View(quotes: seq<Quote>): (rows: seq<Row>)
    reads quotes
    ensures |rows| == |quotes| && forall i :: 0 <= i < |rows| ==> rows[i] == quotes[i].Value()
  {
    seq(|quotes|, i requires 0 <= i < |quotes| reads quotes => quotes[i].Value())
  }

  /** The same without the flag, which makes it independent of anything that can change. */
  function AllRows(quotes: seq<Quote>): (rows: seq<Row>)
    ensures |rows| == |quotes| && forall i :: 0 <= i < |rows| ==> rows[i] == quotes[i].fixed
  {
    if quotes == [] then [] else AllRows(quotes[..|quotes| - 1]) + [quotes[|quotes| - 1].fixed]
  }

  function UnusedRows(quotes: seq<Quote>): (rows: seq<Row>)
    reads quotes
  {
    if quotes == [] then []
    else UnusedRows(quotes[..|quotes| - 1]) + if quotes[|quotes| - 1].used then [] else [quotes[|quotes| - 1].fixed]
  }

  function Considered(quotes: seq<Quote>, unusedOnly: bool): seq<Row>
    reads quotes
  {
    if unusedOnly then UnusedRows(quotes) else AllRows(quotes)
  }

  lemma ConsideredAppend(quotes: seq<Quote>, n: nat, unusedOnly: bool)
    requires n < |quotes|
    ensures Considered(quotes[..n + 1], unusedOnly)
         == if unusedOnly && quotes[n].used then Considered(quotes[..n], unusedOnly)
            else Considered(quotes[..n], unusedOnly) + [quotes[n].fixed]
  {
    assert quotes[..n + 1][..n] == quotes[..n];
  }

  lemma GatherAppend(rows: seq<Row>, row: Row)
    ensures Gather(rows + [row]) ==
              var v := Gather(rows);
              Values(if v.totalVolume == 0 || v.minPrice > row.price then row.price else v.minPrice,
                     Max(v.maxPrice, row.price), 0, Max(v.maxVolume, row.volume), v.totalVolume + row.volume,
                     Max(v.minQty, row.minQty))
  {
    assert (rows + [row])[..|rows|] == rows;
  }

  lemma SumAppend(rows: seq<Row>, row: Row, f: Row -> int)
    ensures Sum(rows + [row], f) == Sum(rows, f) + f(row)
  {
    assert (rows + [row])[..|rows|] == rows;
  }

  method CalculateAggregateValues(quotes: seq<Quote>, unusedOnly: bool) returns (av: Values)
    ensures av == Calculate(Considered(quotes, unusedOnly))
  {
    av := GatherValues(quotes, unusedOnly);
    if av.totalVolume == 0 || av.minPrice == av.maxPrice {
      av := av.(avgPrice := av.minPrice);
    } else {
      var sum := SumOf(quotes, unusedOnly, Worth);
      av := av.(avgPrice := TDiv(sum, av.totalVolume));
    }
  }

  /** The first pass. */
  method GatherValues(quotes: seq<Quote>, unusedOnly: bool) returns (av: Values)
    ensures av == Gather(Considered(quotes, unusedOnly))
  {
    av := ZERO;
    var i := 0;
    while i < |quotes|
      invariant i <= |quotes| && av == Gather(Considered(quotes[..i], unusedOnly))
    {
      ConsideredAppend(quotes, i, unusedOnly);
      if !(unusedOnly && quotes[i].used) {
        var q := quotes[i].fixed;
        GatherAppend(Considered(quotes[..i], unusedOnly), q);
        if av.totalVolume == 0 || av.minPrice > q.price {
          av := av.(minPrice := q.price);
        }
        av := av.(maxPrice := Max(av.maxPrice, q.price), maxVolume := Max(av.maxVolume, q.volume),
                  totalVolume := av.totalVolume + q.volume, minQty := Max(av.minQty, q.minQty));
      }
      i := i + 1;
    }
    assert quotes[..|quotes|] == quotes;
  }

  /** The second pass, taken only if the prices differ. */
  method SumOf(quotes: seq<Quote>, unusedOnly: bool, f: Row -> int) returns (sum: int)
    ensures sum == Sum(Considered(quotes, unusedOnly), f)
  {
    sum := 0;
    var i := 0;
    ghost var rows: seq<Row> := [];
    while i < |quotes|
      invariant i <= |quotes| && rows == Considered(quotes[..i], unusedOnly)
      invariant sum == Sum(rows, f)
    {
      ConsideredAppend(quotes, i, unusedOnly);
      if !(unusedOnly && quotes[i].used) {
        SumAppend(rows, quotes[i].fixed, f);
        rows := rows + [quotes[i].fixed];
        sum := sum + f(quotes[i].fixed);
      }
      i := i + 1;
    }
    assert quotes[..|quotes|] == quotes;
  }

  lemma FillsNext(quotes: seq<Row>, i: nat, volume: int, fills: seq<Fill>, request: int)
    requires i < |quotes| && volume > 0 && fills + Fills(quotes[i..], volume) == Fills(quotes, request)
    ensures var current := if quotes[i].volume <= volume then quotes[i].volume else volume;
            if !quotes[i].used && volume >= quotes[i].minQty && current > 0
            then
              (fills + [Fill(quotes[i].price, current)]) + Fills(quotes[i + 1..], volume - current)
              == Fills(quotes, request)
            else fills + Fills(quotes[i + 1..], volume) == Fills(quotes, request)
  {
    assert quotes[i..][1..] == quotes[i + 1..];
  }

  lemma AverageNext(fills: seq<Fill>, fill: Fill)
    requires Positive(fills) && fill.volume > 0
    ensures Positive(fills + [fill]) && VolumeOf(fills + [fill]) == VolumeOf(fills) + fill.volume > 0
    ensures Average(fills + [fill]) == Step(Average(fills), fill.price, fill.volume, VolumeOf(fills) + fill.volume)
  {
    VolumePositive(fills);
    AppendFill(fills, fill);
    assert (fills + [fill])[..|fills|] == fills;
  }

  // ---------------------------------------------------------------------------------------------------------
  // The group with cached aggregates
  // ---------------------------------------------------------------------------------------------------------

  class CachedGroup {
    var quotes: seq<Quote>
    var unusedValues: Option<Values>  // of the unused quotes
    var allValues: Option<Values>     // of all quotes

    /** The cached values of all quotes, if any, are what a fresh calculation gives. */
    ghost predicate Valid()
      reads this
    {
      allValues.Some? ==> allValues.value == Calculate(AllRows(quotes))
    }

    /** The same for the unused quotes; setting a flag can break it. */
    ghost predicate UnusedValid()
      reads this, quotes
    {
      unusedValues.Some? ==> unusedValues.value == Calculate(UnusedRows(quotes))
    }

    constructor (srcVec: seq<Quote>)
      ensures Valid() && UnusedValid() && quotes == srcVec
    {
      quotes, unusedValues, allValues := srcVec, None, None;
    }

    method InvalidateAggregateValues(onlyUsedStateChanged: bool)
      modifies this`unusedValues, this`allValues
      ensures UnusedValid() && unusedValues == None
      ensures allValues == if onlyUsedStateChanged then old(allValues) else None
    {
      unusedValues := None;
      if !onlyUsedStateChanged {
        allValues := None;
      }
    }

    method AddQuote(q: Quote)
      modifies this
      ensures quotes == old(quotes) + [q] && Valid() && UnusedValid()
    {
      quotes := quotes + [q];
      InvalidateAggregateValues(false);
    }

    method AddQuotes(other: CachedGroup)
      modifies this
      ensures quotes == old(quotes) + old(other.quotes) && Valid() && UnusedValid()
    {
      var source := other.quotes;
      var i := 0;
      while i < |source|
        invariant i <= |source| && quotes == old(quotes) + source[..i]
      {
        quotes := quotes + [source[i]];
        i := i + 1;
      }
      InvalidateAggregateValues(false);
    }

    /** Removes the first occurrence of the object; without one, nothing changes. */
    method RemoveQuote(q: Quote) returns (found: bool)
      requires Valid()
      modifies this
      ensures found <==> q in old(quotes)
      ensures found ==> exists i :: 0 <= i < |old(quotes)| && old(quotes)[i] == q && q !in old(quotes)[..i]
                                    && quotes == old(quotes)[..i] + old(quotes)[i + 1..]
      ensures !found ==> quotes == old(quotes) && unusedValues == old(unusedValues) && allValues == old(allValues)
      ensures Valid() && (found || old(UnusedValid()) ==> UnusedValid())
    {
      var i := 0;
      while i < |quotes| && quotes[i] != q
        invariant i <= |quotes| && q !in quotes[..i]
      {
        i := i + 1;
      }
      if i == |quotes| {
        return false;
      }
      quotes := quotes[..i] + quotes[i + 1..];
      InvalidateAggregateValues(false);
      return true;
    }

    /** The aggregates of all quotes, from the cache or calculated, are always up to date. */
    method GetAllValues() returns (av: Values)
      requires Valid()
      modifies this`allValues
      ensures Valid() && av == Calculate(AllRows(quotes))
    {
      if allValues.None? {
        var current := CalculateAggregateValues(quotes, false);
        allValues := Some(current);
      }
      av := allValues.value;
    }

    /** Those of the unused quotes are, unless a flag was set after they were cached. */
    method GetUnusedValues() returns (av: Values)
      modifies this`unusedValues
      ensures unusedValues == Some(av)
      ensures old(unusedValues).Some? ==> av == old(unusedValues).value
      ensures old(UnusedValid()) ==> UnusedValid() && av == Calculate(UnusedRows(quotes))
    {
      if unusedValues.None? {
        var current := CalculateAggregateValues(quotes, true);
        unusedValues := Some(current);
      }
      av := unusedValues.value;
    }

    /** Setting a flag with the prescribed invalidation: both caches stay valid, and the next read is up to date. */
    method UseQuote(q: Quote) returns (result: bool, av: Values)
      requires Valid()
      modifies this, q
      ensures Valid() && UnusedValid() && q.used && result == !old(q.used)
      ensures quotes == old(quotes) && av == Calculate(UnusedRows(quotes))
    {
      result := q.SetUsed();
      InvalidateAggregateValues(true);
      av := GetUnusedValues();
    }

    /** Covers `volume` with the first unused quotes: their truncating average price, and how many they are. */
    method PartialAvgPrice(request: int) returns (result: int, quoteCount: nat)
      ensures Positive(Fills(View(quotes), request))
      ensures result == Average(Fills(View(quotes), request)) && quoteCount == |Fills(View(quotes), request)|
    {
      ghost var rows := View(quotes);
      result, quoteCount := 0, 0;
      var volume, aggregateVolume, i := request, 0, 0;
      ghost var fills: seq<Fill> := [];
      assert rows[0..] == rows;
      while volume > 0 && i < |quotes|
        invariant i <= |quotes| && Positive(fills) && fills + Fills(rows[i..], volume) == Fills(rows, request)
        invariant result == Average(fills) && aggregateVolume == VolumeOf(fills) && quoteCount == |fills|
        decreases |quotes| - i
      {
        FillsNext(rows, i, volume, fills, request);
        var q := quotes[i].fixed;
        if !quotes[i].used && volume >= q.minQty {
          var currentVolume := Min(q.volume, volume);
          if currentVolume > 0 {
            AverageNext(fills, Fill(q.price, currentVolume));
            fills := fills + [Fill(q.price, currentVolume)];
            aggregateVolume := aggregateVolume + currentVolume;
            result := Step(result, q.price, currentVolume, aggregateVolume);
            quoteCount := quoteCount + 1;
            volume := volume - currentVolume;
          }
        }
        i := i + 1;
      }
      assert fills == Fills(rows, request) by { assert Fills(rows[i..], volume) == []; }
    }
  }

  /** Without the invalidation a read gives a stale value: a concrete history. */
  method StaleAfterSetUsed() returns (cached: Values, now: Values)
    ensures cached.totalVolume == 5 && now.totalVolume == 0
  {
    var q := new Quote(Quotes.Quote(1, 0, Quotes.QtNew, 7, 5, 0, false));
    var group := new CachedGroup([q]);
    TotalOfOne(q);
    cached := group.GetUnusedValues();
    var changed := q.SetUsed();
    cached := group.GetUnusedValues();
    TotalOfOne(q);
    now := CalculateAggregateValues(group.quotes, true);
  }

  lemma TotalOfOne(q: Quote)
    ensures Calculate(UnusedRows([q])).totalVolume == if q.used then 0 else q.fixed.volume
  {
    assert [q][..0] == [];
    assert UnusedRows([q][..0]) == [];
    if !q.used {
      assert UnusedRows([q]) == [q.fixed];
      GatherAppend([], q.fixed);
      assert [] + [q.fixed] == [q.fixed];
    }
  }

  // ---------------------------------------------------------------------------------------------------------
  // The group with running aggregates
  // ---------------------------------------------------------------------------------------------------------

  class RunningGroup {
    var quotes: seq<Quote>
    var values: Values

    /** The values are what adding the quotes one by one gives, with the flags as they are now. */
    ghost predicate Coherent()
      reads this, quotes
    {
      AdjustAll(View(quotes)) == Some(values)
    }

    constructor ()
      ensures Coherent() && quotes == []
    {
      quotes, values := [], ZERO;
    }

    /** `trapped` stands for a division by zero. */
    method AdjustAggregateValues(q: Quote) returns (trapped: bool)
      modifies this`values
      ensures trapped <==> Adjust(old(values), q.Value()).None?
      ensures !trapped ==> Adjust(old(values), q.Value()) == Some(values)
      ensures !trapped ==> Adjusts(old(values), q.Value(), values)
    {
      AdjustMeans(values, q.Value());
      if q.used {
        return false;
      }
      var row := q.fixed;
      if values.totalVolume == 0 || values.minPrice > row.price {
        values := values.(minPrice := row.price);
      }
      if values.totalVolume == 0 || values.maxPrice < row.price {
        values := values.(maxPrice := row.price);
      }
      if values.maxVolume < row.volume {
        values := values.(maxVolume := row.volume);
      }
      values := values.(totalVolume := values.totalVolume + row.volume);
      if values.minPrice == values.maxPrice {
        values := values.(avgPrice := values.minPrice);
      } else if values.totalVolume == 0 {
        return true;
      } else {
        values := values.(
          avgPrice := values.avgPrice + TDiv((row.price - values.avgPrice) * row.volume, values.totalVolume));
      }
      values := values.(minQty := Max(values.minQty, row.minQty));
      return false;
    }

    /** Adding a quote to a coherent group keeps it coherent: the same as recalculating. */
    method AddQuote(q: Quote) returns (trapped: bool)
      modifies this
      ensures quotes == old(quotes) + [q]
      ensures old(Coherent()) ==> (trapped <==> AdjustAll(View(quotes)).None?)
      ensures old(Coherent()) && !trapped ==> Coherent()
    {
      quotes := quotes + [q];
      assert View(quotes)[..|old(quotes)|] == old(View(quotes));
      trapped := AdjustAggregateValues(q);
    }

    method RecalcAggregateValues() returns (trapped: bool)
      modifies this`values
      ensures trapped <==> AdjustAll(View(quotes)).None?
      ensures !trapped ==> Coherent()
    {
      ghost var rows := View(quotes);
      values := ZERO;
      trapped := false;
      var i := 0;
      while i < |quotes| && !trapped
        invariant i <= |quotes|
        invariant (if trapped then AdjustAll(rows[..i]).None? else AdjustAll(rows[..i]) == Some(values))
      {
        assert rows[..i + 1][..i] == rows[..i];
        trapped := AdjustAggregateValues(quotes[i]);
        i := i + 1;
      }
      if trapped {
        TrapStays(rows, i);
      } else {
        assert rows[..i] == rows;
      }
    }

    method AddQuotes(other: RunningGroup) returns (trapped: bool)
      modifies this
      ensures quotes == old(quotes) + old(other.quotes)
      ensures trapped <==> AdjustAll(View(quotes)).None?
      ensures !trapped ==> Coherent()
    {
      quotes := quotes + other.quotes;
      trapped := RecalcAggregateValues();
    }
  }

  lemma {:induction false} TrapStays(rows: seq<Row>, i: nat)
    requires i <= |rows| && AdjustAll(rows[..i]).None?
    ensures AdjustAll(rows).None?
  {
    if i == |rows| {
      assert rows[..i] == rows;
    } else {
      assert rows[..|rows| - 1][..i] == rows[..i];
      TrapStays(rows[..|rows| - 1], i);
    }
  }
}
