/** Truncating averages: of the quotes that cover a volume, and of a group of quotes kept up to date one by one. */
module Averages {
  import opened Quotes

  /** Integer division that truncates toward zero. */
  function TDiv(a: int, b: int): (r: int)
    requires b != 0
  {
    if b < 0 then TDivPos(-a, -b) else TDivPos(a, b)
  }

  function TDivPos(a: int, b: int): (r: int)
    requires b > 0
    ensures -b < a - r * b < b
    ensures a >= 0 ==> 0 <= r * b <= a
    ensures a <= 0 ==> a <= r * b <= 0
  {
    if a >= 0 then a / b else -((-a) / b)
  }

  /** One step of a running average: the new price moves it by its share of the new total. */
  function Step(avg: int, price: int, volume: int, total: int): int
    requires total != 0
  {
    avg + TDiv((price - avg) * volume, total)
  }

  function Abs(x: int): nat {
    if x >= 0 then x else -x
  }

  /** `r` is the quotient of `a` and `b` without its fraction. */
  predicate Truncates(r: int, a: int, b: int) {
    (if a >= 0 then 0 <= r * b <= a else a <= r * b <= 0) && Abs(a - r * b) < Abs(b)
  }

  lemma TDivTruncates(a: int, b: int)
    requires b != 0
    ensures Truncates(TDiv(a, b), a, b)
  {
    if b < 0 {
      var r := TDivPos(-a, -b);
      assert r * (-b) == -(r * b);
    } else {
      var r := TDivPos(a, b);
    }
  }

  /** A step of the average is the price's share of the way to it, truncated, whatever the signs. */
  lemma StepTruncates(avg: int, price: int, volume: int, total: int)
    requires total != 0
    ensures Truncates(Step(avg, price, volume, total) - avg, (price - avg) * volume, total)
  {
    TDivTruncates((price - avg) * volume, total);
  }

  lemma Cancel(x: int, y: int, b: int)
    requires b > 0 && x * b <= y * b
    ensures x <= y
  {
    assert x >= y + 1 ==> x * b >= (y + 1) * b;
  }

  lemma Scale(x: int, v: int, b: int)
    requires 0 <= v <= b
    ensures x >= 0 ==> 0 <= x * v <= x * b
    ensures x <= 0 ==> x * b <= x * v <= 0
  {
    if x >= 0 {
      assert x * v + x * (b - v) == x * b;
    } else {
      assert (-x) * v + (-x) * (b - v) == (-x) * b;
    }
  }

  /** The average moves towards the price, and not beyond it. */
  lemma StepBetween(avg: int, price: int, volume: int, total: int)
    requires 0 <= volume <= total && total > 0
    ensures avg <= price ==> avg <= Step(avg, price, volume, total) <= price
    ensures avg >= price ==> price <= Step(avg, price, volume, total) <= avg
  {
    var x := price - avg;
    var r := TDiv(x * volume, total);
    Scale(x, volume, total);
    if x >= 0 {
      Cancel(0, r, total);
      Cancel(r, x, total);
    } else {
      Cancel(x, r, total);
      Cancel(r, 0, total);
    }
  }

  /** A step loses less than one unit of price over the total volume; a first step loses nothing. */
  lemma StepDrift(avg: int, price: int, volume: int, total: int)
    requires total > 0
    ensures Abs(Step(avg, price, volume, total) * total - (avg * (total - volume) + price * volume)) < total
    ensures volume == 0 ==> Step(avg, price, volume, total) == avg
    ensures volume == total ==> Step(avg, price, volume, total) == price
  {
    var x := (price - avg) * volume;
    var r := TDiv(x, total);
    assert (avg + r) * total == avg * total + r * total;
    assert x == price * volume - avg * volume;
    assert avg * (total - volume) == avg * total - avg * volume;
    if volume == total {
      var e := price - avg - r;
      assert e * total == x - r * total;
      ZeroBelow(e, total);
    }
    if volume == 0 {
      ZeroBelow(r, total);
    }
  }

  lemma ZeroBelow(e: int, total: int)
    requires total > 0 && -total < e * total < total
    ensures e == 0
  {
    assert e >= 1 ==> e * total >= total;
    assert e <= -1 ==> (-e) * total >= total;
  }

  // ---------------------------------------------------------------------------------------------------------
  // The quotes that cover a volume
  // ---------------------------------------------------------------------------------------------------------

  datatype Fill = Fill(price: int, volume: int)

  /** What the quotes, in order, contribute to a volume.  A quote that is used or wants to sell more is passed over. */
  function Fills(quotes: seq<Quote>, volume: int): (fills: seq<Fill>)
  {
    if quotes == [] || volume <= 0 then []
    else
      var current := if quotes[0].volume <= volume then quotes[0].volume else volume;
      if !quotes[0].used && volume >= quotes[0].minQty && current > 0
      then [Fill(quotes[0].price, current)] + Fills(quotes[1..], volume - current)
      else Fills(quotes[1..], volume)
  }

  predicate Positive(fills: seq<Fill>) {
    forall i :: 0 <= i < |fills| ==> fills[i].volume > 0
  }

  function VolumeOf(fills: seq<Fill>): int {
    if fills == [] then 0 else VolumeOf(fills[..|fills| - 1]) + fills[|fills| - 1].volume
  }

  /** Price times volume, summed up. */
  function Notional(fills: seq<Fill>): int {
    if fills == [] then 0 else Notional(fills[..|fills| - 1]) + fills[|fills| - 1].price * fills[|fills| - 1].volume
  }

  lemma {:induction false} VolumePositive(fills: seq<Fill>)
    requires Positive(fills)
    ensures VolumeOf(fills) >= 0 && (fills != [] ==> VolumeOf(fills) >= fills[|fills| - 1].volume > 0)
  {
    if fills != [] {
      VolumePositive(fills[..|fills| - 1]);
    }
  }

  /** The running average of the fills. */
  function Average(fills: seq<Fill>): int
    requires Positive(fills)
  {
    if fills == [] then 0
    else
      VolumePositive(fills);
      var last := fills[|fills| - 1];
      Step(Average(fills[..|fills| - 1]), last.price, last.volume, VolumeOf(fills))
  }

  /** Each fill moves the average by its share of the volume so far, truncated; a first fill sets it. */
  lemma AverageMoves(fills: seq<Fill>)
    requires Positive(fills) && fills != []
    ensures var before, last := fills[..|fills| - 1], fills[|fills| - 1];
            && Positive(before)
            && Truncates(Average(fills) - Average(before),
                         (last.price - Average(before)) * last.volume, VolumeOf(fills))
            && (before == [] ==> Average(fills) == last.price)
  {
    var before, last := fills[..|fills| - 1], fills[|fills| - 1];
    VolumePositive(fills);
    StepTruncates(Average(before), last.price, last.volume, VolumeOf(fills));
    if before == [] {
      StepDrift(0, last.price, last.volume, VolumeOf(fills));
    }
  }

  /** The volumes of fills add up. */
  lemma {:induction false} VolumeConcat(a: seq<Fill>, b: seq<Fill>)
    ensures VolumeOf(a + b) == VolumeOf(a) + VolumeOf(b)
    ensures |a| == 1 ==> VolumeOf(a) == a[0].volume
    ensures Notional(a + b) == Notional(a) + Notional(b)
    ensures |a| == 1 ==> Notional(a) == a[0].price * a[0].volume
  {
    if |a| == 1 {
      assert a[..0] == [];
    }
    if b == [] {
      assert a + b == a;
    } else {
      assert (a + b)[..|a + b| - 1] == a + b[..|b| - 1];
      VolumeConcat(a, b[..|b| - 1]);
    }
  }

  /** The running average lies between the least and the greatest price used. */
  lemma {:induction false} AverageBetween(fills: seq<Fill>, low: int, high: int)
    requires Positive(fills) && fills != []
    requires forall i :: 0 <= i < |fills| ==> low <= fills[i].price <= high
    ensures low <= Average(fills) <= high
  {
    var last := fills[|fills| - 1];
    var before := fills[..|fills| - 1];
    VolumePositive(fills);
    VolumePositive(before);
    if before == [] {
      StepDrift(0, last.price, last.volume, VolumeOf(fills));
    } else {
      AverageBetween(before, low, high);
      StepBetween(Average(before), last.price, last.volume, VolumeOf(fills));
    }
  }

  lemma DriftAdds(e: int, r: int, n: nat, before: int, total: int)
    requires Abs(e) <= n * before && 0 <= before <= total && Abs(r) <= total
    ensures Abs(e + r) <= (n + 1) * total
  {
    Scale(n, before, total);
    assert (n + 1) * total == n * total + total;
  }

  /** Truncation makes the running average differ from the exact one by at most the number of fills less one. */
  lemma {:induction false} AverageDrift(fills: seq<Fill>)
    requires Positive(fills) && fills != []
    ensures Abs(Average(fills) * VolumeOf(fills) - Notional(fills)) <= (|fills| - 1) * VolumeOf(fills)
  {
    var last := fills[|fills| - 1];
    var before := fills[..|fills| - 1];
    VolumePositive(fills);
    VolumePositive(before);
    if before == [] {
      StepDrift(0, last.price, last.volume, VolumeOf(fills));
    } else {
      AverageDrift(before);
      var avg := Average(before);
      StepDrift(avg, last.price, last.volume, VolumeOf(fills));
      assert VolumeOf(fills) - last.volume == VolumeOf(before);
      var e := avg * VolumeOf(before) - Notional(before);
      var r := Average(fills) * VolumeOf(fills) - (avg * VolumeOf(before) + last.price * last.volume);
      DriftAdds(e, r, |before| - 1, VolumeOf(before), VolumeOf(fills));
    }
  }

  /** The same as a statement about the quotient. */
  lemma AverageNearExact(fills: seq<Fill>)
    requires Positive(fills) && fills != []
    ensures VolumeOf(fills) > 0
    ensures var exact := Notional(fills) as real / VolumeOf(fills) as real;
            -((|fills| - 1) as real) <= Average(fills) as real - exact <= (|fills| - 1) as real
  {
    VolumePositive(fills);
    AverageDrift(fills);
    Quotient(Average(fills), Notional(fills), VolumeOf(fills), |fills| - 1);
  }

  lemma Quotient(a: int, n: int, v: int, m: int)
    requires v > 0 && Abs(a * v - n) <= m * v
    ensures -(m as real) <= a as real - n as real / v as real <= m as real
  {
    QuotientTimes(a as real, n as real, v as real);
    CancelReal(a as real - n as real / v as real, m as real, v as real);
    CancelReal(-(a as real - n as real / v as real), m as real, v as real);
  }

  lemma QuotientTimes(a: real, n: real, v: real)
    requires v > 0.0
    ensures (a - n / v) * v == a * v - n
  {
    var q := n / v;
    assert q * v == n;
    assert (a - q) * v == a * v - q * v;
  }

  lemma CancelReal(x: real, y: real, v: real)
    requires v > 0.0 && x * v <= y * v
    ensures x <= y
  {
    assert x > y ==> (x - y) * v > 0.0;
  }

  lemma {:induction false} VolumePrepend(fill: Fill, fills: seq<Fill>)
    ensures VolumeOf([fill] + fills) == fill.volume + VolumeOf(fills)
  {
    var all := [fill] + fills;
    if fills == [] {
      assert all[..0] == [];
    } else {
      assert all[..|all| - 1] == [fill] + fills[..|fills| - 1];
      VolumePrepend(fill, fills[..|fills| - 1]);
    }
  }

  /** The fill is (part of) an unused quote whose minimum quantity the volume reaches. */
  predicate TakenFrom(quote: Quote, fill: Fill, volume: int) {
    !quote.used && quote.price == fill.price && fill.volume <= quote.volume && quote.minQty <= volume
  }

  ghost predicate TakenFromAny(quotes: seq<Quote>, fill: Fill, volume: int) {
    exists k :: 0 <= k < |quotes| && TakenFrom(quotes[k], fill, volume)
  }

  lemma TakenLift(quotes: seq<Quote>, fill: Fill, less: int, volume: int)
    requires quotes != [] && TakenFromAny(quotes[1..], fill, less) && less <= volume
    ensures TakenFromAny(quotes, fill, volume)
  {
    var k :| 0 <= k < |quotes[1..]| && TakenFrom(quotes[1..][k], fill, less);
    assert TakenFrom(quotes[k + 1], fill, volume);
  }

  /** The fills are positive, at prices of unused quotes, and never cover more than was asked for. */
  lemma {:induction false} FillsFromQuotes(quotes: seq<Quote>, volume: int)
    ensures Positive(Fills(quotes, volume)) && |Fills(quotes, volume)| <= |quotes|
    ensures forall fill :: fill in Fills(quotes, volume) ==> TakenFromAny(quotes, fill, volume)
    ensures volume >= 0 ==> VolumeOf(Fills(quotes, volume)) <= volume
  {
    if quotes != [] && volume > 0 {
      var current := if quotes[0].volume <= volume then quotes[0].volume else volume;
      var taken := !quotes[0].used && volume >= quotes[0].minQty && current > 0;
      var left := if taken then volume - current else volume;
      var rest := Fills(quotes[1..], left);
      FillsFromQuotes(quotes[1..], left);
      forall fill | fill in rest ensures TakenFromAny(quotes, fill, volume) {
        TakenLift(quotes, fill, left, volume);
      }
      if taken {
        VolumePrepend(Fill(quotes[0].price, current), rest);
        assert TakenFrom(quotes[0], Fill(quotes[0].price, current), volume);
      }
    }
  }

  /** What is left of the request before the fill at position `i`. */
  function Left(request: int, fills: seq<Fill>, i: nat): int
    requires i <= |fills|
  {
    request - VolumeOf(fills[..i])
  }

  /** The quote at `at[i]` is where the fill at `i` comes from: all of it, or what is left of the request. */
  ghost predicate FilledAt(quotes: seq<Quote>, request: int, fills: seq<Fill>, at: seq<nat>, i: nat)
    requires i < |fills| == |at| && at[i] < |quotes|
  {
    var quote, left := quotes[at[i]], Left(request, fills, i);
    && !quote.used && quote.minQty <= left && fills[i].price == quote.price
    && fills[i].volume == (if quote.volume <= left then quote.volume else left) > 0
  }

  /** The number of fills that come from quotes before position `j`. */
  ghost predicate FilledBefore(at: seq<nat>, j: nat, n: nat) {
    n <= |at| && (forall i :: 0 <= i < n ==> at[i] < j) && (forall i :: n <= i < |at| ==> at[i] >= j)
  }

  /** Quotes are taken in their order; one that is passed over is used, empty, or wants to sell more than is left. */
  ghost predicate Greedy(quotes: seq<Quote>, request: int, fills: seq<Fill>, at: seq<nat>) {
    && |at| == |fills|
    && (forall i, j :: 0 <= i < j < |at| ==> at[i] < at[j])
    && (forall i :: 0 <= i < |at| ==> at[i] < |quotes| && FilledAt(quotes, request, fills, at, i))
    && (forall j: nat, n: nat :: j < |quotes| && j !in at && FilledBefore(at, j, n) ==>
          var left := Left(request, fills, n);
          quotes[j].used || quotes[j].volume <= 0 || quotes[j].minQty > left || left <= 0)
  }

  function Shifted(at: seq<nat>): (r: seq<nat>)
    ensures |r| == |at| && forall i :: 0 <= i < |at| ==> r[i] == at[i] + 1
  {
    seq(|at|, i requires 0 <= i < |at| => at[i] + 1)
  }

  lemma LeftShifts(request: int, fill: Fill, fills: seq<Fill>, i: nat)
    requires i <= |fills|
    ensures Left(request, [fill] + fills, i + 1) == Left(request - fill.volume, fills, i)
  {
    assert ([fill] + fills)[..i + 1] == [fill] + fills[..i];
    VolumePrepend(fill, fills[..i]);
  }

  lemma LeftAtMost(request: int, fills: seq<Fill>, n: nat)
    requires Positive(fills) && n <= |fills|
    ensures Left(request, fills, n) <= request
  {
    VolumePositive(fills[..n]);
  }

  lemma GreedyTaken(quotes: seq<Quote>, request: int, fill: Fill, fills: seq<Fill>, at: seq<nat>)
    requires quotes != [] && !quotes[0].used && quotes[0].minQty <= request && fill.price == quotes[0].price
    requires fill.volume == (if quotes[0].volume <= request then quotes[0].volume else request) > 0
    requires Greedy(quotes[1..], request - fill.volume, fills, at)
    ensures Greedy(quotes, request, [fill] + fills, [0] + Shifted(at))
  {
    var all, places := [fill] + fills, [0] + Shifted(at);
    assert all[..0] == [];
    forall i | 0 <= i < |places| ensures places[i] < |quotes| && FilledAt(quotes, request, all, places, i) {
      if i > 0 {
        LeftShifts(request, fill, fills, i - 1);
        assert FilledAt(quotes[1..], request - fill.volume, fills, at, i - 1);
      }
    }
    forall j: nat, n: nat | j < |quotes| && j !in places && FilledBefore(places, j, n)
      ensures var left := Left(request, all, n);
              quotes[j].used || quotes[j].volume <= 0 || quotes[j].minQty > left || left <= 0
    {
      PassedShifts(at, j, n);
      LeftShifts(request, fill, fills, n - 1);
      assert quotes[1..][j - 1] == quotes[j];
    }
  }

  lemma PassedShifts(at: seq<nat>, j: nat, n: nat)
    requires j !in [0] + Shifted(at) && FilledBefore([0] + Shifted(at), j, n)
    ensures j > 0 && n > 0 && j - 1 !in at && FilledBefore(at, j - 1, n - 1)
  {
    var places := [0] + Shifted(at);
    assert places[0] == 0;
    forall i | 0 <= i < |at|
      ensures at[i] != j - 1 && (i < n - 1 ==> at[i] < j - 1) && (i >= n - 1 ==> at[i] >= j - 1)
    {
      assert places[i + 1] == at[i] + 1;
    }
  }

  lemma GreedyPassed(quotes: seq<Quote>, request: int, fills: seq<Fill>, at: seq<nat>)
    requires quotes != [] && (quotes[0].used || quotes[0].volume <= 0 || quotes[0].minQty > request || request <= 0)
    requires Greedy(quotes[1..], request, fills, at)
    ensures Greedy(quotes, request, fills, Shifted(at))
  {
    var places := Shifted(at);
    forall i | 0 <= i < |places| ensures places[i] < |quotes| && FilledAt(quotes, request, fills, places, i) {
      assert FilledAt(quotes[1..], request, fills, at, i);
    }
    forall j: nat, n: nat | j < |quotes| && j !in places && FilledBefore(places, j, n)
      ensures var left := Left(request, fills, n);
              quotes[j].used || quotes[j].volume <= 0 || quotes[j].minQty > left || left <= 0
    {
      if j == 0 {
        forall i | 0 <= i < |fills| ensures fills[i].volume > 0 {
          assert FilledAt(quotes[1..], request, fills, at, i);
        }
        LeftAtMost(request, fills, n);
      } else {
        forall i | 0 <= i < |at| ensures at[i] != j - 1 && (i < n ==> at[i] < j - 1) && (i >= n ==> at[i] >= j - 1) {
          assert places[i] == at[i] + 1;
        }
        assert FilledBefore(at, j - 1, n) && quotes[1..][j - 1] == quotes[j];
      }
    }
  }

  /** The fills are what quotes taken greedily, in their order, contribute. */
  lemma {:induction false} FillsAreGreedy(quotes: seq<Quote>, request: int) returns (at: seq<nat>)
    ensures Greedy(quotes, request, Fills(quotes, request), at)
  {
    if quotes == [] {
      return [];
    }
    var current := if quotes[0].volume <= request then quotes[0].volume else request;
    if request <= 0 {
      var rest := FillsAreGreedy(quotes[1..], request);
      GreedyPassed(quotes, request, [], rest);
      return Shifted(rest);
    } else if !quotes[0].used && request >= quotes[0].minQty && current > 0 {
      var rest := FillsAreGreedy(quotes[1..], request - current);
      GreedyTaken(quotes, request, Fill(quotes[0].price, current), Fills(quotes[1..], request - current), rest);
      return [0] + Shifted(rest);
    } else {
      var rest := FillsAreGreedy(quotes[1..], request);
      GreedyPassed(quotes, request, Fills(quotes[1..], request), rest);
      return Shifted(rest);
    }
  }

  /** What unused quotes offer a request of `limit`: positive volumes whose minimum quantity is no greater. */
  function Offered(quotes: seq<Quote>, limit: int): (v: int)
    ensures v >= 0
  {
    if quotes == [] then 0
    else
      Offered(quotes[1..], limit)
      + if quotes[0].used || quotes[0].volume <= 0 || quotes[0].minQty > limit then 0 else quotes[0].volume
  }

  lemma {:induction false} OfferedGrows(quotes: seq<Quote>, less: int, more: int)
    requires less <= more
    ensures Offered(quotes, less) <= Offered(quotes, more)
  {
    if quotes != [] {
      OfferedGrows(quotes[1..], less, more);
    }
  }

  /**
    The fills cover the request, or else all that was on offer to what remains of it: a quote is only passed over if
    it wants to sell more than what remains in the end.
   */
  lemma {:induction false} FillsCoverRequest(quotes: seq<Quote>, volume: int)
    requires volume >= 0
    ensures var covered := VolumeOf(Fills(quotes, volume));
            && 0 <= covered <= volume && covered <= Offered(quotes, volume)
            && (covered < volume ==> Offered(quotes, volume - covered) <= covered)
  {
    if quotes != [] && volume > 0 {
      var current := if quotes[0].volume <= volume then quotes[0].volume else volume;
      var taken := !quotes[0].used && volume >= quotes[0].minQty && current > 0;
      var left := if taken then volume - current else volume;
      FillsCoverRequest(quotes[1..], left);
      if taken {
        VolumePrepend(Fill(quotes[0].price, current), Fills(quotes[1..], left));
      }
      OfferedGrows(quotes[1..], left, volume);
    }
  }

  /** So without minimum quantities the request is covered as far as volume is on offer. */
  lemma FillsCoverWhatIsOffered(quotes: seq<Quote>, volume: int)
    requires volume >= 0 && forall i :: 0 <= i < |quotes| ==> quotes[i].minQty <= 0
    ensures VolumeOf(Fills(quotes, volume))
         == if volume <= Offered(quotes, volume) then volume else Offered(quotes, volume)
  {
    FillsCoverRequest(quotes, volume);
    SameOffer(quotes, volume, volume - VolumeOf(Fills(quotes, volume)));
  }

  lemma {:induction false} SameOffer(quotes: seq<Quote>, a: int, b: int)
    requires a >= 0 && b >= 0 && forall i :: 0 <= i < |quotes| ==> quotes[i].minQty <= 0
    ensures Offered(quotes, a) == Offered(quotes, b)
  {
    if quotes != [] {
      SameOffer(quotes[1..], a, b);
    }
  }

  /** What the caller gets: an average between the prices on offer, near the exact one, of no more than the request. */
  lemma PartialAverage(quotes: seq<Quote>, request: int, low: int, high: int)
    requires forall q :: q in quotes && !q.used && q.minQty <= request ==> low <= q.price <= high
    requires Fills(quotes, request) != []
    ensures Positive(Fills(quotes, request)) && 0 < VolumeOf(Fills(quotes, request)) <= request
    ensures low <= Average(Fills(quotes, request)) <= high
    ensures Abs(Average(Fills(quotes, request)) * VolumeOf(Fills(quotes, request)) - Notional(Fills(quotes, request)))
         <= (|Fills(quotes, request)| - 1) * VolumeOf(Fills(quotes, request))
  {
    var fills := Fills(quotes, request);
    FillsFromQuotes(quotes, request);
    VolumePositive(fills);
    forall i | 0 <= i < |fills| ensures low <= fills[i].price <= high {
      assert fills[i] in fills;
      assert TakenFromAny(quotes, fills[i], request);
    }
    AverageBetween(fills, low, high);
    AverageDrift(fills);
  }
}
