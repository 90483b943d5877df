/** Accounting of time: how long which number of threads was busy, and how long the queue had which size. */
module Utilization {
  /** A stretch of time with one level: a number of busy threads, or a queue size. */
  datatype Segment = Segment(level: nat, start: int, end: int)

  /** The segments tile the time between two points, without gap or overlap. */
  ghost predicate Tile(segments: seq<Segment>, start: int, end: int) {
    if segments == [] then start == end
    else segments[|segments| - 1].end == end && Tile(segments[..|segments| - 1], start, segments[|segments| - 1].start)
  }

  /** Time spent at a level. */
  function TimeAt(segments: seq<Segment>, level: nat): int {
    if segments == [] then 0
    else
      var last := segments[|segments| - 1];
      TimeAt(segments[..|segments| - 1], level) + if last.level == level then last.end - last.start else 0
  }

  lemma TileAppend(segments: seq<Segment>, start: int, s: Segment)
    requires Tile(segments, start, s.start)
    ensures Tile(segments + [s], start, s.end)
    ensures forall b :: TimeAt(segments + [s], b) == TimeAt(segments, b) + if s.level == b then s.end - s.start else 0
  {
    assert (segments + [s])[..|segments|] == segments;
  }

  // ---------------------------------------------------------------------------------------------------------
  // Durations by number of busy threads
  // ---------------------------------------------------------------------------------------------------------

  function Sum(durations: seq<int>): int {
    if durations == [] then 0 else Sum(durations[..|durations| - 1]) + durations[|durations| - 1]
  }

  lemma {:induction false} SumAdd(durations: seq<int>, k: nat, d: int)
    requires k < |durations|
    ensures Sum(durations[k := durations[k] + d]) == Sum(durations) + d
  {
    var n := |durations| - 1;
    var changed := durations[k := durations[k] + d];
    if k == n {
      assert changed[..n] == durations[..n];
    } else {
      SumAdd(durations[..n], k, d);
      assert changed[..n] == durations[..n][k := durations[k] + d];
    }
  }

  lemma {:induction false} SumOfZeros(n: nat)
    ensures Sum(seq(n, _ => 0)) == 0
  {
    if n > 0 {
      SumOfZeros(n - 1);
      assert seq(n, _ => 0)[..n - 1] == seq(n - 1, _ => 0);
    }
  }

  predicate NotNegative(durations: seq<int>) {
    forall i :: 0 <= i < |durations| ==> durations[i] >= 0
  }

  lemma {:induction false} PartOfSum(durations: seq<int>, k: nat)
    requires NotNegative(durations) && k < |durations|
    ensures 0 <= durations[k] <= Sum(durations)
  {
    var before := durations[..|durations| - 1];
    if k < |before| {
      PartOfSum(before, k);
    } else if before != [] {
      PartOfSum(before, 0);
    }
  }

  // ---------------------------------------------------------------------------------------------------------
  // Durations by queue size: an ordered map
  // ---------------------------------------------------------------------------------------------------------

  datatype Entry = Entry(size: nat, duration: int)

  type QueueSizeMap = seq<Entry>

  ghost predicate Ascending(m: QueueSizeMap) {
    forall i, j :: 0 <= i < j < |m| ==> m[i].size < m[j].size
  }

  /** Adds to the entry of the size, or inserts one. */
  function AddDuration(m: QueueSizeMap, size: nat, d: int): QueueSizeMap {
    if m == [] || size < m[0].size then [Entry(size, d)] + m
    else if m[0].size == size then [Entry(size, m[0].duration + d)] + m[1..]
    else [m[0]] + AddDuration(m[1..], size, d)
  }

  /** Duration of a size; zero without an entry. */
  function DurationOf(m: QueueSizeMap, size: nat): int {
    if m == [] then 0 else (if m[0].size == size then m[0].duration else 0) + DurationOf(m[1..], size)
  }

  function Total(m: QueueSizeMap): int {
    if m == [] then 0 else m[0].duration + Total(m[1..])
  }

  lemma {:induction false} AddTotal(m: QueueSizeMap, size: nat, d: int)
    ensures Total(AddDuration(m, size, d)) == Total(m) + d
  {
    if m == [] || size < m[0].size {
      assert ([Entry(size, d)] + m)[1..] == m;
    } else if m[0].size == size {
    } else {
      AddTotal(m[1..], size, d);
      assert ([m[0]] + AddDuration(m[1..], size, d))[1..] == AddDuration(m[1..], size, d);
    }
  }

  lemma {:induction false} AddAtSize(m: QueueSizeMap, size: nat, d: int, other: nat)
    ensures DurationOf(AddDuration(m, size, d), other) == DurationOf(m, other) + if size == other then d else 0
  {
    if m == [] || size < m[0].size {
      assert ([Entry(size, d)] + m)[1..] == m;
    } else if m[0].size == size {
    } else {
      AddAtSize(m[1..], size, d, other);
      assert ([m[0]] + AddDuration(m[1..], size, d))[1..] == AddDuration(m[1..], size, d);
    }
  }

  lemma {:induction false} AddEntries(m: QueueSizeMap, size: nat, d: int, e: Entry)
    requires e in AddDuration(m, size, d)
    ensures e in m
         || (e.size == size
             && (e.duration == d || exists f :: f in m && f.size == size && e.duration == f.duration + d))
  {
    if m == [] || size < m[0].size {
    } else if m[0].size == size {
      assert m[0] in m;
    } else if e != m[0] {
      AddEntries(m[1..], size, d, e);
    }
  }

  lemma {:induction false} AddAscending(m: QueueSizeMap, size: nat, d: int)
    requires Ascending(m)
    ensures Ascending(AddDuration(m, size, d))
  {
    if m != [] && m[0].size < size {
      var rest := AddDuration(m[1..], size, d);
      AddAscending(m[1..], size, d);
      forall j | 0 <= j < |rest| ensures m[0].size < rest[j].size {
        AddEntries(m[1..], size, d, rest[j]);
      }
    }
  }

  predicate DurationsNotNegative(m: QueueSizeMap) {
    forall i :: 0 <= i < |m| ==> m[i].duration >= 0
  }

  lemma AddNotNegative(m: QueueSizeMap, size: nat, d: int)
    requires DurationsNotNegative(m) && d >= 0
    ensures DurationsNotNegative(AddDuration(m, size, d))
  {
    var r := AddDuration(m, size, d);
    forall i | 0 <= i < |r| ensures r[i].duration >= 0 {
      AddEntries(m, size, d, r[i]);
    }
  }

  // ---------------------------------------------------------------------------------------------------------
  // Results
  // ---------------------------------------------------------------------------------------------------------

  datatype Result = Result(totalDuration: int, durations: seq<int>, queueSizeMap: QueueSizeMap) {
    predicate Valid() {
      totalDuration > 0 && |durations| > 1
    }

    function BusyRate(): real {
      if !Valid() then 0.0 else 1.0 - durations[0] as real / totalDuration as real
    }

    function FullyOccupiedRate(): real {
      if !Valid() then 0.0 else durations[|durations| - 1] as real / totalDuration as real
    }

    function MinQueueSize(): nat {
      if queueSizeMap == [] then 0 else queueSizeMap[0].size
    }

    function MaxQueueSize(): nat {
      if queueSizeMap == [] then 0 else queueSizeMap[|queueSizeMap| - 1].size
    }
  }

  const NO_RESULT := Result(0, [], [])

  /** The durations of a result account for all of its time. */
  ghost predicate Accounted(r: Result) {
    Sum(r.durations) == r.totalDuration && Ascending(r.queueSizeMap)
    && (r.queueSizeMap != [] ==> Total(r.queueSizeMap) == r.totalDuration)
  }

  lemma RateBetween(d: int, total: int)
    requires 0 <= d <= total && total > 0
    ensures 0.0 <= d as real / total as real <= 1.0
  {
  }

  /** The simple rates are fractions. */
  lemma RatesAreFractions(r: Result)
    requires Accounted(r) && NotNegative(r.durations)
    ensures 0.0 <= r.BusyRate() <= 1.0 && 0.0 <= r.FullyOccupiedRate() <= 1.0
  {
    if r.Valid() {
      PartOfSum(r.durations, 0);
      PartOfSum(r.durations, |r.durations| - 1);
      RateBetween(r.durations[0], r.totalDuration);
      RateBetween(r.durations[|r.durations| - 1], r.totalDuration);
    }
  }

  lemma {:induction false} SumFromSecond(durations: seq<int>)
    requires durations != []
    ensures Sum(durations) == durations[0] + Sum(durations[1..])
  {
    var n := |durations| - 1;
    if n == 0 {
      assert durations[..0] == [];
    } else {
      SumFromSecond(durations[..n]);
      assert durations[..n][1..] == durations[1..][..n - 1];
    }
  }

  lemma QuotientIs(a: int, b: int)
    requires b > 0
    ensures a as real / b as real * b as real == a as real
  {
  }

  /** The rates are the shares of the time with some thread busy, and with all threads busy. */
  lemma RatesMean(r: Result)
    requires r.Valid() && Accounted(r)
    ensures r.BusyRate() * r.totalDuration as real == Sum(r.durations[1..]) as real
    ensures r.FullyOccupiedRate() * r.totalDuration as real == r.durations[|r.durations| - 1] as real
  {
    SumFromSecond(r.durations);
    QuotientIs(r.durations[0], r.totalDuration);
    QuotientIs(r.durations[|r.durations| - 1], r.totalDuration);
    var share, total := r.durations[0] as real / r.totalDuration as real, r.totalDuration as real;
    assert (1.0 - share) * total == total - share * total;
  }

  lemma NoRates(r: Result)
    requires r.totalDuration <= 0 || |r.durations| <= 1
    ensures r.BusyRate() == 0.0 && r.FullyOccupiedRate() == 0.0
  {
  }

  /** Sizes are in ascending order: the least and the greatest are the first and the last, or 0 without any. */
  lemma ExtremeSizes(r: Result)
    requires Ascending(r.queueSizeMap)
    ensures forall e :: e in r.queueSizeMap ==> r.MinQueueSize() <= e.size <= r.MaxQueueSize()
    ensures r.queueSizeMap != [] ==> exists e :: e in r.queueSizeMap && e.size == r.MinQueueSize()
    ensures r.queueSizeMap != [] ==> exists e :: e in r.queueSizeMap && e.size == r.MaxQueueSize()
    ensures r.queueSizeMap == [] ==> r.MinQueueSize() == 0 == r.MaxQueueSize()
  {
    if r.queueSizeMap != [] {
      assert r.queueSizeMap[0] in r.queueSizeMap && r.queueSizeMap[|r.queueSizeMap| - 1] in r.queueSizeMap;
    }
  }

  /** Time, weighted with the number of threads that were busy. */
  function Weighted(durations: seq<int>): int {
    if durations == [] then 0
    else Weighted(durations[..|durations| - 1]) + (|durations| - 1) * durations[|durations| - 1]
  }

  /** Another stretch of time with `k` busy threads counts `k` times. */
  lemma {:induction false} WeightedAdd(durations: seq<int>, k: nat, d: int)
    requires k < |durations|
    ensures Weighted(durations[k := durations[k] + d]) == Weighted(durations) + k * d
  {
    var n := |durations| - 1;
    var changed := durations[k := durations[k] + d];
    if k == n {
      assert changed[..n] == durations[..n];
      assert n * (durations[n] + d) == n * durations[n] + n * d;
    } else {
      WeightedAdd(durations[..n], k, d);
      assert changed[..n] == durations[..n][k := durations[k] + d];
    }
  }

  lemma {:induction false} WeightedOfZeros(n: nat)
    ensures Weighted(seq(n, _ => 0)) == 0
  {
    if n > 0 {
      WeightedOfZeros(n - 1);
      assert seq(n, _ => 0)[..n - 1] == seq(n - 1, _ => 0);
    }
  }

  lemma {:induction false} WeightedBounds(durations: seq<int>, n: nat)
    requires durations != [] && NotNegative(durations) && |durations| <= n + 1
    ensures 0 <= Weighted(durations) <= n * (Sum(durations) - durations[0])
  {
    var k := |durations| - 1;
    if k > 0 {
      WeightedBounds(durations[..k], n);
      WeightedStep(Weighted(durations[..k]), Sum(durations[..k]) - durations[0], durations[k], k, n);
    } else {
      assert durations[..0] == [];
    }
  }

  lemma WeightedStep(w: int, rest: int, d: int, k: int, n: int)
    requires 0 <= w <= n * rest && d >= 0 && 0 <= k <= n
    ensures 0 <= w + k * d <= n * (rest + d)
  {
    assert n * (rest + d) == n * rest + n * d;
    assert k * d >= 0 && (n - k) * d >= 0;
    assert n * d == k * d + (n - k) * d;
  }

  function Utilization(r: Result): real {
    if !r.Valid() || r.totalDuration <= r.durations[0] then 0.0
    else
      Positive(|r.durations| - 1, r.totalDuration - r.durations[0]);
      Weighted(r.durations) as real / ((|r.durations| - 1) * (r.totalDuration - r.durations[0])) as real
  }

  lemma Positive(a: int, b: int)
    requires a > 0 && b > 0
    ensures a * b > 0
  {
  }

  /** The share of the threads that was busy, over the time in which any was. */
  lemma UtilizationMeans(r: Result)
    ensures var threads, busy := |r.durations| - 1, if r.durations == [] then 0 else r.totalDuration - r.durations[0];
            if r.totalDuration > 0 && threads > 0 && busy > 0
            then Utilization(r) * (threads * busy) as real == Weighted(r.durations) as real
            else Utilization(r) == 0.0
  {
    if r.Valid() && r.totalDuration > r.durations[0] {
      Positive(|r.durations| - 1, r.totalDuration - r.durations[0]);
      QuotientIs(Weighted(r.durations), (|r.durations| - 1) * (r.totalDuration - r.durations[0]));
    }
  }

  method AverageUtilization(r: Result) returns (result: real)
    ensures result == Utilization(r)
  {
    if !r.Valid() || r.totalDuration <= r.durations[0] {
      return 0.0;
    }
    var weightedDurationSum, ix := 0, 1;
    assert r.durations[..1][..0] == [];
    while ix < |r.durations|
      invariant 1 <= ix <= |r.durations| && weightedDurationSum == Weighted(r.durations[..ix])
    {
      assert r.durations[..ix + 1][..ix] == r.durations[..ix];
      weightedDurationSum := weightedDurationSum + ix * r.durations[ix];
      ix := ix + 1;
    }
    assert r.durations[..ix] == r.durations;
    Positive(|r.durations| - 1, r.totalDuration - r.durations[0]);
    result := weightedDurationSum as real / ((|r.durations| - 1) * (r.totalDuration - r.durations[0])) as real;
  }

  /** And so is the utilization while busy. */
  lemma UtilizationIsFraction(r: Result)
    requires Accounted(r) && NotNegative(r.durations)
    ensures 0.0 <= Utilization(r) <= 1.0
  {
    if r.Valid() && r.totalDuration > r.durations[0] {
      WeightedBounds(r.durations, |r.durations| - 1);
      Positive(|r.durations| - 1, r.totalDuration - r.durations[0]);
      RateBetween(Weighted(r.durations), (|r.durations| - 1) * (r.totalDuration - r.durations[0]));
    }
  }

  /** Sizes weighted with their share of the time. */
  function WeightedSizes(m: QueueSizeMap, total: int): real
    requires total > 0
  {
    if m == [] then 0.0
    else
      var last := m[|m| - 1];
      WeightedSizes(m[..|m| - 1], total) + last.size as real * (last.duration as real / total as real)
  }

  function AverageSize(r: Result): real {
    if r.queueSizeMap == [] || r.totalDuration <= 0 then 0.0 else WeightedSizes(r.queueSizeMap, r.totalDuration)
  }

  method AvgQueueSize(r: Result) returns (result: real)
    ensures result == AverageSize(r)
  {
    result := 0.0;
    if r.queueSizeMap != [] && r.totalDuration > 0 {
      var i := 0;
      while i < |r.queueSizeMap|
        invariant i <= |r.queueSizeMap| && result == WeightedSizes(r.queueSizeMap[..i], r.totalDuration)
      {
        assert r.queueSizeMap[..i + 1][..i] == r.queueSizeMap[..i];
        var e := r.queueSizeMap[i];
        result := result + e.size as real * (e.duration as real / r.totalDuration as real);
        i := i + 1;
      }
      assert r.queueSizeMap[..i] == r.queueSizeMap;
    }
  }

  function TotalFromEnd(m: QueueSizeMap): int {
    if m == [] then 0 else TotalFromEnd(m[..|m| - 1]) + m[|m| - 1].duration
  }

  lemma {:induction false} TotalsAgree(m: QueueSizeMap)
    ensures Total(m) == TotalFromEnd(m)
  {
    if |m| == 1 {
      assert m[1..] == [] && m[..0] == [];
    } else if |m| > 1 {
      var inner := m[1..][..|m| - 2];
      TotalsAgree(m[1..]);
      TotalsAgree(m[..|m| - 1]);
      TotalsAgree(inner);
      assert m[..|m| - 1][1..] == inner;
    }
  }

  function SizeTime(e: Entry): int {
    e.size * e.duration
  }

  /** Sizes times durations. */
  function SizeSum(m: QueueSizeMap, f: Entry -> int): int {
    if m == [] then 0 else SizeSum(m[..|m| - 1], f) + f(m[|m| - 1])
  }

  /** Sums over sizes add up. */
  lemma {:induction false} SizeSumConcat(a: QueueSizeMap, b: QueueSizeMap, f: Entry -> int)
    ensures SizeSum(a + b, f) == SizeSum(a, f) + SizeSum(b, f)
    ensures |a| == 1 ==> SizeSum(a, f) == f(a[0])
  {
    if |a| == 1 {
      assert a[..0] == [];
    }
    if b == [] {
      assert a + b == a;
    } else {
      assert (a + b)[..|a + b| - 1] == a + b[..|b| - 1];
      SizeSumConcat(a, b[..|b| - 1], f);
    }
  }

  lemma QuotientAdd(s: int, e: Entry, total: int)
    requires total > 0
    ensures s as real / total as real + e.size as real * (e.duration as real / total as real)
         == (s + SizeTime(e)) as real / total as real
  {
    var q := e.duration as real / total as real;
    assert q * total as real == e.duration as real;
    assert e.size as real * q * total as real == e.size as real * e.duration as real == SizeTime(e) as real;
  }

  lemma {:induction false} WeightedIsQuotient(m: QueueSizeMap, total: int)
    requires total > 0
    ensures WeightedSizes(m, total) == SizeSum(m, SizeTime) as real / total as real
  {
    if m != [] {
      WeightedIsQuotient(m[..|m| - 1], total);
      QuotientAdd(SizeSum(m[..|m| - 1], SizeTime), m[|m| - 1], total);
    }
  }

  lemma SizeStep(sum: int, a: int, size: int, d: int, low: int, high: int)
    requires d >= 0 && low <= size <= high && low * a <= sum <= high * a
    ensures low * (a + d) <= sum + size * d <= high * (a + d)
  {
    assert low * (a + d) == low * a + low * d && high * (a + d) == high * a + high * d;
    assert (size - low) * d >= 0 && (high - size) * d >= 0;
  }

  lemma {:induction false} SizeSumBounds(m: QueueSizeMap, low: nat, high: nat)
    requires DurationsNotNegative(m) && forall i :: 0 <= i < |m| ==> low <= m[i].size <= high
    ensures low * TotalFromEnd(m) <= SizeSum(m, SizeTime) <= high * TotalFromEnd(m)
  {
    if m != [] {
      var before, last := m[..|m| - 1], m[|m| - 1];
      SizeSumBounds(before, low, high);
      SizeStep(SizeSum(before, SizeTime), TotalFromEnd(before), last.size, last.duration, low, high);
    }
  }

  lemma QuotientBetween(sum: int, total: int, low: int, high: int)
    requires total > 0 && low * total <= sum <= high * total
    ensures low as real <= sum as real / total as real <= high as real
  {
    var q := sum as real / total as real;
    assert q * total as real == sum as real;
    assert (low * total) as real == low as real * total as real;
    assert (high * total) as real == high as real * total as real;
    assert q < low as real ==> (low as real - q) * total as real > 0.0;
    assert q > high as real ==> (q - high as real) * total as real > 0.0;
  }

  /** The average queue size is the time-weighted one, and lies between the least and the greatest size. */
  lemma AverageSizeBetween(r: Result)
    requires Accounted(r) && r.totalDuration > 0 && DurationsNotNegative(r.queueSizeMap)
    ensures AverageSize(r) == SizeSum(r.queueSizeMap, SizeTime) as real / r.totalDuration as real
    ensures r.MinQueueSize() as real <= AverageSize(r) <= r.MaxQueueSize() as real
  {
    WeightedIsQuotient(r.queueSizeMap, r.totalDuration);
    if r.queueSizeMap != [] {
      TotalsAgree(r.queueSizeMap);
      SizeSumBounds(r.queueSizeMap, r.MinQueueSize(), r.MaxQueueSize());
      QuotientBetween(SizeSum(r.queueSizeMap, SizeTime), r.totalDuration, r.MinQueueSize(), r.MaxQueueSize());
    }
  }
}
