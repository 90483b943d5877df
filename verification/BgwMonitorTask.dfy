/** A monitoring task (`BgwMonitor::Task`).  Time stamps are what the caller passes or else the clock's reading. */
module MonitorTasks {
  import opened Wrappers
  import opened Utilization

  /** A result, with the time it covers. */
  datatype Report = Report(start: int, end: int, result: Result)

  /** Reports cover the time from `start` to `end` without gap or overlap, and their durations account for all of it. */
  ghost predicate ReportsTile(reports: seq<Report>, start: int, end: int) {
    if reports == [] then start == end
    else
      var last := reports[|reports| - 1];
      && last.end == end && last.result.totalDuration == last.end - last.start && Accounted(last.result)
      && ReportsTile(reports[..|reports| - 1], start, last.start)
  }

  /** Each duration is the time spent at its level. */
  ghost predicate BusyHistogram(r: Result, segments: seq<Segment>) {
    forall b: nat :: b < |r.durations| ==> r.durations[b] == TimeAt(segments, b)
  }

  ghost predicate QueueHistogram(r: Result, segments: seq<Segment>) {
    forall k :: DurationOf(r.queueSizeMap, k) == TimeAt(segments, k)
  }

  class Task {
    var active: bool
    var firstStart: int
    var latestStart: int
    var currentBusy: nat
    var durations: seq<int>
    const monitorQueueSize: bool
    var latestQueueSizeUpdate: int
    var currentQueueSize: nat
    var queueSizeMap: QueueSizeMap
    ghost const created: int
    ghost var busySegments: seq<Segment>   // changes of the busy count since the last result
    ghost var queueSegments: seq<Segment>  // changes of the queue size since the last result
    ghost var reports: seq<Report>         // all results so far

    /** The durations are those of the segments since the last result. */
    ghost predicate BusyValid()
      reads this
    {
      && (active ==> currentBusy < |durations| && |durations| >= 2)
      && Sum(durations) == latestStart - firstStart
      && Tile(busySegments, firstStart, latestStart)
      && forall b :: 0 <= b < |durations| ==> durations[b] == TimeAt(busySegments, b)
    }

    ghost predicate QueueValid()
      reads this
    {
      && Ascending(queueSizeMap)
      && (monitorQueueSize ==>
            && Total(queueSizeMap) == latestQueueSizeUpdate - firstStart
            && Tile(queueSegments, firstStart, latestQueueSizeUpdate)
            && forall k :: DurationOf(queueSizeMap, k) == TimeAt(queueSegments, k))
    }

    /** All time since the task was created is accounted for: by the results, and by what is collected for the next. */
    ghost predicate Valid()
      reads this
    {
      BusyValid() && QueueValid() && ReportsTile(reports, created, firstStart)
    }

    /** No duration is negative.  That takes time stamps that do not go back. */
    ghost predicate Forward()
      reads this
    {
      NotNegative(durations) && DurationsNotNegative(queueSizeMap)
    }

    constructor (maxThreads: nat, busyThreads: nat, queueSize: Option<nat>, timestamp: int)
      ensures Valid() && Forward() && reports == []
      ensures active <==> maxThreads > 0 && busyThreads <= maxThreads
      ensures active ==> firstStart == timestamp && currentBusy == busyThreads && |durations| == maxThreads + 1
      ensures monitorQueueSize == queueSize.Some? && (queueSize.Some? ==> currentQueueSize == queueSize.value)
    {
      var isActive := maxThreads > 0 && busyThreads <= maxThreads;
      var start := if isActive then timestamp else 0;
      active, firstStart, latestStart := isActive, start, start;
      currentBusy := if isActive then busyThreads else 0;
      durations := if isActive then seq(maxThreads + 1, _ => 0) else [];
      monitorQueueSize := queueSize.Some?;
      latestQueueSizeUpdate := if queueSize.Some? then start else 0;
      currentQueueSize := if queueSize.Some? then queueSize.value else 0;
      queueSizeMap := [];
      created, busySegments, queueSegments, reports := start, [], [], [];
      SumOfZeros(maxThreads + 1);
    }

    method Stop()
      requires Valid()
      modifies this`active
      ensures Valid() && !active
    {
      active := false;
    }

    /** Ends the current stretch of time at its level. */
    method CloseBusy(ts: int)
      requires BusyValid() && currentBusy < |durations|
      modifies this`durations, this`latestStart, this`busySegments
      ensures BusyValid() && latestStart == ts
      ensures busySegments == old(busySegments) + [Segment(currentBusy, old(latestStart), ts)]
      ensures durations == old(durations[currentBusy := durations[currentBusy] + (ts - latestStart)])
    {
      SumAdd(durations, currentBusy, ts - latestStart);
      TileAppend(busySegments, firstStart, Segment(currentBusy, latestStart, ts));
      durations := durations[currentBusy := durations[currentBusy] + (ts - latestStart)];
      busySegments := busySegments + [Segment(currentBusy, latestStart, ts)];
      latestStart := ts;
    }

    method UpdateBusyThreads(busyThreads: nat, ts: int) returns (ok: bool)
      requires Valid()
      modifies this`durations, this`latestStart, this`busySegments, this`currentBusy
      ensures Valid()
      ensures ok <==> active && busyThreads < |durations|
      ensures |durations| == old(|durations|) && currentBusy == if ok then busyThreads else old(currentBusy)
      ensures old(Forward()) && ts >= old(latestStart) ==> Forward()
      ensures busySegments == if ok && busyThreads != old(currentBusy)
                              then old(busySegments) + [Segment(old(currentBusy), old(latestStart), ts)]
                              else old(busySegments)
    {
      if !active || busyThreads >= |durations| {
        return false;
      }
      if busyThreads == currentBusy {
        return true;
      }
      CloseBusy(ts);
      currentBusy := busyThreads;
      return true;
    }

    /** The loop-free search and insertion in the map of queue sizes. */
    method UpdateQueueSizeMap(ts: int)
      requires QueueValid() && monitorQueueSize
      modifies this`queueSizeMap, this`latestQueueSizeUpdate, this`queueSegments
      ensures QueueValid() && latestQueueSizeUpdate == ts
      ensures queueSegments == old(queueSegments) + [Segment(currentQueueSize, old(latestQueueSizeUpdate), ts)]
      ensures queueSizeMap == old(AddDuration(queueSizeMap, currentQueueSize, ts - latestQueueSizeUpdate))
    {
      var d := ts - latestQueueSizeUpdate;
      AddTotal(queueSizeMap, currentQueueSize, d);
      AddAscending(queueSizeMap, currentQueueSize, d);
      forall k: nat ensures DurationOf(AddDuration(queueSizeMap, currentQueueSize, d), k)
                         == DurationOf(queueSizeMap, k) + if currentQueueSize == k then d else 0
      {
        AddAtSize(queueSizeMap, currentQueueSize, d, k);
      }
      TileAppend(queueSegments, firstStart, Segment(currentQueueSize, latestQueueSizeUpdate, ts));
      queueSegments := queueSegments + [Segment(currentQueueSize, latestQueueSizeUpdate, ts)];
      queueSizeMap := AddDuration(queueSizeMap, currentQueueSize, d);
      latestQueueSizeUpdate := ts;
    }

    method UpdateQueueSize(queueSize: nat, ts: int) returns (ok: bool)
      requires Valid()
      modifies this`queueSizeMap, this`latestQueueSizeUpdate, this`queueSegments, this`currentQueueSize
      ensures Valid()
      ensures ok <==> monitorQueueSize && active
      ensures currentQueueSize == if ok then queueSize else old(currentQueueSize)
      ensures old(Forward()) && ts >= old(latestQueueSizeUpdate) ==> Forward()
      ensures queueSegments == if ok && queueSize != old(currentQueueSize)
                               then old(queueSegments)
                                    + [Segment(old(currentQueueSize), old(latestQueueSizeUpdate), ts)]
                               else old(queueSegments)
    {
      if !monitorQueueSize || !active {
        return false;
      }
      if queueSize == currentQueueSize {
        return true;
      }
      if old(Forward()) && ts >= latestQueueSizeUpdate {
        AddNotNegative(queueSizeMap, currentQueueSize, ts - latestQueueSizeUpdate);
      }
      UpdateQueueSizeMap(ts);
      currentQueueSize := queueSize;
      return true;
    }

    /** Closes both current stretches; the result covers the time since the last one, exactly. */
    method GetResultAndReset(ts: int) returns (result: Result)
      requires Valid()
      modifies this
      ensures Valid() && active == old(active)
      ensures currentBusy == old(currentBusy) && currentQueueSize == old(currentQueueSize)
      ensures !active ==> result == NO_RESULT && reports == old(reports)
      ensures active ==> reports == old(reports) + [Report(old(firstStart), ts, result)] && firstStart == ts
      ensures active ==> result.totalDuration == ts - old(firstStart) && Accounted(result)
      ensures active ==> |result.durations| == old(|durations|) == |durations|
      ensures active ==> BusyHistogram(result, old(busySegments) + [Segment(currentBusy, old(latestStart), ts)])
      ensures active && monitorQueueSize ==>
                QueueHistogram(result, old(queueSegments) + [Segment(currentQueueSize, old(latestQueueSizeUpdate), ts)])
      ensures active && old(Forward()) && ts >= old(latestStart)
              && (monitorQueueSize ==> ts >= old(latestQueueSizeUpdate)) ==>
                Forward() && NotNegative(result.durations) && DurationsNotNegative(result.queueSizeMap)
    {
      if !active {
        return NO_RESULT;
      }
      var durationSize := |durations|;
      result := TakeResult(ts);
      StartAgain(ts, durationSize, result);
    }

    method TakeResult(ts: int) returns (result: Result)
      requires BusyValid() && QueueValid() && active
      modifies this`durations, this`latestStart, this`busySegments
      modifies this`queueSizeMap, this`latestQueueSizeUpdate, this`queueSegments
      ensures Ascending(queueSizeMap) && result.totalDuration == ts - firstStart && Accounted(result)
      ensures |result.durations| == old(|durations|)
      ensures BusyHistogram(result, old(busySegments) + [Segment(currentBusy, old(latestStart), ts)])
      ensures monitorQueueSize ==>
                QueueHistogram(result, old(queueSegments) + [Segment(currentQueueSize, old(latestQueueSizeUpdate), ts)])
      ensures old(Forward()) && ts >= old(latestStart) && (monitorQueueSize ==> ts >= old(latestQueueSizeUpdate)) ==>
                NotNegative(result.durations) && DurationsNotNegative(result.queueSizeMap)
                && DurationsNotNegative(queueSizeMap)
    {
      CloseBusy(ts);
      CloseQueue(ts);
      result := Result(ts - firstStart, durations, if monitorQueueSize then queueSizeMap else []);
    }

    method CloseQueue(ts: int)
      requires QueueValid()
      modifies this`queueSizeMap, this`latestQueueSizeUpdate, this`queueSegments
      ensures QueueValid()
      ensures monitorQueueSize ==>
                latestQueueSizeUpdate == ts && queueSizeMap != []
                && queueSegments == old(queueSegments) + [Segment(currentQueueSize, old(latestQueueSizeUpdate), ts)]
      ensures old(DurationsNotNegative(queueSizeMap)) && (monitorQueueSize ==> ts >= old(latestQueueSizeUpdate))
              ==> DurationsNotNegative(queueSizeMap)
    {
      if monitorQueueSize {
        if DurationsNotNegative(queueSizeMap) && ts >= latestQueueSizeUpdate {
          AddNotNegative(queueSizeMap, currentQueueSize, ts - latestQueueSizeUpdate);
        }
        UpdateQueueSizeMap(ts);
      }
    }

    /** Counting starts again, from zero. */
    method StartAgain(ts: int, durationSize: nat, ghost result: Result)
      requires ReportsTile(reports, created, firstStart) && Accounted(result) && result.totalDuration == ts - firstStart
      requires durationSize >= 2 && currentBusy < durationSize && Ascending(queueSizeMap)
      modifies this`latestStart, this`firstStart, this`durations, this`latestQueueSizeUpdate, this`queueSizeMap,
               this`busySegments, this`queueSegments, this`reports
      ensures Valid() && firstStart == ts && durations == seq(durationSize, _ => 0)
      ensures queueSizeMap == if monitorQueueSize then [] else old(queueSizeMap)
      ensures reports == old(reports) + [Report(old(firstStart), ts, result)]
    {
      ReportsAppend(reports, created, Report(firstStart, ts, result));
      reports := reports + [Report(firstStart, ts, result)];
      latestStart, firstStart := ts, ts;
      durations := seq(durationSize, _ => 0);
      SumOfZeros(durationSize);
      busySegments := [];
      if monitorQueueSize {
        latestQueueSizeUpdate := ts;
        queueSizeMap, queueSegments := [], [];
      }
    }
  }

  lemma ReportsAppend(reports: seq<Report>, start: int, r: Report)
    requires ReportsTile(reports, start, r.start) && Accounted(r.result) && r.result.totalDuration == r.end - r.start
    ensures ReportsTile(reports + [r], start, r.end)
  {
    assert (reports + [r])[..|reports|] == reports;
  }

  /** Over any number of results the total durations add up to the time between the first and the last. */
  lemma {:induction false} TotalsAddUp(reports: seq<Report>, start: int, end: int)
    requires ReportsTile(reports, start, end)
    ensures TotalTime(reports) == end - start
    ensures reports != [] ==> reports[0].start == start && reports[|reports| - 1].end == end
    ensures forall i :: 0 < i < |reports| ==> reports[i].start == reports[i - 1].end
  {
    if reports != [] {
      var before := reports[..|reports| - 1];
      TotalsAddUp(before, start, reports[|reports| - 1].start);
      assert forall i :: 0 <= i < |before| ==> before[i] == reports[i];
    }
  }

  function TotalTime(reports: seq<Report>): int {
    if reports == [] then 0 else TotalTime(reports[..|reports| - 1]) + reports[|reports| - 1].result.totalDuration
  }
}
