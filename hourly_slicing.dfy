/**
 * The hourly breakdown: the requested range is cut into buckets of at most
 * an hour, the first starting at the range's start rounded down to the hour;
 * each bucket's statistics are fetched, and a bucket whose fetch fails is
 * skipped while the cursor still moves on. Also the end-time clamp and the
 * operation time behind a live stream's totals.
 */
module HourlySlicing {
  import opened Wrappers
  import opened LocalTime
  import opened ShiftBreaks
  import opened ProductionData
  import opened Report

  /** One emitted hour. */
  datatype Bucket = Bucket(hourStart: int, hourEnd: int, successQty: nat, failQty: nat, totalQty: nat, quality: real)

  /** Fetches the models' statistics of one bucket `[hourStart, hourEnd]`; `None` when the query fails. */
  type Fetch = (int, int) -> Option<seq<ModelStats>>

  /** The time windows of the buckets from `cursor` up to `endTime`: each ends an hour after it
      starts or at `endTime`, whichever is first, and the next one starts where it ends. */
  function Slices(cursor: int, endTime: int): seq<(int, int)>
    decreases endTime - cursor
  {
    if cursor >= endTime then []
    else
      var hourEnd := Min(cursor + SecondsPerHour, endTime);
      [(cursor, hourEnd)] + Slices(hourEnd, endTime)
  }

  function SumTotal(models: seq<ModelStats>): nat
  {
    if |models| == 0 then 0 else SumTotal(models[..|models| - 1]) + models[|models| - 1].totalQty
  }

  /** A bucket from the statistics fetched for its window. */
  function MakeBucket(hourStart: int, hourEnd: int, hourData: seq<ModelStats>): Bucket
  {
    var hourSuccess := SumSuccess(hourData);
    var hourFail := SumFail(hourData);
    Bucket(hourStart, hourEnd, hourSuccess, hourFail, SumTotal(hourData), Quality(hourSuccess, hourFail))
  }

  /** The buckets emitted for `slices`: one per window whose fetch succeeds, in order. */
  function Emit(slices: seq<(int, int)>, fetch: Fetch): seq<Bucket>
  {
    if |slices| == 0 then []
    else
      var hourData := fetch(slices[0].0, slices[0].1);
      (if hourData.Some? then [MakeBucket(slices[0].0, slices[0].1, hourData.value)] else []) + Emit(slices[1..], fetch)
  }

  function BucketsSuccess(buckets: seq<Bucket>): nat
  {
    if |buckets| == 0 then 0 else BucketsSuccess(buckets[..|buckets| - 1]) + buckets[|buckets| - 1].successQty
  }

  function BucketsFail(buckets: seq<Bucket>): nat
  {
    if |buckets| == 0 then 0 else BucketsFail(buckets[..|buckets| - 1]) + buckets[|buckets| - 1].failQty
  }

  function BucketsTotal(buckets: seq<Bucket>): nat
  {
    if |buckets| == 0 then 0 else BucketsTotal(buckets[..|buckets| - 1]) + buckets[|buckets| - 1].totalQty
  }

  // ---------------------------------------------------------------------
  // The shape of the buckets
  // ---------------------------------------------------------------------

  /** Bucket `i` starts `i` hours after the cursor, ends an hour later or at `endTime`, and is not empty. */
  lemma {:induction false} SlicesShape(cursor: int, endTime: int)
    ensures forall i :: 0 <= i < |Slices(cursor, endTime)| ==>
              && Slices(cursor, endTime)[i].0 == cursor + 3600 * i
              && Slices(cursor, endTime)[i].1 == Min(cursor + 3600 * (i + 1), endTime)
              && Slices(cursor, endTime)[i].0 < Slices(cursor, endTime)[i].1
    decreases endTime - cursor
  {
    if cursor < endTime {
      var hourEnd := Min(cursor + 3600, endTime);
      SlicesShape(hourEnd, endTime);
      var sl := Slices(cursor, endTime);
      var rest := Slices(hourEnd, endTime);
      assert sl == [(cursor, hourEnd)] + rest;
      if |rest| > 0 {
        assert hourEnd == cursor + 3600;
        forall i | 1 <= i < |sl|
          ensures sl[i].0 == cursor + 3600 * i
          ensures sl[i].1 == Min(cursor + 3600 * (i + 1), endTime)
        {
          assert sl[i] == rest[i - 1];
        }
      }
    }
  }

  /** Consecutive buckets meet: each starts where the previous one ends. */
  lemma SlicesContiguous(cursor: int, endTime: int)
    ensures forall i :: 0 <= i < |Slices(cursor, endTime)| - 1 ==>
              Slices(cursor, endTime)[i].1 == Slices(cursor, endTime)[i + 1].0
  {
    SlicesShape(cursor, endTime);
    var sl := Slices(cursor, endTime);
    forall i | 0 <= i < |sl| - 1
      ensures sl[i].1 == sl[i + 1].0
    {
      assert sl[i + 1].0 < sl[i + 1].1 <= endTime;
    }
  }

  /** There are buckets exactly when the cursor is before the end; then the first starts at
      the cursor and the last ends at the end. */
  lemma {:induction false} SlicesEnds(cursor: int, endTime: int)
    ensures |Slices(cursor, endTime)| == 0 <==> cursor >= endTime
    ensures |Slices(cursor, endTime)| > 0 ==>
              Slices(cursor, endTime)[0].0 == cursor && Slices(cursor, endTime)[|Slices(cursor, endTime)| - 1].1 == endTime
    decreases endTime - cursor
  {
    if cursor < endTime {
      var hourEnd := Min(cursor + SecondsPerHour, endTime);
      SlicesEnds(hourEnd, endTime);
    }
  }

  /** Total length of a list of windows. */
  function Coverage(slices: seq<(int, int)>): int
  {
    if |slices| == 0 then 0 else (slices[0].1 - slices[0].0) + Coverage(slices[1..])
  }

  /** The buckets cover the range from the cursor to the end exactly once. */
  lemma {:induction false} SlicesCover(cursor: int, endTime: int)
    ensures Coverage(Slices(cursor, endTime)) == Max(endTime - cursor, 0)
    decreases endTime - cursor
  {
    if cursor < endTime {
      var hourEnd := Min(cursor + SecondsPerHour, endTime);
      SlicesCover(hourEnd, endTime);
    }
  }

  /** The number of buckets is the length of the range in hours, rounded up. */
  lemma {:induction false} SlicesCount(cursor: int, endTime: int)
    ensures |Slices(cursor, endTime)| == if cursor < endTime then (endTime - cursor + 3599) / 3600 else 0
    decreases endTime - cursor
  {
    if cursor < endTime {
      var hourEnd := Min(cursor + SecondsPerHour, endTime);
      SlicesCount(hourEnd, endTime);
      if hourEnd < endTime {
        assert (endTime - hourEnd + 3599) / 3600 + 1 == (endTime - cursor + 3599) / 3600;
      }
    }
  }

  /** From a start rounded down to the hour, every bucket starts on the hour. */
  lemma SlicesOnTheHour(startTime: int, endTime: int)
    ensures forall i :: 0 <= i < |Slices(HourFloor(startTime), endTime)| ==>
              Slices(HourFloor(startTime), endTime)[i].0 % 3600 == 0
  {
    SlicesShape(HourFloor(startTime), endTime);
  }

  // ---------------------------------------------------------------------
  // What is emitted
  // ---------------------------------------------------------------------

  /** Every emitted bucket is the bucket of one window whose fetch succeeded. */
  lemma {:induction false} EmitFromSucceeded(slices: seq<(int, int)>, fetch: Fetch, b: Bucket)
    requires b in Emit(slices, fetch)
    ensures exists i :: 0 <= i < |slices| && fetch(slices[i].0, slices[i].1).Some? &&
                        b == MakeBucket(slices[i].0, slices[i].1, fetch(slices[i].0, slices[i].1).value)
  {
    var hourData := fetch(slices[0].0, slices[0].1);
    if hourData.Some? && b == MakeBucket(slices[0].0, slices[0].1, hourData.value) {
    } else {
      assert b in Emit(slices[1..], fetch);
      EmitFromSucceeded(slices[1..], fetch, b);
      var i :| 0 <= i < |slices[1..]| && fetch(slices[1..][i].0, slices[1..][i].1).Some? &&
               b == MakeBucket(slices[1..][i].0, slices[1..][i].1, fetch(slices[1..][i].0, slices[1..][i].1).value);
      assert slices[i + 1] == slices[1..][i];
    }
  }

  /** Every window whose fetch succeeds yields its bucket. */
  lemma {:induction false} EmitSucceeded(slices: seq<(int, int)>, fetch: Fetch, i: int)
    requires 0 <= i < |slices| && fetch(slices[i].0, slices[i].1).Some?
    ensures MakeBucket(slices[i].0, slices[i].1, fetch(slices[i].0, slices[i].1).value) in Emit(slices, fetch)
  {
    if i > 0 {
      assert slices[1..][i - 1] == slices[i];
      EmitSucceeded(slices[1..], fetch, i - 1);
    }
  }

  /** A window whose fetch fails emits nothing: the buckets are those of the other windows. */
  lemma {:induction false} EmitSkipsFailure(before: seq<(int, int)>, hour: (int, int), after: seq<(int, int)>, fetch: Fetch)
    requires fetch(hour.0, hour.1).None?
    ensures Emit(before + [hour] + after, fetch) == Emit(before + after, fetch)
  {
    if |before| == 0 {
      assert before + [hour] + after == [hour] + after;
      assert ([hour] + after)[1..] == after;
      assert before + after == after;
    } else {
      assert (before + [hour] + after)[1..] == before[1..] + [hour] + after;
      assert (before + after)[1..] == before[1..] + after;
      EmitSkipsFailure(before[1..], hour, after, fetch);
    }
  }

  /** When every fetch succeeds there is one bucket per window, in window order. */
  lemma {:induction false} EmitAllSucceed(slices: seq<(int, int)>, fetch: Fetch)
    requires forall i :: 0 <= i < |slices| ==> fetch(slices[i].0, slices[i].1).Some?
    ensures |Emit(slices, fetch)| == |slices|
    ensures forall i :: 0 <= i < |slices| ==>
              Emit(slices, fetch)[i].hourStart == slices[i].0 && Emit(slices, fetch)[i].hourEnd == slices[i].1
  {
    if |slices| > 0 {
      assert forall i :: 0 <= i < |slices[1..]| ==> slices[1..][i] == slices[i + 1];
      EmitAllSucceed(slices[1..], fetch);
    }
  }

  /** A bucket's quantity is its passed tests when its statistics are the shaped rows. */
  lemma {:induction false} SumTotalIsSuccess(models: seq<ModelStats>)
    requires forall i :: 0 <= i < |models| ==> models[i].totalQty == models[i].successQty
    ensures SumTotal(models) == SumSuccess(models)
  {
    if |models| > 0 {
      SumTotalIsSuccess(models[..|models| - 1]);
    }
  }

  // ---------------------------------------------------------------------
  // The two slicing loops
  // ---------------------------------------------------------------------

  lemma EmitStep(cursor: int, endTime: int, fetch: Fetch)
    requires cursor < endTime
    ensures var hourEnd := Min(cursor + SecondsPerHour, endTime);
      var hourData := fetch(cursor, hourEnd);
      Emit(Slices(cursor, endTime), fetch) ==
        (if hourData.Some? then [MakeBucket(cursor, hourEnd, hourData.value)] else []) + Emit(Slices(hourEnd, endTime), fetch)
  {
    var hourEnd := Min(cursor + SecondsPerHour, endTime);
    assert Slices(cursor, endTime)[1..] == Slices(hourEnd, endTime);
  }

  lemma BucketsSnoc(buckets: seq<Bucket>, b: Bucket)
    ensures BucketsSuccess(buckets + [b]) == BucketsSuccess(buckets) + b.successQty
    ensures BucketsFail(buckets + [b]) == BucketsFail(buckets) + b.failQty
    ensures BucketsTotal(buckets + [b]) == BucketsTotal(buckets) + b.totalQty
  {
    assert (buckets + [b])[..|buckets|] == buckets;
  }

  /** The historical breakdown of `[startTime, endTime]` and its totals. */
  method HistoricalHourly(startTime: int, endTime: int, fetch: Fetch)
    returns (hourlyData: seq<Bucket>, totalSuccess: nat, totalFail: nat, totalQty: nat, totalQuality: real)
    ensures hourlyData == Emit(Slices(HourFloor(startTime), endTime), fetch)
    ensures totalSuccess == BucketsSuccess(hourlyData)
    ensures totalFail == BucketsFail(hourlyData)
    ensures totalQty == BucketsTotal(hourlyData)
    ensures totalQuality == Quality(totalSuccess, totalFail)
  {
    hourlyData := [];
    var currentHour := HourFloor(startTime);
    totalSuccess, totalFail, totalQty := 0, 0, 0;
    while currentHour < endTime
      invariant hourlyData + Emit(Slices(currentHour, endTime), fetch) == Emit(Slices(HourFloor(startTime), endTime), fetch)
      invariant totalSuccess == BucketsSuccess(hourlyData)
      invariant totalFail == BucketsFail(hourlyData)
      invariant totalQty == BucketsTotal(hourlyData)
      decreases endTime - currentHour
    {
      var hourEnd := Min(currentHour + SecondsPerHour, endTime);
      EmitStep(currentHour, endTime, fetch);
      var hourData := fetch(currentHour, hourEnd);
      if hourData.None? {
        currentHour := hourEnd;
        continue;
      }
      var bucket := MakeBucket(currentHour, hourEnd, hourData.value);
      BucketsSnoc(hourlyData, bucket);
      totalSuccess := totalSuccess + bucket.successQty;
      totalFail := totalFail + bucket.failQty;
      totalQty := totalQty + bucket.totalQty;
      hourlyData := hourlyData + [bucket];
      currentHour := hourEnd;
    }
    totalQuality := Quality(totalSuccess, totalFail);
  }

  /** The end of the hourly breakdown of a live stream: the current time when it is within
      five minutes of the requested end, on either side, and the requested end otherwise. */
  function HourlyEnd(endTime: int, currentTime: int): int
  {
    if Abs(currentTime - endTime) <= LiveThreshold then currentTime else endTime
  }

  /** The hourly breakdown pushed on a live stream. */
  method LiveHourly(startTime: int, endTime: int, currentTime: int, fetch: Fetch) returns (hourlyData: seq<Bucket>)
    ensures hourlyData == Emit(Slices(HourFloor(startTime), HourlyEnd(endTime, currentTime)), fetch)
  {
    hourlyData := [];
    var currentHour := HourFloor(startTime);
    var isLiveData := false;
    var actualEndForHourly := endTime;
    var absDiff := Abs(currentTime - endTime);
    isLiveData := absDiff <= LiveThreshold;
    if isLiveData {
      actualEndForHourly := currentTime;
    }
    while currentHour < actualEndForHourly
      invariant actualEndForHourly == HourlyEnd(endTime, currentTime)
      invariant isLiveData ==> actualEndForHourly == currentTime
      invariant hourlyData + Emit(Slices(currentHour, actualEndForHourly), fetch) ==
                Emit(Slices(HourFloor(startTime), actualEndForHourly), fetch)
      decreases actualEndForHourly - currentHour
    {
      var hourEnd := currentHour + SecondsPerHour;
      if isLiveData && currentHour < currentTime < hourEnd {
        hourEnd := currentTime;
      } else {
        hourEnd := Min(hourEnd, actualEndForHourly);
      }
      assert hourEnd == Min(currentHour + SecondsPerHour, actualEndForHourly);
      EmitStep(currentHour, actualEndForHourly, fetch);
      var hourData := fetch(currentHour, hourEnd);
      if hourData.Some? {
        hourlyData := hourlyData + [MakeBucket(currentHour, hourEnd, hourData.value)];
      }
      assert hourlyData + Emit(Slices(hourEnd, actualEndForHourly), fetch) ==
             Emit(Slices(HourFloor(startTime), actualEndForHourly), fetch);
      if isLiveData && hourEnd == currentTime {
        assert Slices(currentHour + SecondsPerHour, actualEndForHourly) == Slices(hourEnd, actualEndForHourly);
        currentHour := currentHour + SecondsPerHour;
      } else {
        currentHour := hourEnd;
      }
    }
  }

  /** On a live stream whose end lies more than five minutes ahead, the totals run to the
      current time while the hourly breakdown runs to the requested end. */
  lemma FarFutureEndSplitsTotalsAndHours(endTime: int, currentTime: int)
    requires endTime > currentTime + LiveThreshold
    ensures TotalsEnd(endTime, currentTime) == currentTime
    ensures HourlyEnd(endTime, currentTime) == endTime
  {
  }

  // ---------------------------------------------------------------------
  // The totals of a live stream
  // ---------------------------------------------------------------------

  /** The end of a live stream's totals: the current time unless it is more than five
      minutes past the requested end. */
  function TotalsEnd(endTime: int, currentTime: int): int
  {
    if currentTime - endTime <= LiveThreshold then currentTime else endTime
  }

  /** Elapsed time of `[startTime, actualEnd]` less breaks, clamped at zero twice. */
  function LiveOperationTime(startTime: int, actualEnd: int, workingMode: string): (t: int)
    ensures t >= 0
  {
    Max(Max(actualEnd - startTime, 0) - BreakTime(startTime, actualEnd, workingMode), 0)
  }

  /** The stream's operation time is the one the production query computes for the same window. */
  lemma LiveOperationTimeAgrees(startTime: int, endTime: int, currentTime: int, workingMode: string)
    ensures LiveOperationTime(startTime, TotalsEnd(endTime, currentTime), workingMode) ==
              OperationTime(startTime, OperationEnd(startTime, endTime, Some(currentTime)), workingMode)
  {
    var actualEnd := TotalsEnd(endTime, currentTime);
    if actualEnd <= startTime {
      BreakTimeEmpty(startTime, actualEnd, workingMode);
    }
    BreakTimeEmpty(startTime, startTime, workingMode);
  }

  /** The operation time never exceeds the elapsed time of the window. */
  lemma LiveOperationTimeBounded(startTime: int, actualEnd: int, workingMode: string)
    ensures LiveOperationTime(startTime, actualEnd, workingMode) <= Max(actualEnd - startTime, 0)
  {
    if startTime <= actualEnd {
      BreakTimeAtMostElapsed(startTime, actualEnd, workingMode);
    } else {
      BreakTimeEmpty(startTime, actualEnd, workingMode);
    }
  }
}
