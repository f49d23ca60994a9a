/**
 * The computation around the production query of one unit: which end time
 * bounds the query and the operation time (live versus historical data),
 * how much of the window is operation time once breaks are taken out, and
 * how each fetched row (one per model) is shaped into model statistics.
 * The query itself is not modelled: its rows are an input.
 */
module ProductionData {
  import opened Wrappers
  import opened LocalTime
  import opened ShiftBreaks

  /** A data point is live when the current time is at most this many seconds past the requested end. */
  const LiveThreshold: int := 300

  /** One fetched row: a model with its passed and failed test counts and its target rate per hour. */
  datatype Row = Row(model: string, successQty: nat, failQty: nat, target: Option<int>)

  /** The statistics reported for one model. */
  datatype ModelStats = ModelStats(
    model: string,
    successQty: nat,
    failQty: nat,
    target: Option<int>,
    totalQty: nat,
    quality: real,
    theoreticalQty: real,
    performance: Option<real>)

  /** The end of the query window and the end of the operation-time window. */
  datatype Window = Window(queryEnd: int, operationEnd: int)

  /** A model counts towards performance only when it has a positive target. */
  predicate HasTarget(target: Option<int>)
  {
    target.Some? && target.value > 0
  }

  /** Share of passed tests; zero when nothing was tested. */
  function Quality(successQty: nat, failQty: nat): (q: real)
    ensures 0.0 <= q <= 1.0
    ensures q == 0.0 <==> successQty == 0
    ensures q == 1.0 <==> successQty > 0 && failQty == 0
  {
    if successQty + failQty > 0 then successQty as real / (successQty + failQty) as real else 0.0
  }

  /** Selects the window's end times from the requested end and, when given, the current time. */
  method SelectWindow(startTime: int, endTime: int, currentTime: Option<int>) returns (w: Window)
    ensures currentTime.None? ==> w.queryEnd == endTime && w.operationEnd == Max(startTime, endTime)
    ensures currentTime.Some? && currentTime.value - endTime <= LiveThreshold ==>
              w.queryEnd == w.operationEnd == Max(startTime, currentTime.value)
    ensures currentTime.Some? && currentTime.value - endTime > LiveThreshold ==>
              w.queryEnd == w.operationEnd == endTime
  {
    var actualEndTime := if currentTime.Some? then currentTime.value else endTime;
    if actualEndTime < startTime {
      actualEndTime := startTime;
    }
    var queryEndTime := endTime;
    var finalQueryEndTime := queryEndTime;
    if currentTime.Some? {
      var timeDifference := currentTime.value - queryEndTime;
      if timeDifference <= LiveThreshold {
        finalQueryEndTime := actualEndTime;
      } else {
        finalQueryEndTime := queryEndTime;
        actualEndTime := queryEndTime;
      }
    }
    w := Window(finalQueryEndTime, actualEndTime);
  }

  /** Seconds of `[startTime, actualEnd]` that are not break time, never negative. */
  function OperationTime(startTime: int, actualEnd: int, workingMode: string): (t: int)
    ensures 0 <= t <= Max(actualEnd - startTime, 0)
    ensures startTime <= actualEnd ==> t == actualEnd - startTime - BreakTime(startTime, actualEnd, workingMode)
  {
    if startTime <= actualEnd then
      BreakTimeAtMostElapsed(startTime, actualEnd, workingMode);
      Max((actualEnd - startTime) - BreakTime(startTime, actualEnd, workingMode), 0)
    else
      BreakTimeEmpty(startTime, actualEnd, workingMode);
      Max((actualEnd - startTime) - BreakTime(startTime, actualEnd, workingMode), 0)
  }

  /** A row as the first pass over the rows leaves it: no performance yet, and a
      theoretical quantity only for a model with a positive target. */
  function InitialStats(row: Row, operationTimeHours: real): ModelStats
  {
    ModelStats(row.model, row.successQty, row.failQty, row.target, row.successQty,
               Quality(row.successQty, row.failQty),
               if HasTarget(row.target) then operationTimeHours * row.target.value as real else 0.0,
               None)
  }

  /** The second pass over one model, taken when some model has a positive target: a
      model with a positive target gets its theoretical quantity and its performance
      (zero when the theoretical quantity is zero), any other model neither. */
  function SecondPass(modelData: ModelStats, operationTimeHours: real): ModelStats
  {
    if HasTarget(modelData.target) then
      var individualTheoreticalQty := operationTimeHours * modelData.target.value as real;
      modelData.(theoreticalQty := individualTheoreticalQty,
                 performance := Some(if individualTheoreticalQty > 0.0
                                     then modelData.totalQty as real / individualTheoreticalQty else 0.0))
    else modelData.(theoreticalQty := 0.0, performance := None)
  }

  /** A row's final statistics. */
  function RowStats(row: Row, operationTimeHours: real): ModelStats
  {
    SecondPass(InitialStats(row, operationTimeHours), operationTimeHours)
  }

  /** What the shaped statistics of a row mean. */
  lemma RowStatsMeaning(row: Row, operationTimeHours: real)
    requires operationTimeHours >= 0.0
    ensures var m := RowStats(row, operationTimeHours);
      && m.model == row.model && m.successQty == row.successQty && m.failQty == row.failQty
      && m.totalQty == row.successQty
      && m.quality == Quality(row.successQty, row.failQty)
      && (row.successQty + row.failQty == 0 ==> m.quality == 0.0)
      && (m.performance.None? <==> !HasTarget(row.target))
      && (!HasTarget(row.target) ==> m.theoreticalQty == 0.0)
      && (HasTarget(row.target) ==> m.theoreticalQty == operationTimeHours * row.target.value as real)
      && (HasTarget(row.target) ==> (m.theoreticalQty == 0.0 <==> operationTimeHours == 0.0))
      && (HasTarget(row.target) && operationTimeHours == 0.0 ==> m.performance == Some(0.0))
      && (m.performance.Some? ==> m.performance.value >= 0.0)
  {
    var m := RowStats(row, operationTimeHours);
    if HasTarget(row.target) {
      var theoretical := operationTimeHours * row.target.value as real;
      assert operationTimeHours > 0.0 ==> theoretical > 0.0;
      assert theoretical > 0.0 ==> m.performance.value == row.successQty as real / theoretical;
    }
  }

  /** The per-row pass: build each model's statistics, then, if some model has a
      positive target, give every such model its performance. */
  method ShapeRows(allRows: seq<Row>, operationTimeHours: real) returns (results: seq<ModelStats>)
    ensures |results| == |allRows|
    ensures forall i :: 0 <= i < |allRows| ==> results[i] == RowStats(allRows[i], operationTimeHours)
  {
    results := [];
    var modelsWithTarget: seq<ModelStats> := [];
    for k := 0 to |allRows|
      invariant |results| == k
      invariant forall i :: 0 <= i < k ==> results[i] == InitialStats(allRows[i], operationTimeHours)
      invariant modelsWithTarget == [] <==> forall i :: 0 <= i < k ==> !HasTarget(allRows[i].target)
    {
      var row := allRows[k];
      var modelData := InitialStats(row, operationTimeHours);
      if HasTarget(row.target) {
        modelsWithTarget := modelsWithTarget + [modelData];
      }
      results := results + [modelData];
    }
    if modelsWithTarget != [] {
      for k := 0 to |results|
        invariant |results| == |allRows|
        invariant forall i :: 0 <= i < k ==> results[i] == RowStats(allRows[i], operationTimeHours)
        invariant forall i :: k <= i < |allRows| ==> results[i] == InitialStats(allRows[i], operationTimeHours)
      {
        results := results[k := SecondPass(results[k], operationTimeHours)];
      }
    } else {
      results := ZeroPerformanceOfTargeted(results);
    }
  }

  /** The branch taken when no model has a positive target: every model with a
      positive target gets performance zero, and the others are left as they are. */
  method ZeroPerformanceOfTargeted(models: seq<ModelStats>) returns (results: seq<ModelStats>)
    ensures |results| == |models|
    ensures forall i :: 0 <= i < |models| ==>
              results[i] == if HasTarget(models[i].target) then models[i].(performance := Some(0.0)) else models[i]
  {
    results := models;
    for k := 0 to |results|
      invariant |results| == |models|
      invariant forall i :: 0 <= i < k ==>
                  results[i] == if HasTarget(models[i].target) then models[i].(performance := Some(0.0)) else models[i]
      invariant forall i :: k <= i < |models| ==> results[i] == models[i]
    {
      if HasTarget(results[k].target) {
        results := results[k := results[k].(performance := Some(0.0))];
      }
    }
  }

  /** When no fetched row has a positive target, no model gets a performance. */
  lemma NoTargetNoPerformance(allRows: seq<Row>, operationTimeHours: real, i: int)
    requires forall j :: 0 <= j < |allRows| ==> !HasTarget(allRows[j].target)
    requires 0 <= i < |allRows|
    ensures RowStats(allRows[i], operationTimeHours).performance.None?
    ensures RowStats(allRows[i], operationTimeHours).theoreticalQty == 0.0
  {
  }

  /** Production statistics of one unit over `[startTime, endTime]`, given the rows
      the query returns for the selected window; also returns the query's end. */
  method GetProductionData(startTime: int, endTime: int, currentTime: Option<int>, workingMode: string,
                           allRows: seq<Row>)
    returns (queryEnd: int, results: seq<ModelStats>)
    ensures currentTime.None? ==> queryEnd == endTime
    ensures currentTime.Some? && currentTime.value - endTime <= LiveThreshold ==>
              queryEnd == Max(startTime, currentTime.value)
    ensures currentTime.Some? && currentTime.value - endTime > LiveThreshold ==> queryEnd == endTime
    ensures |results| == |allRows|
    ensures forall i :: 0 <= i < |allRows| ==>
              results[i] == RowStats(allRows[i], OperationHours(startTime, endTime, currentTime, workingMode))
  {
    var w := SelectWindow(startTime, endTime, currentTime);
    queryEnd := w.queryEnd;
    var operationTimeTotal := w.operationEnd - startTime;
    var breakTime := CalculateBreakTime(startTime, w.operationEnd, workingMode);
    var operationTime := Max(operationTimeTotal - breakTime, 0);
    var operationTimeHours := operationTime as real / 3600.0;
    results := ShapeRows(allRows, operationTimeHours);
  }

  /** The end of the operation-time window, as `SelectWindow` chooses it. */
  function OperationEnd(startTime: int, endTime: int, currentTime: Option<int>): int
  {
    if currentTime.None? then Max(startTime, endTime)
    else if currentTime.value - endTime <= LiveThreshold then Max(startTime, currentTime.value)
    else endTime
  }

  /** Operation time of the window in hours. */
  function OperationHours(startTime: int, endTime: int, currentTime: Option<int>, workingMode: string): (h: real)
    ensures h >= 0.0
  {
    var actualEnd := OperationEnd(startTime, endTime, currentTime);
    OperationTime(startTime, actualEnd, workingMode) as real / 3600.0
  }
}
