/**
 * The multi-unit report: each listed unit's production statistics are
 * fetched in turn; a unit whose fetch fails or times out is skipped, the
 * others are summarised per unit (keyed by name, in the order names first
 * succeed) and added into grand totals.
 */
module Report {
  import opened Wrappers
  import opened ProductionData

  /** The summary reported for one unit. */
  datatype UnitSummary = UnitSummary(
    totalSuccess: nat,
    totalFail: nat,
    totalQty: nat,
    quality: real,
    performanceSum: real,
    models: seq<ModelStats>)

  /** Unit name to summary, as an insertion-ordered dictionary. */
  type UnitData = seq<(string, UnitSummary)>

  /** The report's per-unit part and its integer grand totals. */
  datatype ReportData = ReportData(units: UnitData, totalSuccess: nat, totalFail: nat, totalProduction: nat)

  function SumSuccess(models: seq<ModelStats>): nat
  {
    if |models| == 0 then 0 else SumSuccess(models[..|models| - 1]) + models[|models| - 1].successQty
  }

  function SumFail(models: seq<ModelStats>): nat
  {
    if |models| == 0 then 0 else SumFail(models[..|models| - 1]) + models[|models| - 1].failQty
  }

  /** Sum of the performances that are present. */
  function SumPerformance(models: seq<ModelStats>): real
  {
    if |models| == 0 then 0.0
    else
      var last := models[|models| - 1];
      SumPerformance(models[..|models| - 1]) + (if last.performance.Some? then last.performance.value else 0.0)
  }

  /** A unit's summary from its models' statistics. */
  function Summarize(models: seq<ModelStats>): (u: UnitSummary)
    ensures u.totalSuccess == SumSuccess(models) && u.totalFail == SumFail(models)
    ensures u.totalQty == u.totalSuccess + u.totalFail
    ensures u.quality == Quality(u.totalSuccess, u.totalFail)
    ensures u.totalQty == 0 ==> u.quality == 0.0
    ensures u.performanceSum == SumPerformance(models)
    ensures u.models == models
  {
    var unitSuccess := SumSuccess(models);
    var unitFail := SumFail(models);
    var unitTotal := unitSuccess + unitFail;
    UnitSummary(unitSuccess, unitFail, unitTotal,
                if unitTotal > 0 then unitSuccess as real / unitTotal as real else 0.0,
                SumPerformance(models), models)
  }

  /** The names of an ordered dictionary, in order. */
  function Keys(d: UnitData): seq<string>
  {
    seq(|d|, i requires 0 <= i < |d| => d[i].0)
  }

  /** Dictionary assignment: an existing name keeps its place and gets the new value;
      a new name is appended. */
  function Put(d: UnitData, name: string, value: UnitSummary): (r: UnitData)
    ensures name in Keys(d) ==> |r| == |d|
    ensures name !in Keys(d) ==> r == d + [(name, value)]
    ensures forall i :: 0 <= i < |d| ==> r[i].0 == d[i].0
  {
    if |d| == 0 then [(name, value)]
    else if d[0].0 == name then
      assert Keys(d)[0] == name;
      [(name, value)] + d[1..]
    else
      assert Keys(d)[1..] == Keys(d[1..]);
      [d[0]] + Put(d[1..], name, value)
  }

  /** Assignment leaves the names unchanged when the name is present, and appends it otherwise. */
  lemma PutKeys(d: UnitData, name: string, value: UnitSummary)
    ensures name in Keys(d) ==> Keys(Put(d, name, value)) == Keys(d)
    ensures name !in Keys(d) ==> Keys(Put(d, name, value)) == Keys(d) + [name]
  {
  }

  /** After assignment the name maps to the new value and every other name to what it did. */
  lemma {:induction false} PutLookup(d: UnitData, name: string, value: UnitSummary)
    ensures Lookup(Put(d, name, value), name) == Some(value)
    ensures forall other :: other != name ==> Lookup(Put(d, name, value), other) == Lookup(d, other)
  {
    if |d| > 0 && d[0].0 != name {
      PutLookup(d[1..], name, value);
    }
  }

  /** The value of the first entry with this name. */
  function Lookup(d: UnitData, name: string): Option<UnitSummary>
  {
    if |d| == 0 then None else if d[0].0 == name then Some(d[0].1) else Lookup(d[1..], name)
  }

  /** The per-unit part of the report for units `unitList` with fetch outcomes `outcomes`
      (`None` for a fetch that failed or timed out). */
  function UnitsOf(unitList: seq<string>, outcomes: seq<Option<seq<ModelStats>>>): UnitData
    requires |outcomes| == |unitList|
  {
    if |unitList| == 0 then []
    else
      var n := |unitList| - 1;
      var d := UnitsOf(unitList[..n], outcomes[..n]);
      if outcomes[n].Some? then Put(d, unitList[n], Summarize(outcomes[n].value)) else d
  }

  /** Passed tests of every unit fetched successfully, duplicates included. */
  function TotalSuccessOf(outcomes: seq<Option<seq<ModelStats>>>): nat
  {
    if |outcomes| == 0 then 0
    else
      var n := |outcomes| - 1;
      TotalSuccessOf(outcomes[..n]) + (if outcomes[n].Some? then SumSuccess(outcomes[n].value) else 0)
  }

  /** Failed tests of every unit fetched successfully, duplicates included. */
  function TotalFailOf(outcomes: seq<Option<seq<ModelStats>>>): nat
  {
    if |outcomes| == 0 then 0
    else
      var n := |outcomes| - 1;
      TotalFailOf(outcomes[..n]) + (if outcomes[n].Some? then SumFail(outcomes[n].value) else 0)
  }

  /** Aggregates the report from the fetch outcome of each listed unit, in list order. */
  method AggregateReport(unitList: seq<string>, outcomes: seq<Option<seq<ModelStats>>>) returns (report: ReportData)
    requires |outcomes| == |unitList|
    ensures report.units == UnitsOf(unitList, outcomes)
    ensures report.totalSuccess == TotalSuccessOf(outcomes)
    ensures report.totalFail == TotalFailOf(outcomes)
    ensures report.totalProduction == report.totalSuccess + report.totalFail
  {
    var unitData: UnitData := [];
    var totalSuccessAll: nat := 0;
    var totalFailAll: nat := 0;
    var totalProductionAll: nat := 0;
    for k := 0 to |unitList|
      invariant unitData == UnitsOf(unitList[..k], outcomes[..k])
      invariant totalSuccessAll == TotalSuccessOf(outcomes[..k])
      invariant totalFailAll == TotalFailOf(outcomes[..k])
      invariant totalProductionAll == totalSuccessAll + totalFailAll
    {
      assert unitList[..k + 1][..k] == unitList[..k];
      assert outcomes[..k + 1][..k] == outcomes[..k];
      var productionData := outcomes[k];
      if productionData.None? {
        continue;
      }
      var unitSummary := Summarize(productionData.value);
      unitData := Put(unitData, unitList[k], unitSummary);
      totalSuccessAll := totalSuccessAll + unitSummary.totalSuccess;
      totalFailAll := totalFailAll + unitSummary.totalFail;
      totalProductionAll := totalProductionAll + unitSummary.totalQty;
    }
    assert unitList[..|unitList|] == unitList;
    assert outcomes[..|outcomes|] == outcomes;
    report := ReportData(unitData, totalSuccessAll, totalFailAll, totalProductionAll);
  }

  /** The names fetched successfully, in list order, duplicates included. */
  function Succeeded(unitList: seq<string>, outcomes: seq<Option<seq<ModelStats>>>): seq<string>
    requires |outcomes| == |unitList|
  {
    if |unitList| == 0 then []
    else
      var n := |unitList| - 1;
      Succeeded(unitList[..n], outcomes[..n]) + (if outcomes[n].Some? then [unitList[n]] else [])
  }

  /** `s` with later repetitions dropped. */
  function Dedup(s: seq<string>): (r: seq<string>)
    ensures forall x :: x in r <==> x in s
  {
    if |s| == 0 then []
    else
      var d := Dedup(s[..|s| - 1]);
      if s[|s| - 1] in d then d else d + [s[|s| - 1]]
  }

  /** The report's units are the successfully fetched names, each once, in the order
      they first succeeded. */
  lemma {:induction false} UnitsOfKeys(unitList: seq<string>, outcomes: seq<Option<seq<ModelStats>>>)
    requires |outcomes| == |unitList|
    ensures Keys(UnitsOf(unitList, outcomes)) == Dedup(Succeeded(unitList, outcomes))
  {
    if |unitList| > 0 {
      var n := |unitList| - 1;
      var prefix := Succeeded(unitList[..n], outcomes[..n]);
      var d := UnitsOf(unitList[..n], outcomes[..n]);
      UnitsOfKeys(unitList[..n], outcomes[..n]);
      var s := Succeeded(unitList, outcomes);
      if outcomes[n].Some? {
        var name := unitList[n];
        assert s == prefix + [name];
        assert s[..|s| - 1] == prefix;
        assert Dedup(s) == if name in Dedup(prefix) then Dedup(prefix) else Dedup(prefix) + [name];
        PutKeys(d, name, Summarize(outcomes[n].value));
      } else {
        assert s == prefix + [];
        assert s == prefix;
      }
    }
  }

  /** A name is in the report exactly when at least one of its fetches succeeded. */
  lemma UnitInReport(unitList: seq<string>, outcomes: seq<Option<seq<ModelStats>>>, name: string)
    requires |outcomes| == |unitList|
    ensures name in Keys(UnitsOf(unitList, outcomes)) <==>
              exists i :: 0 <= i < |unitList| && unitList[i] == name && outcomes[i].Some?
  {
    UnitsOfKeys(unitList, outcomes);
    SucceededMembers(unitList, outcomes, name);
  }

  lemma {:induction false} SucceededMembers(unitList: seq<string>, outcomes: seq<Option<seq<ModelStats>>>, name: string)
    requires |outcomes| == |unitList|
    ensures name in Succeeded(unitList, outcomes) <==>
              exists i :: 0 <= i < |unitList| && unitList[i] == name && outcomes[i].Some?
  {
    if |unitList| > 0 {
      var n := |unitList| - 1;
      SucceededMembers(unitList[..n], outcomes[..n], name);
      if exists i :: 0 <= i < |unitList| && unitList[i] == name && outcomes[i].Some? {
        var i :| 0 <= i < |unitList| && unitList[i] == name && outcomes[i].Some?;
        if i < n {
          assert unitList[..n][i] == name && outcomes[..n][i].Some?;
        }
      }
      if name in Succeeded(unitList[..n], outcomes[..n]) {
        var i :| 0 <= i < n && unitList[..n][i] == name && outcomes[..n][i].Some?;
        assert unitList[i] == name && outcomes[i].Some?;
      }
    }
  }

  /** A name reported maps to the summary of its last successful fetch. */
  lemma {:induction false} UnitsOfLastWins(unitList: seq<string>, outcomes: seq<Option<seq<ModelStats>>>, i: int)
    requires |outcomes| == |unitList|
    requires 0 <= i < |unitList| && outcomes[i].Some?
    requires forall j :: i < j < |unitList| && unitList[j] == unitList[i] ==> outcomes[j].None?
    ensures Lookup(UnitsOf(unitList, outcomes), unitList[i]) == Some(Summarize(outcomes[i].value))
  {
    var n := |unitList| - 1;
    var d := UnitsOf(unitList[..n], outcomes[..n]);
    if i == n {
      PutLookup(d, unitList[n], Summarize(outcomes[n].value));
    } else {
      UnitsOfLastWins(unitList[..n], outcomes[..n], i);
      if outcomes[n].Some? {
        PutLookup(d, unitList[n], Summarize(outcomes[n].value));
      }
    }
  }

  /** The grand totals add every successful fetch, and nothing for a skipped one. */
  lemma {:induction false} TotalsSkipFailures(outcomes: seq<Option<seq<ModelStats>>>)
    requires forall i :: 0 <= i < |outcomes| ==> outcomes[i].None?
    ensures TotalSuccessOf(outcomes) == 0 && TotalFailOf(outcomes) == 0
  {
    if |outcomes| > 0 {
      TotalsSkipFailures(outcomes[..|outcomes| - 1]);
    }
  }

  /** A failed fetch adds nothing to the grand totals, wherever it stands in the list. */
  lemma {:induction false} TotalsSkipFailure(before: seq<Option<seq<ModelStats>>>, after: seq<Option<seq<ModelStats>>>)
    ensures TotalSuccessOf(before + [None] + after) == TotalSuccessOf(before + after)
    ensures TotalFailOf(before + [None] + after) == TotalFailOf(before + after)
    decreases |after|
  {
    if |after| == 0 {
      assert before + [None] + after == before + [None];
      assert (before + [None])[..|before|] == before;
      assert before + after == before;
    } else {
      var n := |after| - 1;
      var withFailure := before + [None] + after;
      var without := before + after;
      assert withFailure[..|withFailure| - 1] == before + [None] + after[..n];
      assert without[..|without| - 1] == before + after[..n];
      assert withFailure[|withFailure| - 1] == after[n] == without[|without| - 1];
      TotalsSkipFailure(before, after[..n]);
    }
  }

  /** When every fetch fails the report has no units and zero totals. */
  lemma {:induction false} AllSkippedReport(unitList: seq<string>, outcomes: seq<Option<seq<ModelStats>>>)
    requires |outcomes| == |unitList|
    requires forall i :: 0 <= i < |outcomes| ==> outcomes[i].None?
    ensures UnitsOf(unitList, outcomes) == []
    ensures TotalSuccessOf(outcomes) == 0 && TotalFailOf(outcomes) == 0
  {
    TotalsSkipFailures(outcomes);
    if |unitList| > 0 {
      var n := |unitList| - 1;
      AllSkippedReport(unitList[..n], outcomes[..n]);
    }
  }

  /** A unit listed twice appears once in the per-unit part but is counted twice in the totals. */
  lemma DuplicateUnitCountedTwice(name: string, models: seq<ModelStats>)
    ensures var report := UnitsOf([name, name], [Some(models), Some(models)]);
      |report| == 1 && Lookup(report, name) == Some(Summarize(models))
    ensures TotalSuccessOf([Some(models), Some(models)]) == 2 * SumSuccess(models)
    ensures TotalFailOf([Some(models), Some(models)]) == 2 * SumFail(models)
  {
    var unitList := [name, name];
    var outcomes := [Some(models), Some(models)];
    var summary := Summarize(models);
    assert unitList[..1] == [name] && outcomes[..1] == [Some(models)];
    assert [name][..0] == [] && [Some(models)][..0] == [];
    assert UnitsOf([], []) == [];
    assert UnitsOf([name], [Some(models)]) == Put([], name, summary);
    var d := [(name, summary)];
    assert UnitsOf(unitList, outcomes) == Put(d, name, summary);
    assert Put(d, name, summary) == d;
    assert TotalSuccessOf([Some(models)]) == SumSuccess(models) by {
      assert TotalSuccessOf([Some(models)][..0]) == 0;
    }
    assert TotalSuccessOf(outcomes) == TotalSuccessOf(outcomes[..1]) + SumSuccess(models);
    assert TotalFailOf([Some(models)]) == SumFail(models) by {
      assert TotalFailOf([Some(models)][..0]) == 0;
    }
    assert TotalFailOf(outcomes) == TotalFailOf(outcomes[..1]) + SumFail(models);
  }
}
