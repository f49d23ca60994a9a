/**
 * Shift-break accounting: how many seconds of a time interval fall into the
 * scheduled breaks of a working mode. A break is a clock-time window that
 * repeats every local day; each working mode applies a fixed subset of them.
 */
module ShiftBreaks {
  import opened LocalTime

  /** The break identifiers 'a' .. 'i' of the break table. */
  datatype BreakId = A | B | C | D | E | F | G | H | I

  /** A wall-clock time "HH:MM". */
  datatype ClockTime = ClockTime(hour: nat, minute: nat)

  /** A break's start and end clock times. */
  datatype BreakSlot = BreakSlot(start: ClockTime, end: ClockTime)

  /** A closed interval of local seconds. */
  datatype Interval = Interval(start: int, end: int)

  /** The break table. */
  function ShiftBreak(id: BreakId): BreakSlot
  {
    match id
    case A => BreakSlot(ClockTime(10, 0), ClockTime(10, 15))
    case B => BreakSlot(ClockTime(12, 0), ClockTime(12, 30))
    case C => BreakSlot(ClockTime(16, 0), ClockTime(16, 15))
    case D => BreakSlot(ClockTime(18, 0), ClockTime(18, 30))
    case E => BreakSlot(ClockTime(20, 0), ClockTime(20, 30))
    case F => BreakSlot(ClockTime(22, 0), ClockTime(22, 15))
    case G => BreakSlot(ClockTime(0, 0), ClockTime(0, 30))
    case H => BreakSlot(ClockTime(3, 0), ClockTime(3, 15))
    case I => BreakSlot(ClockTime(5, 0), ClockTime(5, 30))
  }

  /** Which breaks apply to each working mode. */
  const WorkingModeBreaks: map<string, seq<BreakId>> := map[
    "mode1" := [A, B, E, F, H, I],
    "mode2" := [A, B, C, F, G, H, I],
    "mode3" := [A, B, C, D, F, G, H, I]
  ]

  /** The breaks of a working mode; a mode missing from the table falls back to "mode1". */
  function ApplicableBreaks(workingMode: string): seq<BreakId>
  {
    if workingMode in WorkingModeBreaks then WorkingModeBreaks[workingMode]
    else WorkingModeBreaks["mode1"]
  }

  /** Seconds since local midnight of a clock time. */
  function ClockSeconds(t: ClockTime): int
  {
    t.hour * 3600 + t.minute * 60
  }

  /** A break's start and end as seconds since local midnight. */
  datatype DaySpan = DaySpan(startSec: int, endSec: int)

  function Span(id: BreakId): DaySpan
  {
    DaySpan(ClockSeconds(ShiftBreak(id).start), ClockSeconds(ShiftBreak(id).end))
  }

  /** The span lies within one local day: it does not wrap midnight. */
  predicate WithinDay(sp: DaySpan)
  {
    0 <= sp.startSec < sp.endSec <= 86400
  }

  /** No tabled break wraps midnight. */
  lemma TabledSpanWithinDay(id: BreakId)
    ensures WithinDay(Span(id))
  {
  }

  /** The window of a break spanning `sp` on local date `day`; a window whose
      end clock time comes before its start clock time ends on the next day. */
  function BreakWindow(sp: DaySpan, day: int): Interval
  {
    var breakStart := day * 86400 + sp.startSec;
    var breakEnd := day * 86400 + sp.endSec;
    Interval(breakStart, if sp.startSec > sp.endSec then breakEnd + 86400 else breakEnd)
  }

  /** A day's window of a span within one day lies within that day. */
  lemma WindowWithinDay(sp: DaySpan, day: int)
    requires WithinDay(sp)
    ensures day * 86400 <= BreakWindow(sp, day).start < BreakWindow(sp, day).end <= day * 86400 + 86400
  {
  }

  /** Seconds of `[s, e]` that fall into `w`: the clipped overlap, zero when empty. */
  function Overlap(s: int, e: int, w: Interval): (r: int)
    ensures 0 <= r
  {
    var overlapStart := Max(s, w.start);
    var overlapEnd := Min(e, w.end);
    if overlapStart < overlapEnd then overlapEnd - overlapStart else 0
  }

  /** Overlap with the windows of span `sp` on the dates `lo` .. `hi - 1`. */
  function DaysOverlap(sp: DaySpan, s: int, e: int, lo: int, hi: int): (r: int)
    ensures r >= 0
    decreases hi - lo
  {
    if hi <= lo then 0
    else DaysOverlap(sp, s, e, lo, hi - 1) + Overlap(s, e, BreakWindow(sp, hi - 1))
  }

  /** Overlap of `[s, e]` with the windows of `ids` on every date from
      that of `s` to that of `e` inclusive. */
  function BreaksOverlap(ids: seq<BreakId>, s: int, e: int): (r: int)
    ensures r >= 0
  {
    if |ids| == 0 then 0
    else BreaksOverlap(ids[..|ids| - 1], s, e) + DaysOverlap(Span(ids[|ids| - 1]), s, e, DayOf(s), DayOf(e) + 1)
  }

  /** Total break seconds between `s` and `e` for `workingMode`. */
  function BreakTime(s: int, e: int, workingMode: string): int
  {
    BreaksOverlap(ApplicableBreaks(workingMode), s, e)
  }

  /** The break-time computation: for each applicable break, add its
      overlap with the interval on every date the interval touches. */
  method CalculateBreakTime(startTime: int, endTime: int, workingMode: string) returns (totalBreakSeconds: int)
    ensures totalBreakSeconds == BreakTime(startTime, endTime, workingMode)
  {
    var mode := workingMode;
    if mode !in WorkingModeBreaks {
      mode := "mode1";
    }
    var applicableBreaks := WorkingModeBreaks[mode];
    totalBreakSeconds := 0;
    for k := 0 to |applicableBreaks|
      invariant totalBreakSeconds == BreaksOverlap(applicableBreaks[..k], startTime, endTime)
    {
      var breakInfo := ShiftBreak(applicableBreaks[k]);
      var breakSeconds := BreakOverlapOnDates(startTime, endTime, ClockSeconds(breakInfo.start), ClockSeconds(breakInfo.end));
      totalBreakSeconds := totalBreakSeconds + breakSeconds;
      assert applicableBreaks[..k + 1][..k] == applicableBreaks[..k];
    }
    assert applicableBreaks[..|applicableBreaks|] == applicableBreaks;
    assert applicableBreaks == ApplicableBreaks(workingMode);
  }

  /** The inner walk of the break-time computation: one break's clipped
      overlap with `[startTime, endTime]` on each date from that of
      `startTime` to that of `endTime` inclusive. */
  method BreakOverlapOnDates(startTime: int, endTime: int, breakStartTime: int, breakEndTime: int) returns (seconds: int)
    ensures seconds == DaysOverlap(DaySpan(breakStartTime, breakEndTime), startTime, endTime, DayOf(startTime), DayOf(endTime) + 1)
  {
    ghost var sp := DaySpan(breakStartTime, breakEndTime);
    seconds := 0;
    var currentDate := DayOf(startTime);
    var endDate := DayOf(endTime);
    while currentDate <= endDate
      invariant DayOf(startTime) <= currentDate
      invariant currentDate <= endDate + 1 || currentDate == DayOf(startTime)
      invariant seconds == DaysOverlap(sp, startTime, endTime, DayOf(startTime), currentDate)
      decreases endDate - currentDate
    {
      var breakStartDt := currentDate * 86400 + breakStartTime;
      var breakEndDt := currentDate * 86400 + breakEndTime;
      if breakStartTime > breakEndTime {
        breakEndDt := breakEndDt + 86400;
      }
      var overlapStart := Max(startTime, breakStartDt);
      var overlapEnd := Min(endTime, breakEndDt);
      if overlapStart < overlapEnd {
        seconds := seconds + (overlapEnd - overlapStart);
      }
      currentDate := currentDate + 1;
    }
  }

  // ---------------------------------------------------------------------------
  // Emptiness and the unknown-mode fallback
  // ---------------------------------------------------------------------------

  lemma {:induction false} DaysOverlapEmpty(sp: DaySpan, s: int, e: int, lo: int, hi: int)
    requires e <= s
    ensures DaysOverlap(sp, s, e, lo, hi) == 0
    decreases hi - lo
  {
    if lo < hi {
      DaysOverlapEmpty(sp, s, e, lo, hi - 1);
    }
  }

  lemma {:induction false} BreaksOverlapEmpty(ids: seq<BreakId>, s: int, e: int)
    requires e <= s
    ensures BreaksOverlap(ids, s, e) == 0
  {
    if |ids| > 0 {
      BreaksOverlapEmpty(ids[..|ids| - 1], s, e);
      DaysOverlapEmpty(Span(ids[|ids| - 1]), s, e, DayOf(s), DayOf(e) + 1);
    }
  }

  /** An interval that does not end after it starts contains no break time. */
  lemma BreakTimeEmpty(s: int, e: int, workingMode: string)
    requires e <= s
    ensures BreakTime(s, e, workingMode) == 0
  {
    BreaksOverlapEmpty(ApplicableBreaks(workingMode), s, e);
  }

  /** A working mode missing from the table is accounted exactly as "mode1". */
  lemma UnknownModeIsMode1(s: int, e: int, workingMode: string)
    requires workingMode !in WorkingModeBreaks
    ensures BreakTime(s, e, workingMode) == BreakTime(s, e, "mode1")
  {
  }

  // ---------------------------------------------------------------------------
  // Additivity: splitting an interval splits its break time
  // ---------------------------------------------------------------------------

  lemma OverlapSplit(s: int, m: int, e: int, w: Interval)
    requires s <= m <= e
    ensures Overlap(s, e, w) == Overlap(s, m, w) + Overlap(m, e, w)
  {
  }

  lemma {:induction false} DaysOverlapSplitDates(sp: DaySpan, s: int, e: int, lo: int, k: int, hi: int)
    requires lo <= k <= hi
    ensures DaysOverlap(sp, s, e, lo, hi) == DaysOverlap(sp, s, e, lo, k) + DaysOverlap(sp, s, e, k, hi)
    decreases hi - k
  {
    if k < hi {
      DaysOverlapSplitDates(sp, s, e, lo, k, hi - 1);
    }
  }

  lemma {:induction false} DaysOverlapSplitInterval(sp: DaySpan, s: int, m: int, e: int, lo: int, hi: int)
    requires s <= m <= e
    ensures DaysOverlap(sp, s, e, lo, hi) == DaysOverlap(sp, s, m, lo, hi) + DaysOverlap(sp, m, e, lo, hi)
    decreases hi - lo
  {
    if lo < hi {
      DaysOverlapSplitInterval(sp, s, m, e, lo, hi - 1);
      OverlapSplit(s, m, e, BreakWindow(sp, hi - 1));
    }
  }

  /** Windows of dates before `hi` end by `hi`'s midnight, so they miss an interval starting there. */
  lemma {:induction false} DaysOverlapBefore(sp: DaySpan, s: int, e: int, lo: int, hi: int)
    requires WithinDay(sp) && hi * 86400 <= s
    ensures DaysOverlap(sp, s, e, lo, hi) == 0
    decreases hi - lo
  {
    if lo < hi {
      DaysOverlapBefore(sp, s, e, lo, hi - 1);
      WindowWithinDay(sp, hi - 1);
    }
  }

  /** Windows of dates from `lo` on start at `lo`'s midnight or later, so they miss an interval ending there. */
  lemma {:induction false} DaysOverlapAfter(sp: DaySpan, s: int, e: int, lo: int, hi: int)
    requires WithinDay(sp) && e <= lo * 86400
    ensures DaysOverlap(sp, s, e, lo, hi) == 0
    decreases hi - lo
  {
    if lo < hi {
      DaysOverlapAfter(sp, s, e, lo, hi - 1);
      WindowWithinDay(sp, hi - 1);
    }
  }

  /** On the dates up to that of `m`, `[m, e]` meets only the window of `m`'s own date. */
  lemma DaysOverlapEarlyDates(sp: DaySpan, s: int, m: int, e: int, ds: int, dm: int)
    requires WithinDay(sp) && s <= m <= e
    requires ds <= dm && dm * 86400 <= m
    ensures DaysOverlap(sp, s, e, ds, dm + 1) == DaysOverlap(sp, s, m, ds, dm + 1) + DaysOverlap(sp, m, e, dm, dm + 1)
  {
    DaysOverlapSplitInterval(sp, s, m, e, ds, dm + 1);
    DaysOverlapSplitDates(sp, m, e, ds, dm, dm + 1);
    DaysOverlapBefore(sp, m, e, ds, dm);
  }

  /** On the dates after that of `m`, `[s, m]` meets nothing. */
  lemma DaysOverlapLateDates(sp: DaySpan, s: int, m: int, e: int, lo: int, hi: int)
    requires WithinDay(sp) && s <= m <= e && m <= lo * 86400
    ensures DaysOverlap(sp, s, e, lo, hi) == DaysOverlap(sp, m, e, lo, hi)
  {
    DaysOverlapSplitInterval(sp, s, m, e, lo, hi);
    DaysOverlapAfter(sp, s, m, lo, hi);
  }

  lemma DaysOverlapAdditive(sp: DaySpan, s: int, m: int, e: int, ds: int, dm: int, de: int)
    requires WithinDay(sp) && s <= m <= e
    requires ds <= dm <= de && dm * 86400 <= m < dm * 86400 + 86400
    ensures DaysOverlap(sp, s, e, ds, de + 1) == DaysOverlap(sp, s, m, ds, dm + 1) + DaysOverlap(sp, m, e, dm, de + 1)
  {
    DaysOverlapSplitDates(sp, s, e, ds, dm + 1, de + 1);
    DaysOverlapEarlyDates(sp, s, m, e, ds, dm);
    DaysOverlapLateDates(sp, s, m, e, dm + 1, de + 1);
    DaysOverlapSplitDates(sp, m, e, dm, dm + 1, de + 1);
  }

  lemma {:induction false} BreaksOverlapAdditive(ids: seq<BreakId>, s: int, m: int, e: int)
    requires s <= m <= e
    ensures BreaksOverlap(ids, s, e) == BreaksOverlap(ids, s, m) + BreaksOverlap(ids, m, e)
  {
    if |ids| > 0 {
      var id := ids[|ids| - 1];
      BreaksOverlapAdditive(ids[..|ids| - 1], s, m, e);
      TabledSpanWithinDay(id);
      DayOfMonotonic(s, m);
      DayOfMonotonic(m, e);
      DaysOverlapAdditive(Span(id), s, m, e, DayOf(s), DayOf(m), DayOf(e));
    }
  }

  /** Break time is additive over adjacent intervals. */
  lemma BreakTimeAdditive(s: int, m: int, e: int, workingMode: string)
    requires s <= m <= e
    ensures BreakTime(s, e, workingMode) == BreakTime(s, m, workingMode) + BreakTime(m, e, workingMode)
  {
    BreaksOverlapAdditive(ApplicableBreaks(workingMode), s, m, e);
  }

  // ---------------------------------------------------------------------------
  // The bound: break time never exceeds elapsed time
  // ---------------------------------------------------------------------------

  /** Whether a span covers the second that starts `secondOfDay` seconds after midnight. */
  predicate Covers(sp: DaySpan, secondOfDay: int)
  {
    sp.startSec <= secondOfDay < sp.endSec
  }

  /** Number of breaks in `ids` covering a second of the day. */
  function CoverCount(ids: seq<BreakId>, secondOfDay: int): (n: nat)
    ensures n <= |ids|
  {
    if |ids| == 0 then 0
    else CoverCount(ids[..|ids| - 1], secondOfDay) + (if Covers(Span(ids[|ids| - 1]), secondOfDay) then 1 else 0)
  }

  /** Over a single second, a break contributes one second exactly when its span covers it. */
  lemma DaysOverlapOneSecond(sp: DaySpan, t: int, d: int)
    requires WithinDay(sp) && d == DayOf(t)
    ensures DaysOverlap(sp, t, t + 1, d, DayOf(t + 1) + 1) == if Covers(sp, t - d * 86400) then 1 else 0
  {
    DayOfMonotonic(t, t + 1);
    DaysOverlapSplitDates(sp, t, t + 1, d, d + 1, DayOf(t + 1) + 1);
    DaysOverlapAfter(sp, t, t + 1, d + 1, DayOf(t + 1) + 1);
  }

  lemma {:induction false} BreaksOverlapOneSecond(ids: seq<BreakId>, t: int)
    ensures BreaksOverlap(ids, t, t + 1) == CoverCount(ids, t - DayOf(t) * 86400)
  {
    if |ids| > 0 {
      var id := ids[|ids| - 1];
      BreaksOverlapOneSecond(ids[..|ids| - 1], t);
      TabledSpanWithinDay(id);
      DaysOverlapOneSecond(Span(id), t, DayOf(t));
    }
  }

  lemma CoverCountSnoc(ids: seq<BreakId>, id: BreakId, secondOfDay: int)
    ensures CoverCount(ids + [id], secondOfDay) == CoverCount(ids, secondOfDay) + (if Covers(Span(id), secondOfDay) then 1 else 0)
  {
    assert (ids + [id])[..|ids|] == ids;
  }

  lemma Mode1Disjoint(t: int)
    ensures CoverCount([A, B, E, F, H, I], t) <= 1
  {
    CoverCountSnoc([], A, t);
    CoverCountSnoc([A], B, t);
    CoverCountSnoc([A, B], E, t);
    CoverCountSnoc([A, B, E], F, t);
    CoverCountSnoc([A, B, E, F], H, t);
    CoverCountSnoc([A, B, E, F, H], I, t);
    assert [] + [A] == [A] && [A] + [B] == [A, B];
    assert [A, B] + [E] == [A, B, E] && [A, B, E] + [F] == [A, B, E, F];
    assert [A, B, E, F] + [H] == [A, B, E, F, H] && [A, B, E, F, H] + [I] == [A, B, E, F, H, I];
  }

  lemma Mode2Disjoint(t: int)
    ensures CoverCount([A, B, C, F, G, H, I], t) <= 1
  {
    CoverCountSnoc([], A, t);
    CoverCountSnoc([A], B, t);
    CoverCountSnoc([A, B], C, t);
    CoverCountSnoc([A, B, C], F, t);
    CoverCountSnoc([A, B, C, F], G, t);
    CoverCountSnoc([A, B, C, F, G], H, t);
    CoverCountSnoc([A, B, C, F, G, H], I, t);
    assert [] + [A] == [A] && [A] + [B] == [A, B];
    assert [A, B] + [C] == [A, B, C] && [A, B, C] + [F] == [A, B, C, F];
    assert [A, B, C, F] + [G] == [A, B, C, F, G] && [A, B, C, F, G] + [H] == [A, B, C, F, G, H];
    assert [A, B, C, F, G, H] + [I] == [A, B, C, F, G, H, I];
  }

  lemma Mode3Disjoint(t: int)
    ensures CoverCount([A, B, C, D, F, G, H, I], t) <= 1
  {
    CoverCountSnoc([], A, t);
    CoverCountSnoc([A], B, t);
    CoverCountSnoc([A, B], C, t);
    CoverCountSnoc([A, B, C], D, t);
    CoverCountSnoc([A, B, C, D], F, t);
    CoverCountSnoc([A, B, C, D, F], G, t);
    CoverCountSnoc([A, B, C, D, F, G], H, t);
    CoverCountSnoc([A, B, C, D, F, G, H], I, t);
    assert [] + [A] == [A] && [A] + [B] == [A, B];
    assert [A, B] + [C] == [A, B, C] && [A, B, C] + [D] == [A, B, C, D];
    assert [A, B, C, D] + [F] == [A, B, C, D, F] && [A, B, C, D, F] + [G] == [A, B, C, D, F, G];
    assert [A, B, C, D, F, G] + [H] == [A, B, C, D, F, G, H];
    assert [A, B, C, D, F, G, H] + [I] == [A, B, C, D, F, G, H, I];
  }

  /** The breaks of each working mode are pairwise disjoint: no second of the day lies in two of them. */
  lemma ModeBreaksDisjoint(workingMode: string, secondOfDay: int)
    ensures CoverCount(ApplicableBreaks(workingMode), secondOfDay) <= 1
  {
    if workingMode == "mode2" {
      Mode2Disjoint(secondOfDay);
    } else if workingMode == "mode3" {
      Mode3Disjoint(secondOfDay);
    } else {
      Mode1Disjoint(secondOfDay);
    }
  }

  lemma BreakTimeOneSecond(t: int, workingMode: string)
    ensures BreakTime(t, t + 1, workingMode) <= 1
  {
    BreaksOverlapOneSecond(ApplicableBreaks(workingMode), t);
    ModeBreaksDisjoint(workingMode, t - DayOf(t) * 86400);
  }

  /** Break time never exceeds the elapsed time of the interval. */
  lemma {:induction false} BreakTimeAtMostElapsed(s: int, e: int, workingMode: string)
    requires s <= e
    ensures BreakTime(s, e, workingMode) <= e - s
    decreases e - s
  {
    if s == e {
      BreakTimeEmpty(s, e, workingMode);
    } else {
      BreakTimeAtMostElapsed(s, e - 1, workingMode);
      BreakTimeAdditive(s, e - 1, e, workingMode);
      BreakTimeOneSecond(e - 1, workingMode);
    }
  }

  // ---------------------------------------------------------------------------
  // One full local day
  // ---------------------------------------------------------------------------

  /** Sum of the lengths of the breaks `ids`. */
  function TotalSpanLength(ids: seq<BreakId>): int
  {
    if |ids| == 0 then 0
    else TotalSpanLength(ids[..|ids| - 1]) + (Span(ids[|ids| - 1]).endSec - Span(ids[|ids| - 1]).startSec)
  }

  lemma DaysOverlapFullDay(sp: DaySpan, day: int)
    requires WithinDay(sp)
    ensures DaysOverlap(sp, day * 86400, day * 86400 + 86400, day, day + 2) == sp.endSec - sp.startSec
  {
    DaysOverlapSplitDates(sp, day * 86400, day * 86400 + 86400, day, day + 1, day + 2);
    DaysOverlapAfter(sp, day * 86400, day * 86400 + 86400, day + 1, day + 2);
  }

  lemma {:induction false} BreaksOverlapFullDay(ids: seq<BreakId>, day: int)
    ensures BreaksOverlap(ids, day * 86400, day * 86400 + 86400) == TotalSpanLength(ids)
  {
    if |ids| > 0 {
      var id := ids[|ids| - 1];
      BreaksOverlapFullDay(ids[..|ids| - 1], day);
      TabledSpanWithinDay(id);
      DayOfMidnight(day);
      DayOfMidnight(day + 1);
      DaysOverlapFullDay(Span(id), day);
    }
  }

  /** One full local day holds 8100, 9000 and 10800 break seconds in modes 1, 2 and 3. */
  lemma FullDayBreakTime(day: int)
    ensures BreakTime(day * 86400, day * 86400 + 86400, "mode1") == 8100
    ensures BreakTime(day * 86400, day * 86400 + 86400, "mode2") == 9000
    ensures BreakTime(day * 86400, day * 86400 + 86400, "mode3") == 10800
  {
    BreaksOverlapFullDay(ApplicableBreaks("mode1"), day);
    BreaksOverlapFullDay(ApplicableBreaks("mode2"), day);
    BreaksOverlapFullDay(ApplicableBreaks("mode3"), day);
    ModeSpanLengths();
  }

  lemma TotalSpanLengthSnoc(ids: seq<BreakId>, id: BreakId)
    ensures TotalSpanLength(ids + [id]) == TotalSpanLength(ids) + (Span(id).endSec - Span(id).startSec)
  {
    assert (ids + [id])[..|ids|] == ids;
  }

  lemma Mode1SpanLength()
    ensures TotalSpanLength([A, B, E, F, H, I]) == 8100
  {
    var ids0: seq<BreakId> := [];
    TotalSpanLengthSnoc(ids0, A);
    var ids1 := ids0 + [A];
    TotalSpanLengthSnoc(ids1, B);
    var ids2 := ids1 + [B];
    TotalSpanLengthSnoc(ids2, E);
    var ids3 := ids2 + [E];
    TotalSpanLengthSnoc(ids3, F);
    var ids4 := ids3 + [F];
    TotalSpanLengthSnoc(ids4, H);
    var ids5 := ids4 + [H];
    TotalSpanLengthSnoc(ids5, I);
    var ids6 := ids5 + [I];
    assert ids6 == [A, B, E, F, H, I];
  }

  lemma Mode2SpanLength()
    ensures TotalSpanLength([A, B, C, F, G, H, I]) == 9000
  {
    var ids0: seq<BreakId> := [];
    TotalSpanLengthSnoc(ids0, A);
    var ids1 := ids0 + [A];
    TotalSpanLengthSnoc(ids1, B);
    var ids2 := ids1 + [B];
    TotalSpanLengthSnoc(ids2, C);
    var ids3 := ids2 + [C];
    TotalSpanLengthSnoc(ids3, F);
    var ids4 := ids3 + [F];
    TotalSpanLengthSnoc(ids4, G);
    var ids5 := ids4 + [G];
    TotalSpanLengthSnoc(ids5, H);
    var ids6 := ids5 + [H];
    TotalSpanLengthSnoc(ids6, I);
    var ids7 := ids6 + [I];
    assert ids7 == [A, B, C, F, G, H, I];
  }

  lemma Mode3SpanLength()
    ensures TotalSpanLength([A, B, C, D, F, G, H, I]) == 10800
  {
    var ids0: seq<BreakId> := [];
    TotalSpanLengthSnoc(ids0, A);
    var ids1 := ids0 + [A];
    TotalSpanLengthSnoc(ids1, B);
    var ids2 := ids1 + [B];
    TotalSpanLengthSnoc(ids2, C);
    var ids3 := ids2 + [C];
    TotalSpanLengthSnoc(ids3, D);
    var ids4 := ids3 + [D];
    TotalSpanLengthSnoc(ids4, F);
    var ids5 := ids4 + [F];
    TotalSpanLengthSnoc(ids5, G);
    var ids6 := ids5 + [G];
    TotalSpanLengthSnoc(ids6, H);
    var ids7 := ids6 + [H];
    TotalSpanLengthSnoc(ids7, I);
    var ids8 := ids7 + [I];
    assert ids8 == [A, B, C, D, F, G, H, I];
  }

  lemma ModeSpanLengths()
    ensures TotalSpanLength(ApplicableBreaks("mode1")) == 8100
    ensures TotalSpanLength(ApplicableBreaks("mode2")) == 9000
    ensures TotalSpanLength(ApplicableBreaks("mode3")) == 10800
  {
    Mode1SpanLength();
    Mode2SpanLength();
    Mode3SpanLength();
  }
}
