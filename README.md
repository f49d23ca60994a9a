# Production dashboard backend: time windows, break accounting and stream bookkeeping

The backend serves production-line statistics for a dashboard: per unit and per
product model it counts passed and failed tests over a time range, and derives
quality, the theoretical quantity a model's target rate allows in the operation
time, and performance. It serves a multi-unit report, an hourly breakdown of a
past range, and two socket streams, a standard one and an hourly one, that push
fresh figures to each client.

This project models the logic around the database and socket I/O:

- **Break accounting** (`ShiftBreaks`). Nine daily shift breaks are tabled, and each working mode applies a subset of them. The break time inside `[start, end]` is the clipped overlap with every applicable break window on every calendar day from the start date to the end date. Timestamps are integer seconds of local time: the zone is a fixed UTC+3 with no daylight saving, so the local date is `t / 86400`.
- **The production query's window and row shaping** (`ProductionData`). A request is either live or historical. It is live when the current time is at most five minutes past the requested end. The operation time is the window's length less breaks. The fetched rows, one per model, become model statistics.
- **The connection registry** (`ConnectionRegistry`). It maps connection type to the sockets of that type, in connection order.
- **Request parsing** (`RequestParsing`). This covers recognising an ordinary socket closure from its error message, rewriting `Z` as `+00:00` before a timestamp is parsed, and reading a socket message's start, end and working mode. It also covers the report's comma-separated unit list.
- **The report** (`Report`). Each unit's fetch is summarised under its name. Failed fetches are skipped. The integer grand totals are kept.
- **Hourly slicing** (`HourlySlicing`). These are the historical and live loops that cut a range into buckets of at most an hour, starting at the start rounded down to the hour. This module also holds the end-time clamp and the operation time of a live stream's totals.
- **The push loop's per-turn step** (`PushLoop`). Models without a target lose their performance. A client message is either a heartbeat to acknowledge or new parameters.

A few behaviours of the code are stated outright by the lemmas:

- `total_qty` of a model is its passed tests only.
- A model with a positive target but zero operation time gets theoretical quantity 0 and performance 0.
- A unit listed twice in a report request is summarised once but counted twice in the grand totals.
- When the requested end lies more than five minutes ahead, a live hourly stream's totals stop at the current time, while its hourly breakdown runs to the requested end.
- The break table has no window that wraps midnight. So the wrap branch of the break loop is modelled but never taken, and the additivity and bound proofs rely on that.

## Model

| member | source | states |
|---|---|---|
| LocalTime.DayOf | src/backend/database.py:54-55 | the local date of a time is the day whose midnight is at most that time and less than a day before it |
| LocalTime.HourFloor | src/backend/main.py:312 | the start rounded down to the hour is on the hour, at most the start and less than an hour before it |
| LocalTime.DayOfMonotonic | src/backend/database.py:54-57 | a later time never has an earlier date, so the date loop runs from the start date forward |
| ShiftBreaks.TabledSpanWithinDay | src/backend/database.py:13-23 | every tabled break starts and ends within one day and does not wrap midnight |
| ShiftBreaks.WindowWithinDay | src/backend/database.py:58-62 | a non-wrapping break's window on a date lies inside that date |
| ShiftBreaks.Overlap | src/backend/database.py:67-72 | the overlap counted for one break window is never negative |
| ShiftBreaks.BreaksOverlap | src/backend/database.py:41-76 | the total break time is never negative |
| ShiftBreaks.CalculateBreakTime | src/backend/database.py:32-76 | the nested loop over the mode's breaks and the dates from the start date to the end date computes the specification sum of clipped overlaps |
| ShiftBreaks.BreakOverlapOnDates | src/backend/database.py:54-74 | the inner date loop adds the clipped overlap of each date's window, with a wrapping window extended into the next day |
| ShiftBreaks.BreakTimeEmpty | src/backend/database.py:67-72 | an empty or reversed range has no break time |
| ShiftBreaks.DaysOverlapEmpty | src/backend/database.py:67-72 | for an empty range no date contributes any overlap |
| ShiftBreaks.BreaksOverlapEmpty | src/backend/database.py:48-72 | for an empty range no break contributes any overlap |
| ShiftBreaks.UnknownModeIsMode1 | src/backend/database.py:37-40 | an unknown working mode has exactly the break time of "mode1" |
| ShiftBreaks.OverlapSplit | src/backend/database.py:67-72 | the clipped overlap with one window is additive over a split of the range |
| ShiftBreaks.DaysOverlapSplitDates | src/backend/database.py:57-74 | the sum over dates splits at any date |
| ShiftBreaks.DaysOverlapSplitInterval | src/backend/database.py:57-74 | for a fixed set of dates, the sum over dates is additive over a split of the range |
| ShiftBreaks.DaysOverlapBefore | src/backend/database.py:58-72 | dates that end before the range starts contribute nothing |
| ShiftBreaks.DaysOverlapAfter | src/backend/database.py:58-72 | dates that start after the range ends contribute nothing |
| ShiftBreaks.DaysOverlapEarlyDates | src/backend/database.py:54-74 | splitting the range on a date that is still the middle point's date: the early part needs no later dates |
| ShiftBreaks.DaysOverlapLateDates | src/backend/database.py:54-74 | dates that start after the split point contribute only to the later part |
| ShiftBreaks.DaysOverlapAdditive | src/backend/database.py:54-74 | one break's overlap over the dates of `[s, e]` is the sum for `[s, m]` and `[m, e]`, each over its own dates |
| ShiftBreaks.BreaksOverlapAdditive | src/backend/database.py:48-74 | the summed overlap of a list of breaks is additive over a split of the range |
| ShiftBreaks.BreakTimeAdditive | src/backend/database.py:32-76 | the break time of `[s, e]` is the break time of `[s, m]` plus that of `[m, e]` for `s <= m <= e` |
| ShiftBreaks.CoverCount | src/backend/database.py:26-30 | the number of a mode's breaks covering a second of the day is at most the number of breaks |
| ShiftBreaks.DaysOverlapOneSecond | src/backend/database.py:57-72 | one second contributes one second of break exactly when the break covers that second of the day |
| ShiftBreaks.BreaksOverlapOneSecond | src/backend/database.py:48-72 | one second's break time is the number of applicable breaks covering it |
| ShiftBreaks.CoverCountSnoc | src/backend/database.py:48 | adding a break to the list adds one to the cover count exactly when it covers the second |
| ShiftBreaks.Mode1Disjoint | src/backend/database.py:13-27 | the breaks of mode1 are pairwise disjoint |
| ShiftBreaks.Mode2Disjoint | src/backend/database.py:13-28 | the breaks of mode2 are pairwise disjoint |
| ShiftBreaks.Mode3Disjoint | src/backend/database.py:13-29 | the breaks of mode3 are pairwise disjoint |
| ShiftBreaks.ModeBreaksDisjoint | src/backend/database.py:13-40 | whatever the mode, at most one applicable break covers any second of the day |
| ShiftBreaks.BreakTimeOneSecond | src/backend/database.py:32-76 | one second holds at most one second of break |
| ShiftBreaks.BreakTimeAtMostElapsed | src/backend/database.py:32-76 | the break time never exceeds the elapsed time `end - start` |
| ShiftBreaks.DaysOverlapFullDay | src/backend/database.py:57-74 | over one full local day a break contributes its whole length |
| ShiftBreaks.BreaksOverlapFullDay | src/backend/database.py:48-74 | over one full local day the breaks contribute the sum of their lengths |
| ShiftBreaks.FullDayBreakTime | src/backend/database.py:13-30 | one full local day holds 8100 s of break in mode1, 9000 s in mode2 and 10800 s in mode3 |
| ShiftBreaks.TotalSpanLengthSnoc | src/backend/database.py:13-23 | the tabled length of a list of breaks grows by each added break's length |
| ShiftBreaks.Mode1SpanLength | src/backend/database.py:13-27 | the breaks of mode1 last 8100 s in total |
| ShiftBreaks.Mode2SpanLength | src/backend/database.py:13-28 | the breaks of mode2 last 9000 s in total |
| ShiftBreaks.Mode3SpanLength | src/backend/database.py:13-29 | the breaks of mode3 last 10800 s in total |
| ShiftBreaks.ModeSpanLengths | src/backend/database.py:26-30 | each mode's applicable breaks have the tabled total length |
| ProductionData.Quality | src/backend/database.py:203 | quality is in [0, 1], 0 exactly when nothing passed, 1 exactly when something passed and nothing failed |
| ProductionData.SelectWindow | src/backend/database.py:129-162 | without a current time the query ends at the requested end and the operation at the later of start and end; within five minutes of the end, both end at the later of start and the current time; otherwise both end at the requested end |
| ProductionData.OperationTime | src/backend/database.py:188-190 | the operation time is between 0 and the elapsed time, and is elapsed time less break time for a forward window |
| ProductionData.RowStatsMeaning | src/backend/database.py:196-233 | a row's quantity is its passed tests; its quality is the passed share, 0 when nothing was tested; performance is absent exactly when the target is absent or not positive; theoretical quantity is 0 without a positive target and otherwise 0 exactly when the operation time is 0, in which case performance is 0; performance is never negative |
| ProductionData.ShapeRows | src/backend/database.py:193-235 | the two passes return one shaped row per fetched row, in row order |
| ProductionData.ZeroPerformanceOfTargeted | src/backend/database.py:230-233 | the fallback pass gives performance 0 to each model with a positive target and leaves the others unchanged |
| ProductionData.NoTargetNoPerformance | src/backend/database.py:208-233 | when no row has a positive target, no model gets a performance and all theoretical quantities are 0 |
| ProductionData.GetProductionData | src/backend/database.py:128-235 | the query end follows the live-versus-historical choice, and each row is shaped with the operation hours of the selected window |
| ProductionData.OperationHours | src/backend/database.py:188-191 | the operation time in hours is never negative |
| ConnectionRegistry.InitialConnections | src/backend/main.py:122-126 | a new registry holds exactly the types "standard" and "hourly", both with no sockets |
| ConnectionRegistry.FirstIndex | src/backend/main.py:137-138 | the first position of a socket in a list, or the list's length when it is absent |
| ConnectionRegistry.RemoveFirstCutsFirst | src/backend/main.py:137-138 | removal cuts out exactly the first occurrence, and removes nothing when the socket is absent |
| ConnectionRegistry.RemoveFirstMultiset | src/backend/main.py:137-138 | removal takes away one copy of the socket, when present, and keeps every other socket |
| ConnectionRegistry.ConnectAppends | src/backend/main.py:128-132 | connecting appends the socket at the end of its type's list, creating the list for a new type, and leaves every other type unchanged |
| ConnectionRegistry.DisconnectRemovesFirstOnly | src/backend/main.py:134-138 | disconnecting never deletes a type, removes one copy of the socket from its type only, and changes nothing when the type is unknown or the socket absent |
| ConnectionRegistry.ConnectThenDisconnect | src/backend/main.py:128-138 | connecting and then disconnecting a new socket restores the registry, apart from a new type staying registered with an empty list |
| ConnectionRegistry.RemoveFirstOfAppended | src/backend/main.py:132-138 | removing a socket just appended to a list without it gives back that list |
| ConnectionRegistry.ConnectionManager.constructor | src/backend/main.py:122-126 | the registry starts as the initial connections |
| ConnectionRegistry.ConnectionManager.Connect | src/backend/main.py:128-132 | the registry after connecting is the connect update of the registry before |
| ConnectionRegistry.ConnectionManager.Disconnect | src/backend/main.py:134-138 | the registry after disconnecting is the disconnect update of the registry before |
| ConnectionRegistry.ConnectionManager.Broadcast | src/backend/main.py:140-143 | a broadcast addresses the type's sockets in list order, and none for an unknown type |
| RequestParsing.Lower | src/backend/main.py:79 | lower-casing keeps the length and lowers each character |
| RequestParsing.LowerIdempotent | src/backend/main.py:79 | lowering twice is lowering once |
| RequestParsing.ContainsIff | src/backend/main.py:80 | the substring scan succeeds exactly when the phrase occurs at some position of the message |
| RequestParsing.AnyPhraseInIff | src/backend/main.py:80-83 | `any` over the phrases holds exactly when some phrase occurs in the message |
| RequestParsing.IsNormalWsCloseIff | src/backend/main.py:77-83 | a closure is ordinary exactly when the lower-cased message contains one of the seven listed phrases |
| RequestParsing.LowerOfLowerCase | src/backend/main.py:79 | a string without capitals is its own lower case |
| RequestParsing.PhrasesAreLowerCase | src/backend/main.py:81-82 | the listed phrases are lower case |
| RequestParsing.PhraseMakesNormalClose | src/backend/main.py:77-83 | a message containing a listed phrase verbatim is an ordinary closure |
| RequestParsing.IsNormalWsCloseIgnoresCase | src/backend/main.py:79 | the classification ignores letter case |
| RequestParsing.EmptyMessageIsNotNormalClose | src/backend/main.py:80-83 | an empty message is not an ordinary closure |
| RequestParsing.ReplaceZ | src/backend/main.py:88-89 | no `Z` is left after the rewrite |
| RequestParsing.ReplaceZLength | src/backend/main.py:88-89 | every `Z`, not only a trailing one, is replaced, growing the string by five characters each |
| RequestParsing.ReplaceZAppend | src/backend/main.py:88-89 | the rewrite works piece by piece over concatenation |
| RequestParsing.ReplaceZWithoutZ | src/backend/main.py:88-89 | a timestamp without `Z` is left unchanged |
| RequestParsing.ReplaceZIdempotent | src/backend/main.py:88-89 | rewriting twice is rewriting once |
| RequestParsing.ReplaceZSuffix | src/backend/main.py:88-89 | a trailing `Z` becomes the offset `+00:00` |
| RequestParsing.ParseWsParamsMeaning | src/backend/main.py:86-99 | a message is read exactly when both times are present strings that parse once their `Z`s are rewritten; the working mode defaults to "mode1"; a missing start time is the first error |
| RequestParsing.ParseWsParamsIgnoresOtherFields | src/backend/main.py:86-99 | fields other than the three parameters do not affect the reading |
| RequestParsing.ParseTimeParams | src/backend/main.py:102-114 | the query's times are read exactly when both strings parse once their `Z`s are rewritten, and a start time that does not parse is the error reported |
| RequestParsing.WsAndQueryAgree | src/backend/main.py:86-114 | a socket message and a query with the same time strings read the same times |
| RequestParsing.Split | src/backend/main.py:162 | splitting yields at least one item, and no item holds a comma |
| RequestParsing.JoinSplit | src/backend/main.py:162 | joining the split items with commas gives back the original string |
| RequestParsing.SplitJoin | src/backend/main.py:162 | comma-free items survive being joined and split |
| RequestParsing.StripLeft | src/backend/main.py:162 | left stripping removes only leading whitespace, up to the first non-space character |
| RequestParsing.StripRight | src/backend/main.py:162 | right stripping removes only trailing whitespace, back to the last non-space character |
| RequestParsing.StripMeaning | src/backend/main.py:162 | stripping keeps a contiguous part that neither starts nor ends with whitespace and cuts only whitespace |
| RequestParsing.StripStripped | src/backend/main.py:162 | a string without whitespace at either end is its own strip |
| RequestParsing.StripIdempotent | src/backend/main.py:162 | stripping twice is stripping once |
| RequestParsing.StripKeepsNoComma | src/backend/main.py:162 | stripping a comma-free item leaves it comma-free |
| RequestParsing.KeepUnitsItems | src/backend/main.py:162 | every unit kept is non-empty, stripped and comma-free |
| RequestParsing.KeepUnitsEmpty | src/backend/main.py:162-163 | no unit is kept exactly when every item is blank |
| RequestParsing.ParseUnitListMeaning | src/backend/main.py:162-164 | parsing yields at least one proper unit name, and fails with status 400 exactly when every comma-separated item is blank |
| RequestParsing.KeepUnitsOfUnits | src/backend/main.py:162 | proper unit names are all kept, in order |
| RequestParsing.UnitListRoundTrip | src/backend/main.py:162-164 | a list of proper unit names survives being sent as one comma-separated string |
| RequestParsing.EmptyUnitListRefused | src/backend/main.py:162-164 | an empty unit parameter is refused with 400 |
| Report.Summarize | src/backend/main.py:192-208 | a unit's passed and failed counts are the sums over its models, its quantity is their sum, its quality is the passed share (0 when nothing was tested), and its performance sum adds the models' present performances |
| Report.Put | src/backend/main.py:201-208 | assigning a present name keeps every entry's place, and a new name is appended |
| Report.PutKeys | src/backend/main.py:201-208 | assignment leaves the names unchanged for a present name and appends a new one |
| Report.PutLookup | src/backend/main.py:201-208 | after assignment the name maps to the new summary, and every other name to what it did |
| Report.AggregateReport | src/backend/main.py:168-218 | the loop builds the per-unit part and the grand totals of the successful fetches, and the total production is passed plus failed |
| Report.Dedup | src/backend/main.py:201 | dropping repetitions keeps exactly the same names |
| Report.UnitsOfKeys | src/backend/main.py:177-208 | the report's units are the successfully fetched names, each once, in the order they first succeeded |
| Report.UnitInReport | src/backend/main.py:177-208 | a name is in the report exactly when one of its fetches succeeded |
| Report.SucceededMembers | src/backend/main.py:177-189 | a name is among the successful fetches exactly when one of its fetches succeeded |
| Report.UnitsOfLastWins | src/backend/main.py:201-208 | a name maps to the summary of its last successful fetch |
| Report.TotalsSkipFailure | src/backend/main.py:184-212 | a failed fetch anywhere in the list adds nothing to the passed and failed totals |
| Report.TotalsSkipFailures | src/backend/main.py:184-212 | when every fetch fails, both totals are zero |
| Report.AllSkippedReport | src/backend/main.py:177-218 | when every fetch fails, the report has no units and zero totals |
| Report.DuplicateUnitCountedTwice | src/backend/main.py:177-212 | a unit listed twice appears once in the per-unit part, with one fetch's summary, but both its passed and its failed tests are counted twice in the totals |
| HourlySlicing.SlicesShape | src/backend/main.py:311-372 | bucket `i` starts `i` hours after the floored start, ends an hour later or at the end, and is never empty |
| HourlySlicing.SlicesContiguous | src/backend/main.py:316-372 | each bucket starts where the previous one ends |
| HourlySlicing.SlicesEnds | src/backend/main.py:311-372 | there are buckets exactly when the floored start is before the end; the first starts at the floored start and the last ends at the end |
| HourlySlicing.SlicesCover | src/backend/main.py:316-372 | the buckets cover the range from the floored start to the end exactly |
| HourlySlicing.SlicesCount | src/backend/main.py:316-372 | the number of buckets is the range's length in hours, rounded up |
| HourlySlicing.SlicesOnTheHour | src/backend/main.py:311-372 | every bucket starts on the hour |
| HourlySlicing.EmitFromSucceeded | src/backend/main.py:321-371 | every emitted bucket is the bucket of one window whose fetch succeeded |
| HourlySlicing.EmitSucceeded | src/backend/main.py:321-371 | every window whose fetch succeeds yields its bucket |
| HourlySlicing.EmitSkipsFailure | src/backend/main.py:325-333 | a failed hour emits nothing, and the buckets are those of the other windows |
| HourlySlicing.EmitAllSucceed | src/backend/main.py:317-372 | when every fetch succeeds there is one bucket per window, in window order |
| HourlySlicing.SumTotalIsSuccess | src/backend/main.py:337 | a bucket's quantity equals its passed tests when its rows come from the production query |
| HourlySlicing.EmitStep | src/backend/main.py:317-372 | one loop turn emits the first window's bucket, when its fetch succeeds, before the rest |
| HourlySlicing.BucketsSnoc | src/backend/main.py:339-341 | adding a bucket adds its counts to the running totals |
| HourlySlicing.HistoricalHourly | src/backend/main.py:311-374 | the historical loop emits the buckets of the successful hours from the floored start to the end, with running totals and total quality |
| HourlySlicing.LiveHourly | src/backend/main.py:585-655 | the live loop terminates and emits the buckets from the floored start to the current time when it is within five minutes of the end on either side, and to the end otherwise |
| HourlySlicing.FarFutureEndSplitsTotalsAndHours | src/backend/main.py:565-594 | with an end more than five minutes ahead, the totals run to the current time and the hourly breakdown to the end |
| HourlySlicing.LiveOperationTime | src/backend/main.py:570-572 | a stream's operation time is never negative |
| HourlySlicing.LiveOperationTimeAgrees | src/backend/main.py:459-466 | the stream's clamped operation time equals the one the production query computes for the same window |
| HourlySlicing.LiveOperationTimeBounded | src/backend/main.py:464-466 | the stream's operation time never exceeds the elapsed time |
| PushLoop.ClearUntargeted | src/backend/main.py:435-438 | models with an absent or zero target lose their performance, and the others are unchanged |
| PushLoop.ClearUntargetedKeepsShapedRows | src/backend/main.py:435-438 | on rows shaped by the production query the clearing changes nothing |
| PushLoop.OnClientMessageMeaning | src/backend/main.py:497-506 | a truthy heartbeat is acknowledged and keeps the parameters; any other message replaces all three parameters, or closes the socket when they cannot be read |
| PushLoop.NewParamsForgetOld | src/backend/main.py:500-503 | a parameter message's outcome does not depend on the parameters it replaces |
| PushLoop.HeartbeatsKeepParams | src/backend/main.py:497-506 | heartbeats and silences never change the parameters |
| PushLoop.StreamModeFallsBackToMode1 | src/backend/database.py:37-40 | a stream's working mode that is not a tabled mode name, a non-string value included, is accounted with the breaks of "mode1" |
| PushLoop.LastParamsWin | src/backend/main.py:497-506 | the parameters in force are those of the last parameter message |

## Left out

- Database access: the pool, the DSN, the unit list query and the SQL of the production query. The fetched rows, and each unit's or hour's fetch outcome, are inputs. Timeouts and errors are an absent outcome.
- Socket I/O and timing: accepting, sending and receiving, `asyncio.wait_for`, the twelve-second push cadence and the connection-state checks. `Broadcast` returns the sockets it would address, in order, and sends nothing.
- Routing, CORS, static files and the single-page fallback, which are framework configuration.
- Parsing ISO timestamps and converting time zones: `parseIso` is a parameter that reads a timestamp, with its `Z` already rewritten, as local seconds or fails. So the model does not capture that only the start's offset decides whether the end is converted.
- Floating point: quality and per-model performance are exact `real`s. These are left out: the weighted quality and weighted performance of the report, the weighted target rate, theoretical quantity and performance of an hour and of a stream's totals, the per-unit `unit_performance_sum` of the historical-data endpoint and of the standard stream (`src/backend/main.py:284`, `src/backend/main.py:471`), and `oee`.
- The aggregate historical-data endpoint (`src/backend/main.py:242-302`) and the totals of the standard stream (`src/backend/main.py:440-493`) are not part of this model, apart from the operation-time clamp they share.
- The hourly stream's final pass that turns missing quality, performance and `oee` into 0 (`src/backend/main.py:672-678`): these values are never missing, so the pass changes nothing.
- Logging, and the mapping of exceptions to HTTP status codes other than the 400 for an empty unit list.
- RequestParsing.Lower: lowers ASCII letters only. Unicode case mappings are left out, for example those that change the string's length.
- ProductionData.Row: a model's target is an integer, while the target column may hold a fraction. The model keeps the distinction that matters: absent, positive, or zero or negative.
- Json: numbers are integers, and arrays and objects are left out. So the truth value of an array or object in a heartbeat field, and a message that is not a JSON object, are not modelled.
- ShiftBreaks.CalculateBreakTime: the inner loop over dates is its own method, `BreakOverlapOnDates`, with the same statements.
