/**
 * The string handling at the edge of the service: telling an ordinary socket
 * closure from a real error, turning the request's ISO timestamps (with a
 * `Z` suffix) into local seconds, reading a socket message's parameters, and
 * splitting the report's comma-separated unit list.
 */
module RequestParsing {
  import opened Wrappers

  // ---------------------------------------------------------------------
  // Lower case and substring search
  // ---------------------------------------------------------------------

  /** Lower case of one character (ASCII letters only). */
  function LowerChar(c: char): char
  {
    if 'A' <= c <= 'Z' then (c as int + 32) as char else c
  }

  /** Lower case of a string, character by character. */
  function Lower(s: string): (r: string)
    ensures |r| == |s|
    ensures forall i :: 0 <= i < |s| ==> r[i] == LowerChar(s[i])
  {
    if |s| == 0 then [] else [LowerChar(s[0])] + Lower(s[1..])
  }

  /** Lowering twice is lowering once. */
  lemma LowerIdempotent(s: string)
    ensures Lower(Lower(s)) == Lower(s)
  {
  }

  predicate StartsWith(s: string, p: string)
  {
    |p| <= |s| && s[..|p|] == p
  }

  /** `p in s` as a left-to-right scan of the positions of `s`. */
  predicate Contains(s: string, p: string)
    decreases |s|
  {
    StartsWith(s, p) || (|s| > 0 && Contains(s[1..], p))
  }

  /** `p` occurs in `s` starting at position `i`. */
  predicate OccursAt(s: string, p: string, i: int)
  {
    0 <= i <= |s| - |p| && s[i..i + |p|] == p
  }

  /** The scan finds `p` exactly when `p` occurs in `s` at some position. */
  lemma {:induction false} ContainsIff(s: string, p: string)
    ensures Contains(s, p) <==> exists i :: OccursAt(s, p, i)
    decreases |s|
  {
    if StartsWith(s, p) {
      assert OccursAt(s, p, 0);
    } else if |s| > 0 {
      ContainsIff(s[1..], p);
      if Contains(s[1..], p) {
        var j :| OccursAt(s[1..], p, j);
        assert s[j + 1..j + 1 + |p|] == s[1..][j..j + |p|];
        assert OccursAt(s, p, j + 1);
      }
      if exists i :: OccursAt(s, p, i) {
        var i :| OccursAt(s, p, i);
        if i > 0 {
          assert s[1..][i - 1..i - 1 + |p|] == s[i..i + |p|];
          assert OccursAt(s[1..], p, i - 1);
        }
      }
    }
  }

  // ---------------------------------------------------------------------
  // Ordinary socket closures
  // ---------------------------------------------------------------------

  /** Phrases of an exception message that mark an expected socket closure. */
  const NormalClosePhrases: seq<string> := [
    "keepalive ping timeout", "heartbeat timeout", "1011",
    "connection closed", "1005", "1000", "no status received"]

  predicate AnyPhraseIn(phrases: seq<string>, message: string)
  {
    |phrases| > 0 && (Contains(message, phrases[0]) || AnyPhraseIn(phrases[1..], message))
  }

  /** Whether an exception with this message is an expected closure rather than a fault. */
  predicate IsNormalWsClose(errorMessage: string)
  {
    AnyPhraseIn(NormalClosePhrases, Lower(errorMessage))
  }

  lemma {:induction false} AnyPhraseInIff(phrases: seq<string>, message: string)
    ensures AnyPhraseIn(phrases, message) <==>
              exists k, i :: 0 <= k < |phrases| && OccursAt(message, phrases[k], i)
  {
    if |phrases| > 0 {
      ContainsIff(message, phrases[0]);
      AnyPhraseInIff(phrases[1..], message);
      if exists k, i :: 0 <= k < |phrases| && OccursAt(message, phrases[k], i) {
        var k, i :| 0 <= k < |phrases| && OccursAt(message, phrases[k], i);
        if k > 0 {
          assert OccursAt(message, phrases[1..][k - 1], i);
        }
      }
      if AnyPhraseIn(phrases[1..], message) {
        var k, i :| 0 <= k < |phrases[1..]| && OccursAt(message, phrases[1..][k], i);
        assert OccursAt(message, phrases[k + 1], i);
      }
    }
  }

  /** A closure is ordinary exactly when the lower-cased message contains one of the seven phrases. */
  lemma IsNormalWsCloseIff(errorMessage: string)
    ensures IsNormalWsClose(errorMessage) <==>
              exists k, i :: 0 <= k < |NormalClosePhrases| && OccursAt(Lower(errorMessage), NormalClosePhrases[k], i)
  {
    var msg := Lower(errorMessage);
    AnyPhraseInIff(NormalClosePhrases, msg);
    if IsNormalWsClose(errorMessage) {
      var k, i :| 0 <= k < |NormalClosePhrases| && OccursAt(msg, NormalClosePhrases[k], i);
      assert 0 <= k < |NormalClosePhrases| && OccursAt(Lower(errorMessage), NormalClosePhrases[k], i);
    }
  }

  /** A string without capital letters is its own lower case. */
  lemma LowerOfLowerCase(p: string)
    requires forall j :: 0 <= j < |p| ==> !('A' <= p[j] <= 'Z')
    ensures Lower(p) == p
  {
    assert forall j :: 0 <= j < |p| ==> Lower(p)[j] == p[j];
  }

  /** The phrases are all lower case. */
  lemma PhrasesAreLowerCase(k: int)
    requires 0 <= k < |NormalClosePhrases|
    ensures Lower(NormalClosePhrases[k]) == NormalClosePhrases[k]
  {
    LowerOfLowerCase(NormalClosePhrases[k]);
  }

  /** A message that contains one of the phrases verbatim is an ordinary closure. */
  lemma PhraseMakesNormalClose(errorMessage: string, k: int, i: int)
    requires 0 <= k < |NormalClosePhrases|
    requires OccursAt(errorMessage, NormalClosePhrases[k], i)
    ensures IsNormalWsClose(errorMessage)
  {
    var p := NormalClosePhrases[k];
    PhrasesAreLowerCase(k);
    var msg := Lower(errorMessage);
    assert msg[i..i + |p|] == Lower(p);
    assert OccursAt(msg, p, i);
    IsNormalWsCloseIff(errorMessage);
  }

  /** The classification ignores letter case. */
  lemma IsNormalWsCloseIgnoresCase(errorMessage: string)
    ensures IsNormalWsClose(Lower(errorMessage)) == IsNormalWsClose(errorMessage)
  {
    LowerIdempotent(errorMessage);
  }

  /** An empty message is not an ordinary closure: no phrase is empty. */
  lemma EmptyMessageIsNotNormalClose()
    ensures !IsNormalWsClose("")
  {
    IsNormalWsCloseIff("");
  }

  // ---------------------------------------------------------------------
  // Timestamps
  // ---------------------------------------------------------------------

  const UtcOffsetSuffix: string := "+00:00"

  /** Every `Z` of a timestamp rewritten as an explicit zero offset. */
  function ReplaceZ(s: string): (r: string)
    ensures 'Z' !in r
  {
    if |s| == 0 then []
    else (if s[0] == 'Z' then UtcOffsetSuffix else [s[0]]) + ReplaceZ(s[1..])
  }

  function CountZ(s: string): nat
  {
    if |s| == 0 then 0 else (if s[0] == 'Z' then 1 else 0) + CountZ(s[1..])
  }

  /** Each `Z`, wherever it stands, grows the timestamp by five characters. */
  lemma {:induction false} ReplaceZLength(s: string)
    ensures |ReplaceZ(s)| == |s| + 5 * CountZ(s)
  {
    if |s| > 0 {
      ReplaceZLength(s[1..]);
    }
  }

  /** The rewrite works piece by piece. */
  lemma {:induction false} ReplaceZAppend(a: string, b: string)
    ensures ReplaceZ(a + b) == ReplaceZ(a) + ReplaceZ(b)
  {
    if |a| == 0 {
      assert a + b == b;
    } else {
      var head := if a[0] == 'Z' then UtcOffsetSuffix else [a[0]];
      assert (a + b)[0] == a[0];
      assert (a + b)[1..] == a[1..] + b;
      calc {
        ReplaceZ(a + b);
        head + ReplaceZ(a[1..] + b);
        { ReplaceZAppend(a[1..], b); }
        head + (ReplaceZ(a[1..]) + ReplaceZ(b));
        (head + ReplaceZ(a[1..])) + ReplaceZ(b);
      }
    }
  }

  /** A timestamp without `Z` is left as it is, so the rewrite is idempotent. */
  lemma {:induction false} ReplaceZWithoutZ(s: string)
    requires 'Z' !in s
    ensures ReplaceZ(s) == s
  {
    if |s| > 0 {
      assert s == [s[0]] + s[1..];
      ReplaceZWithoutZ(s[1..]);
    }
  }

  lemma ReplaceZIdempotent(s: string)
    ensures ReplaceZ(ReplaceZ(s)) == ReplaceZ(s)
  {
    ReplaceZWithoutZ(ReplaceZ(s));
  }

  /** A `Z` suffix is read as UTC. */
  lemma ReplaceZSuffix(s: string)
    requires 'Z' !in s
    ensures ReplaceZ(s + "Z") == s + UtcOffsetSuffix
  {
    ReplaceZAppend(s, "Z");
    ReplaceZWithoutZ(s);
  }

  // ---------------------------------------------------------------------
  // Socket messages and query parameters
  // ---------------------------------------------------------------------

  /** A JSON value of a socket message. */
  datatype Json = JNull | JBool(b: bool) | JNum(n: int) | JStr(s: string)

  /** A decoded socket message: a JSON object. */
  type Message = map<string, Json>

  /** Why a message's parameters could not be read. */
  datatype ParamError = MissingField(field: string) | NotAString(field: string) | BadTimestamp(field: string)

  /** Start and end in local seconds, and the working mode as the message gave it. */
  datatype WsParams = WsParams(startTime: int, endTime: int, workingMode: Json)

  /** The mode used when a message names none. */
  const DefaultWorkingMode: string := "mode1"

  /** The working mode as the break tables see it: a non-string value is no table key,
      so it is treated like the default mode. */
  function ModeKey(workingMode: Json): string
  {
    if workingMode.JStr? then workingMode.s else DefaultWorkingMode
  }

  /** A string field of a message, with `Z` rewritten. */
  function TimestampField(msg: Message, field: string): Result<string, ParamError>
  {
    if field !in msg then Failure(MissingField(field))
    else if !msg[field].JStr? then Failure(NotAString(field))
    else Success(ReplaceZ(msg[field].s))
  }

  /** Reads start, end and working mode from a socket message. `parseIso` reads an ISO
      timestamp (with an explicit offset) as local seconds, or fails. */
  function ParseWsParams(msg: Message, parseIso: string -> Option<int>): (r: Result<WsParams, ParamError>)
  {
    var startStr := TimestampField(msg, "start_time");
    if startStr.Failure? then Failure(startStr.error)
    else
      var endStr := TimestampField(msg, "end_time");
      if endStr.Failure? then Failure(endStr.error)
      else
        var workingMode := if "working_mode" in msg then msg["working_mode"] else JStr(DefaultWorkingMode);
        var startTime := parseIso(startStr.value);
        if startTime.None? then Failure(BadTimestamp("start_time"))
        else
          var endTime := parseIso(endStr.value);
          if endTime.None? then Failure(BadTimestamp("end_time"))
          else Success(WsParams(startTime.value, endTime.value, workingMode))
  }

  /** A message is read successfully exactly when both times are present strings that
      parse once their `Z`s are rewritten; the mode then defaults to "mode1". */
  lemma ParseWsParamsMeaning(msg: Message, parseIso: string -> Option<int>)
    ensures var r := ParseWsParams(msg, parseIso);
      && (r.Success? <==>
            "start_time" in msg && msg["start_time"].JStr? && "end_time" in msg && msg["end_time"].JStr? &&
            parseIso(ReplaceZ(msg["start_time"].s)).Some? && parseIso(ReplaceZ(msg["end_time"].s)).Some?)
      && (r.Success? ==>
            r.value.startTime == parseIso(ReplaceZ(msg["start_time"].s)).value &&
            r.value.endTime == parseIso(ReplaceZ(msg["end_time"].s)).value &&
            ("working_mode" !in msg ==> r.value.workingMode == JStr(DefaultWorkingMode)) &&
            ("working_mode" in msg ==> r.value.workingMode == msg["working_mode"]))
      && ("start_time" !in msg ==> r == Failure(MissingField("start_time")))
  {
  }

  /** Fields other than the three parameters do not affect the reading. */
  lemma ParseWsParamsIgnoresOtherFields(msg: Message, field: string, value: Json, parseIso: string -> Option<int>)
    requires field != "start_time" && field != "end_time" && field != "working_mode"
    ensures ParseWsParams(msg[field := value], parseIso) == ParseWsParams(msg, parseIso)
  {
    var msg' := msg[field := value];
    assert TimestampField(msg', "start_time") == TimestampField(msg, "start_time");
    assert TimestampField(msg', "end_time") == TimestampField(msg, "end_time");
  }

  /** Reads start and end from the raw query strings of a request. */
  function ParseTimeParams(startTimeRaw: string, endTimeRaw: string, parseIso: string -> Option<int>)
    : (r: Result<(int, int), ParamError>)
    ensures r.Success? <==> parseIso(ReplaceZ(startTimeRaw)).Some? && parseIso(ReplaceZ(endTimeRaw)).Some?
    ensures r.Success? ==> r.value == (parseIso(ReplaceZ(startTimeRaw)).value, parseIso(ReplaceZ(endTimeRaw)).value)
    ensures parseIso(ReplaceZ(startTimeRaw)).None? ==> r == Failure(BadTimestamp("start_time"))
  {
    var startTime := parseIso(ReplaceZ(startTimeRaw));
    if startTime.None? then Failure(BadTimestamp("start_time"))
    else
      var endTime := parseIso(ReplaceZ(endTimeRaw));
      if endTime.None? then Failure(BadTimestamp("end_time"))
      else Success((startTime.value, endTime.value))
  }

  /** A socket message carrying the same two strings reads the same times as the query. */
  lemma WsAndQueryAgree(msg: Message, parseIso: string -> Option<int>)
    requires "start_time" in msg && msg["start_time"].JStr?
    requires "end_time" in msg && msg["end_time"].JStr?
    ensures var q := ParseTimeParams(msg["start_time"].s, msg["end_time"].s, parseIso);
      var w := ParseWsParams(msg, parseIso);
      && (q.Success? <==> w.Success?)
      && (q.Success? ==> q.value == (w.value.startTime, w.value.endTime))
  {
  }

  // ---------------------------------------------------------------------
  // The report's unit list
  // ---------------------------------------------------------------------

  /** Whitespace as Python's `str.isspace` defines it. */
  predicate IsSpace(c: char)
  {
    c == ' ' || '\t' <= c <= '\r' || '\U{1C}' <= c <= '\U{1F}' || c == '\U{85}' || c == '\U{A0}' ||
    c == '\U{1680}' || '\U{2000}' <= c <= '\U{200A}' || c == '\U{2028}' || c == '\U{2029}' ||
    c == '\U{202F}' || c == '\U{205F}' || c == '\U{3000}'
  }

  /** `s` split at every comma; an empty string is one empty item. */
  function Split(s: string): (parts: seq<string>)
    ensures |parts| >= 1
    ensures forall k :: 0 <= k < |parts| ==> ',' !in parts[k]
  {
    if |s| == 0 then [""]
    else
      var rest := Split(s[1..]);
      if s[0] == ',' then [""] + rest else [[s[0]] + rest[0]] + rest[1..]
  }

  /** Items joined with commas between them. */
  function Join(parts: seq<string>): string
    requires |parts| >= 1
  {
    if |parts| == 1 then parts[0] else parts[0] + "," + Join(parts[1..])
  }

  /** Splitting loses nothing: joining the items back gives the original string. */
  lemma {:induction false} JoinSplit(s: string)
    ensures Join(Split(s)) == s
  {
    if |s| > 0 {
      JoinSplit(s[1..]);
      var rest := Split(s[1..]);
      if s[0] == ',' {
        assert s == "" + "," + s[1..];
      } else if |rest| == 1 {
        assert s == [s[0]] + s[1..];
      } else {
        assert Join(rest) == rest[0] + "," + Join(rest[1..]);
        assert s == [s[0]] + s[1..];
      }
    }
  }

  /** Items without commas come back unchanged from a split of their join. */
  lemma {:induction false} SplitJoin(parts: seq<string>)
    requires |parts| >= 1
    requires forall k :: 0 <= k < |parts| ==> ',' !in parts[k]
    ensures Split(Join(parts)) == parts
    decreases |parts|, |parts[0]|
  {
    if |parts[0]| > 0 {
      var p := parts[0];
      var tail := [p[1..]] + parts[1..];
      assert ',' !in p[1..];
      SplitJoin(tail);
      if |parts| == 1 {
        assert Join(parts) == [p[0]] + Join(tail);
      } else {
        assert Join(parts) == [p[0]] + Join(tail);
      }
      assert p == [p[0]] + p[1..];
      assert Join(parts)[1..] == Join(tail);
    } else if |parts| > 1 {
      SplitJoin(parts[1..]);
      assert Join(parts) == "," + Join(parts[1..]);
      assert Join(parts)[1..] == Join(parts[1..]);
    }
  }

  function StripLeft(s: string): (r: string)
    ensures |r| <= |s| && r == s[|s| - |r|..]
    ensures forall k :: 0 <= k < |s| - |r| ==> IsSpace(s[k])
    ensures |r| > 0 ==> !IsSpace(r[0])
  {
    if |s| > 0 && IsSpace(s[0]) then StripLeft(s[1..]) else s
  }

  function StripRight(s: string): (r: string)
    ensures |r| <= |s| && r == s[..|r|]
    ensures forall k :: |r| <= k < |s| ==> IsSpace(s[k])
    ensures |r| > 0 ==> !IsSpace(r[|r| - 1])
  {
    if |s| > 0 && IsSpace(s[|s| - 1]) then StripRight(s[..|s| - 1]) else s
  }

  /** `s` without leading and trailing whitespace. */
  function Strip(s: string): (r: string)
  {
    StripRight(StripLeft(s))
  }

  /** How many characters stripping removes from the front of `s`. */
  function LeadingSpaces(s: string): nat
  {
    |s| - |StripLeft(s)|
  }

  /** What stripping keeps: a contiguous part of `s` that neither starts nor ends with
      whitespace, with only whitespace cut away on either side. */
  lemma StripMeaning(s: string)
    ensures var r := Strip(s);
      var i := LeadingSpaces(s);
      && i + |r| <= |s| && r == s[i..i + |r|]
      && (forall k :: 0 <= k < i ==> IsSpace(s[k]))
      && (forall k :: i + |r| <= k < |s| ==> IsSpace(s[k]))
      && (|r| > 0 ==> !IsSpace(r[0]) && !IsSpace(r[|r| - 1]))
  {
    var l := StripLeft(s);
    var r := StripRight(l);
    var i := |s| - |l|;
    assert l == s[i..];
    assert r == l[..|r|];
    assert r == s[i..i + |r|];
    forall k | i + |r| <= k < |s|
      ensures IsSpace(s[k])
    {
      assert s[k] == l[k - i];
    }
    if |r| > 0 {
      assert r[0] == l[0];
    }
  }

  /** A string with no whitespace at either end is its own strip. */
  lemma StripStripped(s: string)
    requires |s| > 0 ==> !IsSpace(s[0]) && !IsSpace(s[|s| - 1])
    ensures Strip(s) == s
  {
  }

  lemma StripIdempotent(s: string)
    ensures Strip(Strip(s)) == Strip(s)
  {
    StripMeaning(s);
    StripStripped(Strip(s));
  }

  /** The stripped items that are not empty, in order. */
  function KeepUnits(parts: seq<string>): seq<string>
  {
    if |parts| == 0 then []
    else
      var unit := Strip(parts[0]);
      (if unit != "" then [unit] else []) + KeepUnits(parts[1..])
  }

  /** The status of the error for a unit list with no units. */
  const NoUnitsStatus: int := 400

  /** The units of a report request: comma-separated, stripped, empty items dropped;
      no unit at all is an error with status 400. */
  function ParseUnitList(units: string): Result<seq<string>, int>
  {
    var unitList := KeepUnits(Split(units));
    if |unitList| == 0 then Failure(NoUnitsStatus) else Success(unitList)
  }

  lemma StripKeepsNoComma(s: string)
    requires ',' !in s
    ensures ',' !in Strip(s)
  {
    StripMeaning(s);
  }

  /** A proper unit name: non-empty, already stripped, and free of commas. */
  predicate IsUnitName(u: string)
  {
    u != "" && Strip(u) == u && ',' !in u
  }

  /** Every kept unit is a proper unit name. */
  lemma {:induction false} KeepUnitsItems(parts: seq<string>)
    requires forall k :: 0 <= k < |parts| ==> ',' !in parts[k]
    ensures forall k :: 0 <= k < |KeepUnits(parts)| ==> IsUnitName(KeepUnits(parts)[k])
  {
    if |parts| > 0 {
      KeepUnitsItems(parts[1..]);
      StripIdempotent(parts[0]);
      StripKeepsNoComma(parts[0]);
    }
  }

  /** Every item is empty once stripped. */
  predicate AllBlank(parts: seq<string>)
  {
    forall k :: 0 <= k < |parts| ==> Strip(parts[k]) == ""
  }

  /** Nothing is kept exactly when every item is blank. */
  lemma {:induction false} KeepUnitsEmpty(parts: seq<string>)
    ensures |KeepUnits(parts)| == 0 <==> AllBlank(parts)
  {
    if |parts| > 0 {
      KeepUnitsEmpty(parts[1..]);
      assert forall k :: 1 <= k < |parts| ==> parts[1..][k - 1] == parts[k];
    }
  }

  /** A successful parse yields proper unit names; the parse fails, with 400, exactly
      when every comma-separated item is blank. */
  lemma ParseUnitListMeaning(units: string)
    ensures ParseUnitList(units).Success? ==>
              var unitList := ParseUnitList(units).value;
              |unitList| > 0 && forall k :: 0 <= k < |unitList| ==> IsUnitName(unitList[k])
    ensures ParseUnitList(units).Failure? <==> AllBlank(Split(units))
    ensures ParseUnitList(units).Failure? ==> ParseUnitList(units).error == NoUnitsStatus
  {
    var parts := Split(units);
    KeepUnitsItems(parts);
    KeepUnitsEmpty(parts);
  }

  lemma {:induction false} KeepUnitsOfUnits(items: seq<string>)
    requires forall k :: 0 <= k < |items| ==> items[k] != "" && Strip(items[k]) == items[k]
    ensures KeepUnits(items) == items
  {
    if |items| > 0 {
      KeepUnitsOfUnits(items[1..]);
      assert items == [items[0]] + items[1..];
    }
  }

  /** A list of proper unit names survives being sent as one comma-separated string. */
  lemma UnitListRoundTrip(items: seq<string>)
    requires |items| > 0
    requires forall k :: 0 <= k < |items| ==> IsUnitName(items[k])
    ensures ParseUnitList(Join(items)) == Success(items)
  {
    SplitJoin(items);
    KeepUnitsOfUnits(items);
  }

  /** An empty unit parameter is refused with 400. */
  lemma EmptyUnitListRefused()
    ensures ParseUnitList("") == Failure(NoUnitsStatus)
  {
    assert Split("") == [""];
    assert Strip("") == "";
  }
}
