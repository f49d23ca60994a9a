/**
 * One turn of a dashboard socket's push loop, after the statistics have
 * been fetched: models without a target lose their performance, and the
 * client's message, if one arrived, is either a heartbeat to acknowledge or
 * new parameters that replace the current ones.
 */
module PushLoop {
  import opened Wrappers
  import opened ProductionData
  import opened RequestParsing
  import ShiftBreaks

  /** Truth value of a JSON value, as a condition sees it. */
  predicate Truthy(j: Json)
  {
    match j
    case JNull => false
    case JBool(b) => b
    case JNum(n) => n != 0
    case JStr(s) => s != ""
  }

  /** Truth value of a model's target: absent and zero are false, any other number true. */
  predicate TargetTruthy(target: Option<int>)
  {
    target.Some? && target.value != 0
  }

  /** Models whose target is absent or zero get no performance; the others are left as they are. */
  method ClearUntargeted(productionData: seq<ModelStats>) returns (models: seq<ModelStats>)
    ensures |models| == |productionData|
    ensures forall i :: 0 <= i < |productionData| ==>
              models[i] == if TargetTruthy(productionData[i].target) then productionData[i]
                           else productionData[i].(performance := None)
  {
    models := productionData;
    for k := 0 to |models|
      invariant |models| == |productionData|
      invariant forall i :: 0 <= i < k ==>
                  models[i] == if TargetTruthy(productionData[i].target) then productionData[i]
                               else productionData[i].(performance := None)
      invariant forall i :: k <= i < |models| ==> models[i] == productionData[i]
    {
      if !TargetTruthy(models[k].target) {
        models := models[k := models[k].(performance := None)];
      }
    }
  }

  /** The clearing changes nothing on statistics shaped by the production query: a model
      without a positive target has no performance there already. */
  lemma ClearUntargetedKeepsShapedRows(row: Row, operationTimeHours: real)
    requires operationTimeHours >= 0.0
    ensures var m := RowStats(row, operationTimeHours);
      (if TargetTruthy(m.target) then m else m.(performance := None)) == m
  {
    RowStatsMeaning(row, operationTimeHours);
  }

  /** What the server sends back to a client message. */
  datatype Reply = HeartbeatAck | NoReply

  /** The outcome of one turn: go on with these parameters and this reply, or close the
      socket because a message's parameters could not be read. */
  datatype Turn = Continue(params: WsParams, reply: Reply) | Close(error: ParamError)

  /** A message whose `heartbeat` field is present and true. */
  predicate IsHeartbeat(msg: Option<Message>)
  {
    msg.Some? && "heartbeat" in msg.value && Truthy(msg.value["heartbeat"])
  }

  /** Handles the message received while waiting for the next push (`None` when none came in time). */
  function OnClientMessage(params: WsParams, msg: Option<Message>, parseIso: string -> Option<int>): Turn
  {
    if msg.None? then Continue(params, NoReply)
    else if IsHeartbeat(msg) then Continue(params, HeartbeatAck)
    else
      match ParseWsParams(msg.value, parseIso)
      case Success(newParams) => Continue(newParams, NoReply)
      case Failure(e) => Close(e)
  }

  /** A heartbeat is acknowledged and leaves the parameters unchanged; any other message
      replaces all three parameters, or closes the socket when they cannot be read. */
  lemma OnClientMessageMeaning(params: WsParams, msg: Message, parseIso: string -> Option<int>)
    ensures IsHeartbeat(Some(msg)) ==>
              OnClientMessage(params, Some(msg), parseIso) == Continue(params, HeartbeatAck)
    ensures !IsHeartbeat(Some(msg)) ==>
              && (ParseWsParams(msg, parseIso).Success? ==>
                    OnClientMessage(params, Some(msg), parseIso) == Continue(ParseWsParams(msg, parseIso).value, NoReply))
              && (ParseWsParams(msg, parseIso).Failure? ==>
                    OnClientMessage(params, Some(msg), parseIso).Close?)
  {
  }

  /** A parameter message does not depend on the parameters it replaces. */
  lemma NewParamsForgetOld(p1: WsParams, p2: WsParams, msg: Message, parseIso: string -> Option<int>)
    requires !IsHeartbeat(Some(msg))
    ensures OnClientMessage(p1, Some(msg), parseIso) == OnClientMessage(p2, Some(msg), parseIso)
  {
  }

  /** The parameters after a run of turns; `None` once the socket has closed. */
  function AfterMessages(params: WsParams, msgs: seq<Option<Message>>, parseIso: string -> Option<int>): Option<WsParams>
    decreases |msgs|
  {
    if |msgs| == 0 then Some(params)
    else
      match OnClientMessage(params, msgs[0], parseIso)
      case Continue(next, _) => AfterMessages(next, msgs[1..], parseIso)
      case Close(_) => None
  }

  /** Turns with only heartbeats and silences keep the parameters the stream started with. */
  lemma {:induction false} HeartbeatsKeepParams(params: WsParams, msgs: seq<Option<Message>>, parseIso: string -> Option<int>)
    requires forall i :: 0 <= i < |msgs| ==> msgs[i].None? || IsHeartbeat(msgs[i])
    ensures AfterMessages(params, msgs, parseIso) == Some(params)
    decreases |msgs|
  {
    if |msgs| > 0 {
      assert forall i :: 0 <= i < |msgs[1..]| ==> msgs[1..][i] == msgs[i + 1];
      HeartbeatsKeepParams(params, msgs[1..], parseIso);
    }
  }

  /** The parameters in force are those of the last parameter message, whatever came before it. */
  lemma {:induction false} LastParamsWin(params: WsParams, before: seq<Option<Message>>, msg: Message,
                                         after: seq<Option<Message>>, parseIso: string -> Option<int>)
    requires !IsHeartbeat(Some(msg))
    requires ParseWsParams(msg, parseIso).Success?
    requires AfterMessages(params, before, parseIso).Some?
    requires forall i :: 0 <= i < |after| ==> after[i].None? || IsHeartbeat(after[i])
    ensures AfterMessages(params, before + [Some(msg)] + after, parseIso) == Some(ParseWsParams(msg, parseIso).value)
    decreases |before|
  {
    if |before| == 0 {
      assert before + [Some(msg)] + after == [Some(msg)] + after;
      assert ([Some(msg)] + after)[1..] == after;
      HeartbeatsKeepParams(ParseWsParams(msg, parseIso).value, after, parseIso);
    } else {
      assert (before + [Some(msg)] + after)[1..] == before[1..] + [Some(msg)] + after;
      var next := OnClientMessage(params, before[0], parseIso);
      LastParamsWin(next.params, before[1..], msg, after, parseIso);
    }
  }

  /** The working mode a stream's parameters carry, as the break accounting sees it: a
      value that is not one of the tabled mode names, a non-string value included, is
      accounted as "mode1". */
  lemma StreamModeFallsBackToMode1(params: WsParams, startTime: int, endTime: int)
    requires !(params.workingMode.JStr? && params.workingMode.s in ShiftBreaks.WorkingModeBreaks)
    ensures ShiftBreaks.BreakTime(startTime, endTime, ModeKey(params.workingMode)) ==
            ShiftBreaks.BreakTime(startTime, endTime, "mode1")
  {
    if params.workingMode.JStr? {
      ShiftBreaks.UnknownModeIsMode1(startTime, endTime, params.workingMode.s);
    }
  }
}
