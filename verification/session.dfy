/** The client's session state and its event handlers. Each handler is an
    atomic transition from the state before the event to the state after
    it; the browser's speech recognizer, `fetch`, `alert`, `Math.random`
    and `crypto.randomUUID` appear only as the events and values they
    deliver. */
module Session {
  import opened Wrappers
  import Js
  import Protocol
  import opened ClockTime

  /** One line of the report: a completed round. `spokenTime` is whatever
      the judge sent (or `""`), `confidence` is kept only when it is a number. */
  datatype Row = Row(id: nat, targetTime: string, transcript: string, isCorrect: bool,
                     spokenTime: Js.Value, confidence: Option<real>)

  /** The component state `started`, `time`, `listening`, `transcript`,
      `aiResult` (`Js.Null` when cleared) and `rows`, most recent first. */
  datatype State = State(started: bool, time: Time, listening: bool, transcript: string,
                         aiResult: Js.Value, rows: seq<Row>)

  /** The state before any event: not started, the reading 0:00, no history. */
  const Initial: State := State(false, ClockTime.Initial, false, "", Js.Null, [])

  /** What the judge call did: the JSON body of whatever response arrived
      (`res.ok` is never looked at), or a failure of `fetch` or of `res.json()`. */
  datatype JudgeOutcome = Responded(body: Js.Value) | Failed

  const FailureExplanation: string := "Lỗi khi gọi AI."

  /** The verdict shown when the judge call fails. */
  const FailureVerdict: Js.Value := Protocol.VerdictBody(false, "", 0.0, FailureExplanation)

  /** `handleStart` (the Restart button): clears the history, the verdict
      and the transcript and shows a fresh reading. It does not start
      listening and leaves `listening` as it was. */
  function Restart(s: State, i: nat, j: nat): (r: State)
    requires i < 12 && j < 12
    ensures r.started && r.rows == [] && r.aiResult == Js.Null && r.transcript == ""
    ensures OnGrid(r.time) && r.time.hour == i + 1 && r.time.minute == 5 * j
    ensures r.listening == s.listening
  {
    s.(started := true, rows := [], aiResult := Js.Null, transcript := "",
       time := RandomTime5MinStep(i, j))
  }

  /** `startListeningAndCheck` up to `rec.start()`: without a recognizer
      nothing changes (the user is alerted); otherwise the session starts
      listening with the transcript and verdict cleared. */
  function StartListening(s: State, recognizerAvailable: bool): (r: State)
    ensures !recognizerAvailable ==> r == s
    ensures recognizerAvailable ==>
      r.listening && r.transcript == "" && r.aiResult == Js.Null
      && r.rows == s.rows && r.time == s.time && r.started == s.started
  {
    if !recognizerAvailable then s
    else s.(listening := true, transcript := "", aiResult := Js.Null)
  }

  /** `handleNext`: a fresh reading is shown first, then listening starts.
      The reading changes even when no recognizer is available. The new
      reading is the target the round's result handler will judge against. */
  function Next(s: State, recognizerAvailable: bool, i: nat, j: nat): (r: State)
    requires i < 12 && j < 12
    ensures r.time == RandomTime5MinStep(i, j)
    ensures r.rows == s.rows && r.started == s.started
    ensures !recognizerAvailable ==> r == s.(time := r.time)
    ensures recognizerAvailable ==> r.listening && r.transcript == "" && r.aiResult == Js.Null
  {
    StartListening(s.(time := RandomTime5MinStep(i, j)), recognizerAvailable)
  }

  /** `event.results?.[0]?.[0]?.transcript || ""`. */
  function RecognizedText(alternative: Option<string>): (text: string)
    ensures alternative.Some? ==> text == alternative.value
    ensures alternative.None? ==> text == ""
  {
    alternative.GetOr("")
  }

  /** The report row built from the judge's reply `result`. */
  function NormalizeRow(id: nat, targetTime: string, text: string, result: Js.Value): (row: Row)
    ensures row.id == id && row.targetTime == targetTime && row.transcript == text
    ensures row.isCorrect <==> Js.Truthy(Js.Get(result, "isCorrect"))
    ensures row.spokenTime == Js.Str("") || Js.Truthy(row.spokenTime)
    ensures Js.Truthy(Js.Get(result, "spokenTime")) ==> row.spokenTime == Js.Get(result, "spokenTime")
    ensures !Js.Truthy(Js.Get(result, "spokenTime")) ==> row.spokenTime == Js.Str("")
    ensures row.confidence.Some? <==> Js.Get(result, "confidence").Num?
    ensures row.confidence.Some? ==> Js.Get(result, "confidence") == Js.Num(row.confidence.value)
  {
    var confidence := Js.Get(result, "confidence");
    Row(id, targetTime, text,
        Js.Truthy(Js.Get(result, "isCorrect")),
        Js.Or(Js.Get(result, "spokenTime"), Js.Str("")),
        if confidence.Num? then Some(confidence.x) else None)
  }

  /** A well-formed verdict passes through normalisation unchanged; an
      empty spoken time stays the empty string. */
  lemma NormalizeKeepsVerdict(id: nat, targetTime: string, text: string,
                              isCorrect: bool, spokenTime: string, confidence: real, explanation: string)
    ensures NormalizeRow(id, targetTime, text, Protocol.VerdictBody(isCorrect, spokenTime, confidence, explanation))
      == Row(id, targetTime, text, isCorrect, Js.Str(spokenTime), Some(confidence))
  {}

  /** An error body `{error: ...}` still yields a row, marked wrong, with
      no spoken time and no confidence. */
  lemma NormalizeErrorBodyIsWrong(id: nat, targetTime: string, text: string, message: string)
    ensures var row := NormalizeRow(id, targetTime, text, Protocol.ErrorBody(message));
      !row.isCorrect && row.spokenTime == Js.Str("") && row.confidence.None?
  {}

  /** The `onresult` handler when the judge call succeeded: the reply
      becomes the verdict and exactly one row, for the target captured when
      the round started, is put in front of the history. */
  function JudgeSucceeded(s: State, target: Time, text: string, result: Js.Value, id: nat): (r: State)
    ensures |r.rows| == |s.rows| + 1 && r.rows[1..] == s.rows
    ensures r.rows[0] == NormalizeRow(id, FormatTime(target), text, result)
    ensures !r.listening && r.transcript == text && r.aiResult == result
    ensures r.time == s.time && r.started == s.started
  {
    s.(transcript := text, aiResult := result, listening := false,
       rows := [NormalizeRow(id, FormatTime(target), text, result)] + s.rows)
  }

  /** The `onresult` handler when the judge call threw: the fixed failure
      verdict is shown and the history is left alone. */
  function JudgeFailed(s: State, text: string): (r: State)
    ensures r.rows == s.rows && !r.listening && r.transcript == text
    ensures Js.Get(r.aiResult, "isCorrect") == Js.Bool(false)
    ensures Js.Get(r.aiResult, "spokenTime") == Js.Str("")
    ensures Js.Get(r.aiResult, "confidence") == Js.Num(0.0)
    ensures Js.Truthy(Js.Get(r.aiResult, "explanation"))
    ensures r.time == s.time && r.started == s.started
  {
    s.(transcript := text, aiResult := FailureVerdict, listening := false)
  }

  /** `rec.onresult`: the recognised text is shown, then judged. */
  function OnResult(s: State, target: Time, alternative: Option<string>, outcome: JudgeOutcome, id: nat): (r: State)
    ensures !r.listening && r.transcript == RecognizedText(alternative)
    ensures outcome.Failed? ==> r.rows == s.rows
    ensures outcome.Responded? ==> |r.rows| == |s.rows| + 1 && r.rows[1..] == s.rows && r.rows[0].targetTime == FormatTime(target)
  {
    var text := RecognizedText(alternative);
    match outcome
    case Responded(result) => JudgeSucceeded(s, target, text, result, id)
    case Failed => JudgeFailed(s, text)
  }

  /** `rec.onerror`: listening stops; nothing else in the state changes. */
  function OnError(s: State): (r: State)
    ensures !r.listening && r.(listening := s.listening) == s
  {
    s.(listening := false)
  }

  /** `rec.onend`: listening stops; nothing else in the state changes. */
  function OnEnd(s: State): (r: State)
    ensures !r.listening && r.(listening := s.listening) == s
  {
    s.(listening := false)
  }

  /** The Next and Restart buttons are disabled while listening. */
  predicate ButtonsEnabled(s: State) {
    !s.listening
  }

  /** The events the session reacts to. */
  datatype Event =
    | PressNext(recognizerAvailable: bool, i: nat, j: nat)
    | PressRestart(i: nat, j: nat)
    | Recognized(target: Time, alternative: Option<string>, outcome: JudgeOutcome, id: nat)
    | CaptureError
    | CaptureEnd

  /** The random indices an event carries are draws in 0..11. */
  predicate WellFormed(e: Event) {
    match e
    case PressNext(_, i, j) => i < 12 && j < 12
    case PressRestart(i, j) => i < 12 && j < 12
    case _ => true
  }

  /** One event applied to the state; a press on a disabled button does nothing. */
  function Step(s: State, e: Event): (r: State)
    requires WellFormed(e)
    ensures (e.PressNext? || e.PressRestart?) && !ButtonsEnabled(s) ==> r == s
    ensures e.PressRestart? && ButtonsEnabled(s) ==> r.rows == []
    ensures e.Recognized? && e.outcome.Responded? ==> r.rows == [RoundRow(e)] + s.rows
    ensures !e.PressRestart? && !(e.Recognized? && e.outcome.Responded?) ==> r.rows == s.rows
  {
    match e
    case PressNext(available, i, j) => if ButtonsEnabled(s) then Next(s, available, i, j) else s
    case PressRestart(i, j) => if ButtonsEnabled(s) then Restart(s, i, j) else s
    case Recognized(target, alternative, outcome, id) => OnResult(s, target, alternative, outcome, id)
    case CaptureError => OnError(s)
    case CaptureEnd => OnEnd(s)
  }

  /** The state after a sequence of events. */
  function Run(s: State, es: seq<Event>): State
    requires forall k :: 0 <= k < |es| ==> WellFormed(es[k])
    decreases |es|
  {
    if |es| == 0 then s else Run(Step(s, es[0]), es[1..])
  }

  /** The row a judged round records: the reply normalised against the
      target captured for that round. */
  function RoundRow(e: Event): Row
    requires e.Recognized? && e.outcome.Responded?
  {
    NormalizeRow(e.id, FormatTime(e.target), RecognizedText(e.alternative), e.outcome.body)
  }

  /** The rows the judged rounds of `es` record, most recent first. It does
      not depend on the state the events are applied to. */
  function JudgedRows(es: seq<Event>): seq<Row> {
    if |es| == 0 then [] else JudgedRows(es[1..]) + AddedRows(es[0])
  }

  /** The rows one event adds in front of the history, when it is not a restart. */
  function AddedRows(e: Event): seq<Row> {
    if e.Recognized? && e.outcome.Responded? then [RoundRow(e)] else []
  }

  lemma StepAddsRows(s: State, e: Event)
    requires WellFormed(e) && !e.PressRestart?
    ensures Step(s, e).rows == AddedRows(e) + s.rows
  {}

  /** Without a restart the history only grows: every judged round adds its
      row in front, and the rows already there follow in their order. */
  lemma {:induction false} HistoryGrowsByJudgedRounds(es: seq<Event>, s: State)
    requires forall k :: 0 <= k < |es| ==> WellFormed(es[k])
    requires forall k :: 0 <= k < |es| ==> !es[k].PressRestart?
    ensures Run(s, es).rows == JudgedRows(es) + s.rows
  {
    if |es| > 0 {
      var s' := Step(s, es[0]);
      var rest := es[1..];
      HistoryGrowsByJudgedRounds(rest, s');
      StepAddsRows(s, es[0]);
      var added := AddedRows(es[0]);
      assert JudgedRows(es) == JudgedRows(rest) + added;
      assert Run(s, es) == Run(s', rest);
      SeqAssoc(JudgedRows(rest), added, s.rows);
    }
  }

  lemma SeqAssoc<T>(a: seq<T>, b: seq<T>, c: seq<T>)
    ensures a + (b + c) == (a + b) + c
  {}

  /** A restart that goes through empties the history, wherever it was:
      afterwards it holds exactly the rows of the rounds judged since. */
  lemma {:induction false} HistoryAfterRestart(s: State, es: seq<Event>, i: nat, j: nat)
    requires i < 12 && j < 12 && ButtonsEnabled(s)
    requires forall k :: 0 <= k < |es| ==> WellFormed(es[k]) && !es[k].PressRestart?
    ensures Run(s, [PressRestart(i, j)] + es).rows == JudgedRows(es)
  {
    var es' := [PressRestart(i, j)] + es;
    assert es'[1..] == es;
    HistoryGrowsByJudgedRounds(es, Restart(s, i, j));
  }

  /** Rounds can overlap: `onend` re-enables Next while round 1 still waits
      for its judge, round 2 starts listening, and round 1's reply then ends
      listening in the middle of round 2's capture. Its row records round
      1's target while the clock shows round 2's reading. */
  lemma RoundsCanOverlap(s: State, i: nat, j: nat, i2: nat, j2: nat,
                         alternative: Option<string>, result: Js.Value, id: nat)
    requires i < 12 && j < 12 && i2 < 12 && j2 < 12 && ButtonsEnabled(s)
    ensures var target := RandomTime5MinStep(i, j);
      var round2 := Step(Step(Step(s, PressNext(true, i, j)), CaptureEnd), PressNext(true, i2, j2));
      var after := Step(round2, Recognized(target, alternative, Responded(result), id));
      round2.listening && round2.time == RandomTime5MinStep(i2, j2)
      && !after.listening && after.time == RandomTime5MinStep(i2, j2)
      && after.rows[0].targetTime == FormatTime(target) && after.rows[1..] == s.rows
  {}

  predicate IdsDistinct(rows: seq<Row>) {
    forall a, b :: 0 <= a < b < |rows| ==> rows[a].id != rows[b].id
  }

  /** With a fresh id per row, row ids stay distinct. */
  lemma StepKeepsIdsDistinct(s: State, e: Event)
    requires WellFormed(e) && IdsDistinct(s.rows)
    requires e.Recognized? ==> forall k :: 0 <= k < |s.rows| ==> s.rows[k].id != e.id
    ensures IdsDistinct(Step(s, e).rows)
  {
    var r := Step(s, e);
    if e.Recognized? && e.outcome.Responded? {
      var row := RoundRow(e);
      assert r.rows == [row] + s.rows;
      assert row.id == e.id;
      forall a, b | 0 <= a < b < |r.rows|
        ensures r.rows[a].id != r.rows[b].id
      {
        assert r.rows[b] == s.rows[b - 1];
        if a > 0 {
          assert r.rows[a] == s.rows[a - 1];
        }
      }
    }
  }

  /** The reading shown is the initial one or a grid reading. */
  predicate ShowsValidTime(s: State) {
    s.time == ClockTime.Initial || OnGrid(s.time)
  }

  lemma StepKeepsValidTime(s: State, e: Event)
    requires WellFormed(e) && ShowsValidTime(s)
    ensures ShowsValidTime(Step(s, e))
    ensures s.time != Step(s, e).time ==> OnGrid(Step(s, e).time)
  {}

  /** The row records the target captured when Next was pressed, not the
      reading on screen: here the recogniser ends, a restart shows a new
      reading, and only then does the judge's reply arrive. */
  lemma RowRecordsCapturedTarget(s: State, i: nat, j: nat, i2: nat, j2: nat,
                                 alternative: Option<string>, result: Js.Value, id: nat)
    requires i < 12 && j < 12 && i2 < 12 && j2 < 12 && i != i2
    ensures var target := RandomTime5MinStep(i, j);
      var after := OnResult(Restart(OnEnd(Next(s, true, i, j)), i2, j2), target, alternative, Responded(result), id);
      after.rows[0].targetTime == FormatTime(target)
      && after.rows[0].targetTime != FormatTime(after.time)
      && after.rows[1..] == []
  {
    var target := RandomTime5MinStep(i, j);
    var shown := RandomTime5MinStep(i2, j2);
    if FormatTime(target) == FormatTime(shown) {
      FormatTimeInjective(target, shown);
    }
  }
}
