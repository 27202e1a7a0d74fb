# Analog clock speaking drill — a Dafny model

The app shows an analog clock with a random time. The user says that time
aloud in Vietnamese. A language model, behind the `POST /api/check-time`
endpoint, decides whether the spoken time matches, and each judged round
is added to a report table. This project models the three parts of the app
whose behaviour can be stated exactly, and proves properties about them:

- **Client session** (`client/src/App.jsx`). It covers time generation
  from two random indices and the `H:MM` formatter with a reference parser
  that inverts it. The session state (`started`, `time`, `listening`,
  `transcript`, `aiResult`, `rows`) has one pure transition per handler:
  Restart, Next/start-listening, `onresult` (judge succeeded or failed),
  `onerror` and `onend`. The buttons are disabled while listening. Row
  normalisation and the report-table projection are modelled too,
  including the rendering failure an object-valued spoken time causes.
- **Clock geometry** (`client/src/components/AnalogClock.jsx`). It covers
  the hand angles as exact `real`s, the 60 ticks, the 12 numerals
  and the hand lengths and widths.
- **Judge endpoint** (`server/index.js`). The handler is a pure function of
  the request body, what the model call does, and `JSON.parse`. It covers
  the falsy-field 400 check, the prompt layout (including the interpolation
  that throws for an object with its own `toString`), trimming, cleaning of the
  reply (strip every backtick, then delete only the first `json`), the
  parse-failure fallback verdict and the 500 path.

JavaScript values that cross the JSON boundary are modelled by
`Js.Value`, together with truthiness, optional-chaining property access
and template interpolation. The `Pipeline` module composes client and
server. One consequence it proves: a 400 or 500 response still adds a
"Wrong" row, because the client never checks `res.ok`.

Files: `wrappers.dfy` (Option), `digits.dfy` (`String(n)`, `padStart`),
`js.dfy`, `protocol.dfy` (request, verdict and error bodies),
`clock_time.dfy`, `analog_clock.dfy`, `judge_service.dfy`, `session.dfy`,
`report.dfy`, `pipeline.dfy`.

Modelling choices:
- `Math.random()` draws become indices `i, j` in 0..11 (`ClockTime.RandomIndex`
  shows the `Math.floor(u * 12)` step).
- `crypto.randomUUID()` becomes a supplied `id`.
- Whether a speech recogniser exists is a boolean.
- A recognition result is an `Option<string>` (the best alternative, if any).
- The judge call's outcome is a JSON body or a failure.
- The language model's behaviour is a `Replied(outputText)` or `CallFailed`
  value.
- `JSON.parse` is a parameter `string -> Option<Js.Value>`.
- Each handler is one atomic transition. The `target` that `onresult`
  judges against is the reading that Next generated, which the handler
  captures in its closure. It is passed explicitly.

Behaviours of the code worth knowing:
- Restart does not start listening. It keeps `listening` as it was.
- Nothing restarts automatically; each round is started by Next. A
  round's judge call can still be in flight when the next round starts,
  and its reply then sets `listening` false during that round's capture
  (see Left out).
- Next changes the shown time even when no recogniser is available. Only
  the listening part is skipped.
- A 400 or 500 response is recorded as a wrong row, not as the local
  failure verdict. That verdict is used only when `fetch` or `res.json()`
  throws, and then no row is added.
- An empty recognition is still sent to the server (which answers 400), so
  it too adds a wrong row.
- A parsed model reply is relayed without any shape check. In particular,
  `confidence` is not checked to lie in [0, 1], and a `spokenTime` that is
  an object is stored and then breaks the report table.
- `client/src/components/AnalogClock.jsx` defines a `pad2` helper that is
  never called; the minutes are padded by the same expression inside
  `formatTime` in `client/src/App.jsx`.

## Model

| member | source | states |
|---|---|---|
| Digits.NatToString | client/src/App.jsx:13 | `String(n)` is a canonical numeral (digits only, no leading zero); one character iff n < 10, two iff 10 <= n < 100 |
| Digits.NatToStringRoundTrip | client/src/App.jsx:13 | reading back `String(n)` gives n |
| Digits.CanonicalRoundTrip | client/src/App.jsx:13 | every canonical numeral is `String` of its value, so rendering is a bijection onto canonical numerals |
| Digits.PadStart2 | client/src/App.jsx:12 | `padStart(2, "0")` only adds zeros on the left, up to length 2, and keeps the original string as the suffix |
| Digits.Pad2 | client/src/App.jsx:12 | for 0 <= n <= 99, `String(n).padStart(2, "0")` is exactly two digits whose value is n; for n >= 100 it is `String(n)` unchanged |
| Digits.Pad2Inverse | client/src/App.jsx:12 | every two-digit string is the padded text of its value (bijection 0..99 to two-digit strings) |
| Js.Get | client/src/App.jsx:81-83 | `v?.key` is the field when `v` is an object that has it and `undefined` otherwise |
| Js.Or | client/src/App.jsx:82 | `v || d` is v when v is truthy and d otherwise |
| Js.Text | server/index.js:43-46 | `${v}` of a string is the string itself; an object throws exactly when it has its own `toString` field; an array throws exactly when one of its non-null, non-undefined elements does |
| Js.JoinTexts | server/index.js:45-46 | joining array elements throws exactly when converting one of the remaining non-null, non-undefined elements throws |
| Protocol.VerdictBody | server/index.js:65-70 | the verdict object has exactly the keys isCorrect, spokenTime, confidence and explanation, holding the given values |
| Protocol.ErrorBody | server/index.js:23 | an error object has exactly the one key `error`, holding the message, and so none of the verdict fields |
| Protocol.RequestBody | client/src/App.jsx:46 | the request has exactly the keys `targetTime` and `transcript`, holding the given strings |
| ClockTime.RandomIndex | client/src/App.jsx:6-7 | `Math.floor(u * 12)` for u in [0, 1) is the index i in 0..11 with i <= 12u < i + 1 |
| ClockTime.RandomTime5MinStep | client/src/App.jsx:5-9 | for indices in 0..11 the reading is on the grid, with hour i + 1 and minute 5j |
| ClockTime.GeneratorIsBijection | client/src/App.jsx:5-9 | the generator maps (i, j) to a reading t exactly when t is on the grid with hour i + 1 and minute 5j |
| ClockTime.GridReadingIsGenerated | client/src/App.jsx:5-9 | every grid reading is produced by the index pair (hour - 1, minute / 5), so the generator is onto |
| ClockTime.FormatTime | client/src/App.jsx:11-14 | `formatTime` always gives at least four characters, so the target time sent to the judge is never empty |
| ClockTime.FormatTimeShape | client/src/App.jsx:11-14 | the text is the unpadded canonical hour, a colon, and exactly two digits, so it has 4 or 5 characters for hours 1..12 |
| ClockTime.FormatParseRoundTrip | client/src/App.jsx:11-14 | parsing the formatted text gives the reading back (minutes 0..99) |
| ClockTime.ParseFormatRoundTrip | client/src/App.jsx:11-14 | a parseable `H:MM` text whose hour has no leading zero is the formatted text of its reading |
| ClockTime.FormatTimeInjective | client/src/App.jsx:11-14 | distinct readings have distinct texts |
| ClockTime.InitialIsOffGrid | client/src/App.jsx:22 | the initial reading has hour 0, is not on the grid, and shows as "0:00" |
| AnalogClock.MinuteAngle | client/src/components/AnalogClock.jsx:12 | the minute angle lies in [0, 354] for minutes 0..59, and minute 30 gives 180 |
| AnalogClock.HourAngle | client/src/components/AnalogClock.jsx:13 | for minutes 0..59 the hour angle lies in [30(h mod 12), 30(h mod 12) + 30), hence in [0, 360) |
| AnalogClock.HandAngleExamples | client/src/components/AnalogClock.jsx:12-13 | 3:00 gives 90; 12:00 and 0:00 give 0; minute 30 gives 180 |
| AnalogClock.HourHandTracksMinuteHand | client/src/components/AnalogClock.jsx:12-13 | the hour hand's advance within the hour is one twelfth of the minute angle |
| AnalogClock.HourHandIsContinuous | client/src/components/AnalogClock.jsx:13 | at minute 60 the hour hand would reach the next hour's position (except across the 12 wrap) |
| AnalogClock.MakeTick | client/src/components/AnalogClock.jsx:41-44 | tick i is at 6i degrees with outer radius r - 10; it is an hour tick (inner r - 30, width 3) iff i mod 5 = 0, else inner r - 22, width 1 |
| AnalogClock.Ticks | client/src/components/AnalogClock.jsx:15 | there are exactly 60 ticks, tick i at position i |
| AnalogClock.HourTicksInPrefix | client/src/components/AnalogClock.jsx:42 | among the first n ticks, (n + 4) / 5 are hour ticks |
| AnalogClock.TwelveHourTicks | client/src/components/AnalogClock.jsx:42 | exactly 12 of the 60 ticks are hour ticks |
| AnalogClock.Numerals | client/src/components/AnalogClock.jsx:16 | the numerals are exactly 1..12, numeral n at 30n degrees and distance r - 55 |
| AnalogClock.NumeralsFaceHourTicks | client/src/components/AnalogClock.jsx:67 | numeral n points along hour tick 5n mod 60 (numeral 12 at 360, the direction of tick 0) |
| AnalogClock.MinuteHandFacesItsTick | client/src/components/AnalogClock.jsx:41 | the minute hand for minute m points along tick m |
| AnalogClock.HourHandFacesNumeralOnTheHour | client/src/components/AnalogClock.jsx:67 | on the hour, the hour hand points at its numeral |
| AnalogClock.Render | client/src/components/AnalogClock.jsx:87-88 | radius size/2, face at radius - 6; hour hand 0.55r is strictly shorter than minute hand 0.75r and than the radius for size > 0, and wider |
| AnalogClock.DefaultHandLengths | client/src/components/AnalogClock.jsx:7 | at the default size 320 the hands are 88 and 120 px long |
| JudgeService.TrimStart | server/index.js:54 | removes exactly the leading whitespace: a suffix that starts with a non-whitespace character |
| JudgeService.TrimEnd | server/index.js:54 | removes exactly the trailing whitespace: a prefix that ends with a non-whitespace character |
| JudgeService.Trim | server/index.js:54 | the trimmed text is empty or starts and ends with non-whitespace |
| JudgeService.TrimKeepsSlice | server/index.js:54 | the trimmed text is a contiguous slice of the input with only whitespace around it |
| JudgeService.RawText | server/index.js:54 | absent model text is treated as "", present text is trimmed |
| JudgeService.StripBackticks | server/index.js:55 | the result has no backtick, is no longer than the input, and text without backticks is unchanged |
| JudgeService.StripBackticksDistributes | server/index.js:55 | backtick removal distributes over concatenation, so it keeps all other characters in order |
| JudgeService.FindFrom | server/index.js:55 | finds the leftmost occurrence of the pattern at or after a position, or reports there is none |
| JudgeService.DeleteFirstAt | server/index.js:55 | `replace('json', '')` deletes the leftmost occurrence of the pattern and nothing else |
| JudgeService.DeleteFirstAbsent | server/index.js:55 | text in which the pattern does not occur is unchanged |
| JudgeService.DeleteFirstAtStart | server/index.js:55 | a text starting with the pattern loses exactly that prefix |
| JudgeService.LaterOccurrencesSurvive | server/index.js:55 | occurrences after the deleted one remain, shifted left by four |
| JudgeService.Clean | server/index.js:55 | the cleaned text contains no backtick and is no longer than the raw text |
| JudgeService.CleanDeletesFirstJsonOnly | server/index.js:55 | the cleaned text is the stripped text when it has no "json", and otherwise exactly four characters shorter |
| JudgeService.StripBackticksOfFence | server/index.js:55 | a triple-backtick fence disappears |
| JudgeService.CleanStripsCodeFence | server/index.js:55 | a reply fenced as a `json` code block cleans to its payload |
| JudgeService.CleanIsNotIdempotent | server/index.js:55 | "jsonjson" cleans to "json", which cleans again to "" |
| JudgeService.CleanCanCreateJson | server/index.js:55 | deleting "json" from "jsjsonon" creates a new "json" |
| JudgeService.StripBackticksDropsOne | server/index.js:55 | removing a single backtick from between two texts changes nothing |
| JudgeService.CleanIgnoresBackticks | server/index.js:55 | a backtick anywhere in the reply, even inside "json", does not change the cleaned text |
| JudgeService.ModelInput | server/index.js:43-46 | the model input contains the instructions, the target time and the transcript, the latter just before the closing `".` |
| JudgeService.CheckTime | server/index.js:19-78 | 400 with the fixed error body iff a field is falsy; the model is called, with the input built from both fields, iff the fields are truthy and interpolate; 500 with `{error: "Server error"}` iff the fields are truthy and the interpolation throws or the call fails; otherwise 200 with the parsed cleaned reply or the fallback verdict |
| JudgeService.ObjectFieldIsServerError | server/index.js:43-46 | a transcript that is an object with its own `toString` gives the generic 500 without the model being called |
| JudgeService.ModelInputIsVerbatim | server/index.js:43-46 | for non-empty string fields the model input carries both verbatim |
| JudgeService.UnparseableReplyFallsBack | server/index.js:60-71 | for fields that are truthy and interpolate, an unparseable reply gives 200 with isCorrect false, spokenTime "", confidence 0 and a non-empty explanation |
| JudgeService.ParsedReplyIsRelayed | server/index.js:73 | for fields that are truthy and interpolate, a parsed reply is returned with status 200 exactly as parsed, without shape validation |
| Session.Restart | client/src/App.jsx:33-40 | Restart sets started, empties rows, clears aiResult and transcript, shows a fresh grid reading and leaves listening alone |
| Session.StartListening | client/src/App.jsx:51-59 | without a recogniser nothing changes; otherwise listening starts with transcript and verdict cleared and history kept |
| Session.Next | client/src/App.jsx:114-118 | Next shows the generated reading (even without a recogniser) and otherwise behaves as start-listening; history is kept |
| Session.RecognizedText | client/src/App.jsx:67 | the best alternative's transcript, or "" when there is none |
| Session.NormalizeRow | client/src/App.jsx:76-86 | isCorrect is the truthiness of the reply's field; spokenTime is the reply's field when truthy and exactly "" otherwise; confidence is kept, with its value, iff it is a number |
| Session.NormalizeKeepsVerdict | client/src/App.jsx:81-83 | every well-formed verdict, including one with an empty spoken time such as the parse fallback, passes through normalisation unchanged |
| Session.NormalizeErrorBodyIsWrong | client/src/App.jsx:81-83 | an `{error}` body still yields a row, with isCorrect false, spokenTime "" and no confidence |
| Session.JudgeSucceeded | client/src/App.jsx:71-86 | exactly one row is prepended, for the captured target, and the earlier rows follow in order; the verdict is the reply; listening ends |
| Session.JudgeFailed | client/src/App.jsx:87-97 | rows unchanged; the verdict is the fixed failure (false, "", 0, non-empty explanation); listening ends |
| Session.OnResult | client/src/App.jsx:66-98 | in every outcome listening ends false and the transcript is the recognised text; a row is added iff a response arrived |
| Session.OnError | client/src/App.jsx:100-104 | listening becomes false and nothing else changes |
| Session.OnEnd | client/src/App.jsx:106-109 | listening becomes false and nothing else changes (the same state change as `onerror`, which also alerts the user) |
| Session.Step | client/src/App.jsx:131-135 | pressing a disabled button (while listening) changes nothing; an effective Restart empties the history, a judged result puts exactly its round's row in front, everything else keeps the history |
| Session.HistoryGrowsByJudgedRounds | client/src/App.jsx:76-86 | without a restart, the history after a run is the rows of the judged rounds, most recent first, in front of the history before it |
| Session.HistoryAfterRestart | client/src/App.jsx:35 | after an effective restart the history is exactly the rows of the rounds judged since, most recent first |
| Session.StepKeepsIdsDistinct | client/src/App.jsx:78 | with a fresh id per round, row ids stay distinct |
| Session.StepKeepsValidTime | client/src/App.jsx:115-116 | the shown reading is always the initial one or a grid reading, and any new reading is on the grid |
| Session.RowRecordsCapturedTarget | client/src/App.jsx:71 | the row records the target captured at Next, not the reading shown when the reply arrives |
| Session.RoundsCanOverlap | client/src/App.jsx:95-109 | after `onend`, Next starts a second round while the first still waits; the first reply then ends listening during the second capture, recording the first target while the clock shows the second reading |
| Report.LineOf | client/src/App.jsx:175-184 | line k is numbered k + 1 and shows the row's time and transcript, the spoken time itself when truthy and "-" otherwise, and "Correct" iff the row is correct, else "Wrong" |
| Report.Project | client/src/App.jsx:168-186 | rendering fails iff some row's `spokenTime || "-"` is an object or an array holding one; otherwise an empty history shows only the placeholder and a non-empty one shows one line per row, in history order |
| Report.ObjectSpokenTimeBreaksReport | client/src/App.jsx:180 | one row whose spoken time is an object makes the whole table fail to render |
| Report.StringSpokenTimesRender | client/src/App.jsx:180 | rows whose spoken times are all strings always render |
| Report.PrependRenumbers | client/src/App.jsx:175-177 | prepending a renderable row to a table that renders puts it on line 1 and moves every earlier line down by one with its content kept |
| Report.RestartShowsPlaceholder | client/src/App.jsx:168-173 | right after a restart the table renders and shows the placeholder |
| Report.InitialShowsPlaceholder | client/src/App.jsx:21-26 | before any press the table shows the placeholder, the reading is valid, both buttons are enabled, nothing has started and there is no verdict |
| Report.JudgedRoundIsFirstLine | client/src/App.jsx:175-178 | a judged round whose table renders is its first line, showing the captured target time |
| Pipeline.Judge | client/src/App.jsx:42-48 | the endpoint rejects the client's request with 400 exactly when the transcript is empty (the formatted time is never empty), and answers 500 exactly when it is not and the model call fails |
| Pipeline.NonOkResponseRecordsWrongRow | client/src/App.jsx:48 | a 400 or 500 response still adds a row, marked wrong, with spokenTime "" and no confidence |
| Pipeline.SilentRoundRecordsWrongRow | client/src/App.jsx:67 | a round with no recognised text gets a 400 and adds a wrong row with an empty transcript |
| Pipeline.UnparseableReplyRecordsWrongRow | server/index.js:60-71 | an unparseable model reply reaches the client as a 200 fallback, recorded as a wrong row with confidence 0 |
| Pipeline.ObjectSpokenTimeReplyBreaksReport | client/src/App.jsx:180 | a model reply whose `spokenTime` is an object is relayed with 200, recorded, and then makes the report table fail to render |

## Left out

- The SVG and JSX markup, and the `Math.sin`/`Math.cos` projection of
  angles to screen coordinates (including the numerals' +8 px vertical
  offset): this is floating-point rendering. The angles and radii it uses
  are modelled.
- The status panel (microphone state, transcript, "ĐÚNG"/"SAI" label,
  explanation): this is display only. The state it reads is modelled. Like
  the report table, it would fail to render an `explanation` that is an
  object; that failure is not modelled.
- `Math.random`, `crypto.randomUUID`, the browser SpeechRecognition API,
  `fetch`, `alert` and `console`: these appear as parameters and event
  payloads.
- The language-model call and its interpretation of Vietnamese time
  expressions: this is an opaque judgement, modelled as an arbitrary reply
  text or a failure.
- The wording of the grading instructions: they are a parameter of
  `JudgeService.ModelInput`. Only the layout of the input around them is
  modelled.
- `JSON.parse`, `JSON.stringify` and Express's body parser: parsing is an
  arbitrary partial function. A value serialised and parsed back is taken
  to be the same value.
- Express routing, `cors`, `dotenv` and the port and API-key configuration:
  these are I/O plumbing.
- Async interleavings: each handler is one atomic transition. Because
  `onend` can clear `listening` while the judge call is still in flight,
  no "buttons disabled while judging" invariant is claimed. In the code,
  `onresult` sets the transcript before it awaits the judge, and only the
  reply sets the verdict, the history and `listening`; the model applies
  all of these at once. So when a Restart lands while the judge call is
  in flight (the interleaving `Session.RowRecordsCapturedTarget` builds),
  the code ends with the empty transcript Restart left, while the model
  ends with the recognised text. The lemma claims nothing about the
  transcript.
- JavaScript strings are UTF-16 code-unit sequences; here they are
  sequences of Unicode scalar values.
- Js.Text: a non-integral number in a request field is rendered by its
  integer part only, and an integer of magnitude 10^21 or more is written
  out in full, whereas JavaScript uses its shortest decimal rendering and
  switches to exponent notation (`1e+21`) from 10^21 on. Strings,
  booleans, `null`, `undefined`, integers below 10^21 in magnitude, arrays
  and objects (including the TypeError for an own `toString`) are
  rendered as JavaScript does.
- Numbers are exact reals, not doubles. `JSON.parse` rounds a numeric
  literal to the nearest double, turns one beyond the double range (such
  as `1e400`) into Infinity, and `res.json` then sends Infinity as `null`.
  The model takes a parsed number to be its exact value and the body the
  client receives to be the body the server parsed. So the infinities
  (interpolated as `Infinity`) and NaN are not modelled.
- JudgeService.ParsedReplyIsRelayed: the relayed body is the parsed value
  itself; a reply holding an out-of-range number reaches the client with
  `null` in its place, which is not modelled.
