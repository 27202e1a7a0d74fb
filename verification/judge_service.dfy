/** The `POST /api/check-time` handler as a pure function of the request
    body, the outcome of the language-model call and the JSON parser: field
    validation, the prompt sent upstream, the cleaning of the model's reply,
    the parse-failure fallback verdict and the mapping of a failed call to
    a 500 response. */
module JudgeService {
  import opened Wrappers
  import Js
  import Protocol

  // ---------------------------------------------------------------------
  // Trimming
  // ---------------------------------------------------------------------

  /** The characters `String.prototype.trim` removes: the ECMAScript
      WhiteSpace and LineTerminator code points. */
  predicate IsJsWhitespace(c: char) {
    || '\U{0009}' <= c <= '\U{000D}'
    || c == ' ' || c == '\U{00A0}' || c == '\U{1680}'
    || '\U{2000}' <= c <= '\U{200A}'
    || c == '\U{2028}' || c == '\U{2029}' || c == '\U{202F}' || c == '\U{205F}'
    || c == '\U{3000}' || c == '\U{FEFF}'
  }

  predicate AllWhitespace(s: string) {
    forall i :: 0 <= i < |s| ==> IsJsWhitespace(s[i])
  }

  /** `s` with its leading whitespace removed. */
  function TrimStart(s: string): (r: string)
    ensures |r| <= |s| && r == s[|s| - |r|..]
    ensures AllWhitespace(s[..|s| - |r|])
    ensures r == [] || !IsJsWhitespace(r[0])
  {
    if |s| > 0 && IsJsWhitespace(s[0]) then
      var r := TrimStart(s[1..]);
      assert s[..|s| - |r|] == [s[0]] + s[1..][..|s| - 1 - |r|];
      r
    else s
  }

  /** `s` with its trailing whitespace removed. */
  function TrimEnd(s: string): (r: string)
    ensures |r| <= |s| && r == s[..|r|]
    ensures AllWhitespace(s[|r|..])
    ensures r == [] || !IsJsWhitespace(r[|r| - 1])
  {
    if |s| > 0 && IsJsWhitespace(s[|s| - 1]) then
      var r := TrimEnd(s[..|s| - 1]);
      assert s[|r|..] == s[..|s| - 1][|r|..] + [s[|s| - 1]];
      r
    else s
  }

  /** `s.trim()`. */
  function Trim(s: string): (r: string)
    ensures r == [] || (!IsJsWhitespace(r[0]) && !IsJsWhitespace(r[|r| - 1]))
  {
    TrimEnd(TrimStart(s))
  }

  /** `r` is the slice of `s` at `a`, with only whitespace around it. */
  predicate TrimmedAt(s: string, r: string, a: int) {
    && 0 <= a <= a + |r| <= |s|
    && r == s[a..a + |r|]
    && AllWhitespace(s[..a])
    && AllWhitespace(s[a + |r|..])
  }

  /** Trimming keeps a contiguous slice of the input and drops only
      whitespace on either side of it. */
  lemma TrimKeepsSlice(s: string)
    ensures exists a :: TrimmedAt(s, Trim(s), a)
  {
    var t := TrimStart(s);
    var r := TrimEnd(t);
    var a := |s| - |t|;
    assert Trim(s) == r;
    assert t == s[a..];
    assert r == t[..|r|] == s[a..a + |r|];
    assert AllWhitespace(s[..a]);
    assert s[a + |r|..] == t[|r|..];
    assert AllWhitespace(s[a + |r|..]);
    assert TrimmedAt(s, r, a);
  }

  // ---------------------------------------------------------------------
  // Cleaning the model's reply
  // ---------------------------------------------------------------------

  /** `s.replace(/`/g, '')`: every backtick removed, everything else kept in order. */
  function StripBackticks(s: string): (r: string)
    ensures '`' !in r
    ensures |r| <= |s|
    ensures '`' !in s ==> r == s
  {
    if |s| == 0 then ""
    else (if s[0] == '`' then "" else [s[0]]) + StripBackticks(s[1..])
  }

  /** Removing backticks commutes with concatenation; together with its
      effect on single characters this determines `StripBackticks`. */
  lemma {:induction false} StripBackticksDistributes(a: string, b: string)
    ensures StripBackticks(a + b) == StripBackticks(a) + StripBackticks(b)
  {
    if |a| > 0 {
      assert (a + b)[1..] == a[1..] + b;
      StripBackticksDistributes(a[1..], b);
    } else {
      assert a + b == b;
    }
  }

  predicate OccursAt(s: string, pat: string, k: int) {
    0 <= k && k + |pat| <= |s| && s[k..k + |pat|] == pat
  }

  /** The first position at or after `from` where `pat` occurs in `s`. */
  function FindFrom(s: string, pat: string, from: nat): (k: Option<nat>)
    ensures k.Some? ==> from <= k.value && OccursAt(s, pat, k.value)
    ensures k.Some? ==> forall j :: from <= j < k.value ==> !OccursAt(s, pat, j)
    ensures k.None? ==> forall j :: from <= j ==> !OccursAt(s, pat, j)
    decreases |s| - from
  {
    if from + |pat| > |s| then None
    else if s[from..from + |pat|] == pat then Some(from)
    else FindFrom(s, pat, from + 1)
  }

  /** `s.replace(pat, '')` with a string pattern: only the first occurrence
      of `pat` is deleted. */
  function DeleteFirst(s: string, pat: string): (r: string)
  {
    match FindFrom(s, pat, 0)
    case None => s
    case Some(k) => s[..k] + s[k + |pat|..]
  }

  /** `pat` occurs at `k` and nowhere before it. */
  predicate FirstOccurrence(s: string, pat: string, k: nat) {
    OccursAt(s, pat, k) && forall j :: 0 <= j < k ==> !OccursAt(s, pat, j)
  }

  /** `DeleteFirst` deletes the leftmost occurrence and nothing else. */
  lemma DeleteFirstAt(s: string, pat: string, k: nat)
    requires FirstOccurrence(s, pat, k)
    ensures DeleteFirst(s, pat) == s[..k] + s[k + |pat|..]
  {
    var found := FindFrom(s, pat, 0);
    assert found.Some?;
    assert !(found.value < k) && !(k < found.value);
  }

  /** Text in which the pattern does not occur is left unchanged. */
  lemma DeleteFirstAbsent(s: string, pat: string)
    requires forall j :: !OccursAt(s, pat, j)
    ensures DeleteFirst(s, pat) == s
  {
    assert FindFrom(s, pat, 0).None?;
  }

  /** Occurrences that start after the deleted one survive, shifted left by
      the pattern's length. */
  lemma LaterOccurrencesSurvive(s: string, pat: string, k: nat, j: nat)
    requires FirstOccurrence(s, pat, k)
    requires k + |pat| <= j && OccursAt(s, pat, j)
    ensures OccursAt(DeleteFirst(s, pat), pat, j - |pat|)
  {
    DeleteFirstAt(s, pat, k);
    var r := s[..k] + s[k + |pat|..];
    assert r[j - |pat|..j] == s[j..j + |pat|];
  }

  /** `raw.replace(/`/g, '').replace('json', '')`. */
  function Clean(raw: string): (r: string)
    ensures '`' !in r
    ensures |r| <= |raw|
  {
    var t := StripBackticks(raw);
    var r := DeleteFirst(t, "json");
    assert forall c :: c in r ==> c in t;
    r
  }

  /** Cleaning is the backtick strip followed by deleting only the first
      "json" of the stripped text: the cleaned text equals the stripped
      text when "json" does not occur in it, and is otherwise exactly four
      characters shorter. */
  lemma CleanDeletesFirstJsonOnly(raw: string)
    ensures var t := StripBackticks(raw);
      ((forall j :: !OccursAt(t, "json", j)) ==> Clean(raw) == t)
      && ((exists j :: OccursAt(t, "json", j)) ==> |Clean(raw)| == |t| - 4)
  {
    var t := StripBackticks(raw);
    match FindFrom(t, "json", 0)
    case None => DeleteFirstAbsent(t, "json");
    case Some(k) => DeleteFirstAt(t, "json", k);
  }

  /** Deleting the first occurrence when the text starts with it. */
  lemma DeleteFirstAtStart(s: string, pat: string)
    requires |pat| <= |s| && s[..|pat|] == pat
    ensures DeleteFirst(s, pat) == s[|pat|..]
  {
    assert FirstOccurrence(s, pat, 0);
    DeleteFirstAt(s, pat, 0);
  }

  /** Removing a triple-backtick fence around a text. */
  lemma StripBackticksOfFence(t: string)
    ensures StripBackticks("```" + t + "```") == StripBackticks(t)
  {
    StripBackticksDistributes("```" + t, "```");
    StripBackticksDistributes("```", t);
    StripTripleBacktick();
  }

  lemma StripTripleBacktick()
    ensures StripBackticks("```") == ""
  {
    assert "```"[1..] == "``" && "``"[1..] == "`" && "`"[1..] == "";
  }

  /** A reply fenced as a JSON code block loses its fence and its language
      tag, leaving the payload, whatever it is, as long as it holds no
      backtick. */
  lemma CleanStripsCodeFence(payload: string)
    requires '`' !in payload
    ensures Clean("```json" + payload + "```") == payload
  {
    var tagged := "json" + payload;
    assert "```json" + payload + "```" == "```" + tagged + "```";
    StripBackticksOfFence(tagged);
    assert '`' !in tagged;
    assert tagged[..4] == "json" && tagged[4..] == payload;
    DeleteFirstAtStart(tagged, "json");
  }

  /** Cleaning is not idempotent: a second "json" survives the first pass
      and is deleted by the second. */
  lemma CleanIsNotIdempotent()
    ensures Clean("jsonjson") == "json"
    ensures Clean(Clean("jsonjson")) == ""
  {
    var s := "jsonjson";
    assert '`' !in s;
    assert s[..4] == "json" && s[4..] == "json";
    DeleteFirstAtStart(s, "json");
    assert "json"[..4] == "json" && "json"[4..] == "";
    DeleteFirstAtStart("json", "json");
  }

  /** Deleting an occurrence can splice a new one together. */
  lemma CleanCanCreateJson()
    ensures Clean("jsjsonon") == "json"
  {
    var s := "jsjsonon";
    assert '`' !in s;
    assert !OccursAt(s, "json", 0) by { assert s[0..4][2] != "json"[2]; }
    assert !OccursAt(s, "json", 1) by { assert s[1..5][0] != "json"[0]; }
    assert OccursAt(s, "json", 2) by { assert s[2..6] == "json"; }
    DeleteFirstAt(s, "json", 2);
    assert s[..2] + s[6..] == "json";
  }

  lemma StripSingleBacktick()
    ensures StripBackticks("`") == ""
  {
    assert "`"[1..] == "";
  }

  /** Removing one backtick from between two texts changes nothing. */
  lemma StripBackticksDropsOne(a: string, b: string)
    ensures StripBackticks(a + "`" + b) == StripBackticks(a + b)
  {
    StripBackticksDistributes(a + "`", b);
    StripBackticksDistributes(a, "`");
    StripSingleBacktick();
    StripBackticksDistributes(a, b);
  }

  /** Cleaning sees through backticks: a backtick anywhere, even inside
      "json", changes nothing, so "js`on" is deleted like "json". */
  lemma CleanIgnoresBackticks(a: string, b: string)
    ensures Clean(a + "`" + b) == Clean(a + b)
  {
    StripBackticksDropsOne(a, b);
  }

  /** The reply text `response.output_text?.trim() || ""`. */
  function RawText(outputText: Option<string>): (r: string)
    ensures outputText.None? ==> r == ""
    ensures outputText.Some? ==> r == Trim(outputText.value)
  {
    match outputText
    case None => ""
    case Some(t) => Trim(t)
  }

  // ---------------------------------------------------------------------
  // The handler
  // ---------------------------------------------------------------------

  const MissingFieldsMessage: string := "Missing targetTime or transcript"
  const ServerErrorMessage: string := "Server error"
  const ParseFailureExplanation: string := "Không parse được kết quả JSON từ AI."

  /** The verdict returned when the cleaned reply is not JSON. */
  const ParseFallback: Js.Value := Protocol.VerdictBody(false, "", 0.0, ParseFailureExplanation)

  /** What the language-model call did: it threw, or it returned a response
      whose `output_text` may be absent. */
  datatype Upstream = CallFailed | Replied(outputText: Option<string>)

  datatype Response = Response(status: nat, body: Js.Value)

  /** The response, and the input sent to the language model if it was called. */
  datatype Handled = Handled(response: Response, modelInput: Option<string>)

  /** The model input: the grading instructions, then the target time and
      the quoted transcript, each on its own indented line. */
  function ModelInput(instructions: string, targetTime: string, transcript: string): (r: string)
    ensures OccursAt(r, instructions, 7)
    ensures exists k :: OccursAt(r, targetTime, k)
    ensures |r| >= |transcript| + 2 && OccursAt(r, transcript, |r| - |transcript| - 2)
    ensures r[|r| - 2..] == "\"."
  {
    var head := "\n      " + instructions + "\n      targetTime: ";
    var r := head + targetTime + ".\n      User says: \"" + transcript + "\".";
    assert OccursAt(r, targetTime, |head|);
    r
  }

  /** Whether both request fields can be interpolated into the model input
      without throwing. */
  predicate FieldsInterpolate(body: Js.Value) {
    Js.Text(Js.Get(body, "targetTime")).Some? && Js.Text(Js.Get(body, "transcript")).Some?
  }

  /** The handler of `POST /api/check-time`. `body` is `req.body`, `upstream`
      is what the model call does when it is made, and `parse` is
      `JSON.parse` (`None` where it throws). Building the model input throws
      when a field is an object with its own `toString`; that, like a
      failed model call, ends in the catch-all 500 response. */
  function CheckTime(body: Js.Value, instructions: string, upstream: Upstream,
                     parse: string -> Option<Js.Value>): (h: Handled)
    ensures h.response.status in {200, 400, 500}
    ensures h.response.status == 400 <==>
      !Js.Truthy(Js.Get(body, "targetTime")) || !Js.Truthy(Js.Get(body, "transcript"))
    ensures h.response.status == 400 ==>
      h.response.body == Protocol.ErrorBody(MissingFieldsMessage)
    ensures h.modelInput.Some? <==> h.response.status != 400 && FieldsInterpolate(body)
    ensures h.modelInput.Some? ==>
      h.modelInput.value == ModelInput(instructions, Js.Text(Js.Get(body, "targetTime")).value,
                                       Js.Text(Js.Get(body, "transcript")).value)
    ensures h.response.status == 500 <==>
      h.response.status != 400 && (!FieldsInterpolate(body) || upstream.CallFailed?)
    ensures h.response.status == 500 ==> h.response.body == Protocol.ErrorBody(ServerErrorMessage)
    ensures h.response.status == 200 ==>
      h.response.body == parse(Clean(RawText(upstream.outputText))).GetOr(ParseFallback)
  {
    var fields := if Js.Truthy(body) then body else Js.Obj(map[]);
    var targetTime := Js.Get(fields, "targetTime");
    var transcript := Js.Get(fields, "transcript");
    if !Js.Truthy(targetTime) || !Js.Truthy(transcript) then
      Handled(Response(400, Protocol.ErrorBody(MissingFieldsMessage)), None)
    else
      var targetText := Js.Text(targetTime);
      var transcriptText := Js.Text(transcript);
      if targetText.None? || transcriptText.None? then
        Handled(Response(500, Protocol.ErrorBody(ServerErrorMessage)), None)
      else
        var input := ModelInput(instructions, targetText.value, transcriptText.value);
        match upstream
        case CallFailed =>
          Handled(Response(500, Protocol.ErrorBody(ServerErrorMessage)), Some(input))
        case Replied(outputText) =>
          match parse(Clean(RawText(outputText)))
          case None => Handled(Response(200, ParseFallback), Some(input))
          case Some(parsed) => Handled(Response(200, parsed), Some(input))
  }

  /** A transcript sent as an object with its own `toString` field makes the
      interpolation throw: the model is never called and the answer is the
      generic 500, whatever the model would have said. */
  lemma ObjectFieldIsServerError(targetTime: string, value: Js.Value, instructions: string,
                                 upstream: Upstream, parse: string -> Option<Js.Value>)
    requires targetTime != ""
    ensures var h := CheckTime(Js.Obj(map["targetTime" := Js.Str(targetTime),
                                          "transcript" := Js.Obj(map["toString" := value])]),
                               instructions, upstream, parse);
      h.response == Response(500, Protocol.ErrorBody(ServerErrorMessage)) && h.modelInput.None?
  {
    var body := Js.Obj(map["targetTime" := Js.Str(targetTime),
                           "transcript" := Js.Obj(map["toString" := value])]);
    assert Js.Get(body, "transcript") == Js.Obj(map["toString" := value]);
    assert !FieldsInterpolate(body);
  }

  /** For string fields the model input carries the target time and the
      transcript verbatim. */
  lemma ModelInputIsVerbatim(targetTime: string, transcript: string, instructions: string,
                             upstream: Upstream, parse: string -> Option<Js.Value>)
    requires targetTime != "" && transcript != ""
    ensures var h := CheckTime(Protocol.RequestBody(targetTime, transcript), instructions, upstream, parse);
      h.modelInput == Some(ModelInput(instructions, targetTime, transcript))
  {}

  /** An unparseable reply yields the fixed negative verdict with status 200. */
  lemma UnparseableReplyFallsBack(body: Js.Value, instructions: string, outputText: Option<string>,
                                  parse: string -> Option<Js.Value>)
    requires Js.Truthy(Js.Get(body, "targetTime")) && Js.Truthy(Js.Get(body, "transcript"))
    requires FieldsInterpolate(body)
    requires parse(Clean(RawText(outputText))).None?
    ensures var r := CheckTime(body, instructions, Replied(outputText), parse).response;
      r.status == 200
      && Js.Get(r.body, "isCorrect") == Js.Bool(false)
      && Js.Get(r.body, "spokenTime") == Js.Str("")
      && Js.Get(r.body, "confidence") == Js.Num(0.0)
      && Js.Get(r.body, "explanation") != Js.Str("")
  {}

  /** A parsed reply is relayed as it is, whatever its shape. */
  lemma ParsedReplyIsRelayed(body: Js.Value, instructions: string, outputText: Option<string>,
                             parse: string -> Option<Js.Value>, v: Js.Value)
    requires Js.Truthy(Js.Get(body, "targetTime")) && Js.Truthy(Js.Get(body, "transcript"))
    requires FieldsInterpolate(body)
    requires parse(Clean(RawText(outputText))) == Some(v)
    ensures CheckTime(body, instructions, Replied(outputText), parse).response == Response(200, v)
  {}
}
