/** The client and the judge endpoint together: the client posts
    `{targetTime, transcript}` and records whatever JSON body comes back,
    whatever its status. */
module Pipeline {
  import opened Wrappers
  import Js
  import Protocol
  import ClockTime
  import JudgeService
  import Session
  import Report

  /** The response the endpoint gives to the client's request for a round. */
  function Judge(target: ClockTime.Time, text: string, instructions: string,
                 upstream: JudgeService.Upstream, parse: string -> Option<Js.Value>): (r: JudgeService.Response)
    ensures r.status == 400 <==> text == ""
    ensures r.status == 500 <==> text != "" && upstream.CallFailed?
  {
    var body := Protocol.RequestBody(ClockTime.FormatTime(target), text);
    assert Js.Truthy(Js.Get(body, "targetTime"));
    assert JudgeService.FieldsInterpolate(body);
    assert Js.Truthy(Js.Get(body, "transcript")) <==> text != "";
    JudgeService.CheckTime(body, instructions, upstream, parse).response
  }

  /** A 400 or 500 response still records a round, marked wrong, with no
      spoken time and no confidence, because the client never checks the
      status. */
  lemma NonOkResponseRecordsWrongRow(s: Session.State, target: ClockTime.Time, alternative: Option<string>,
                                     instructions: string, upstream: JudgeService.Upstream,
                                     parse: string -> Option<Js.Value>, id: nat)
    requires Judge(target, Session.RecognizedText(alternative), instructions, upstream, parse).status != 200
    ensures var response := Judge(target, Session.RecognizedText(alternative), instructions, upstream, parse);
      var r := Session.OnResult(s, target, alternative, Session.Responded(response.body), id);
      |r.rows| == |s.rows| + 1
      && !r.rows[0].isCorrect && r.rows[0].spokenTime == Js.Str("") && r.rows[0].confidence.None?
  {
    var text := Session.RecognizedText(alternative);
    var response := Judge(target, text, instructions, upstream, parse);
    if response.status == 400 {
      Session.NormalizeErrorBodyIsWrong(id, ClockTime.FormatTime(target), text, JudgeService.MissingFieldsMessage);
    } else {
      Session.NormalizeErrorBodyIsWrong(id, ClockTime.FormatTime(target), text, JudgeService.ServerErrorMessage);
    }
  }

  /** A round in which nothing was recognised is still judged (and rejected
      with 400), so it adds a wrong row rather than nothing. */
  lemma SilentRoundRecordsWrongRow(s: Session.State, target: ClockTime.Time, instructions: string,
                                   upstream: JudgeService.Upstream, parse: string -> Option<Js.Value>, id: nat)
    ensures var response := Judge(target, "", instructions, upstream, parse);
      var r := Session.OnResult(s, target, None, Session.Responded(response.body), id);
      response.status == 400 && |r.rows| == |s.rows| + 1 && !r.rows[0].isCorrect && r.rows[0].transcript == ""
  {
    NonOkResponseRecordsWrongRow(s, target, None, instructions, upstream, parse, id);
  }

  /** An unparseable model reply reaches the client as a 200 fallback, which
      records a wrong row with confidence 0. */
  lemma UnparseableReplyRecordsWrongRow(s: Session.State, target: ClockTime.Time, text: string,
                                        instructions: string, outputText: Option<string>,
                                        parse: string -> Option<Js.Value>, id: nat)
    requires text != ""
    requires parse(JudgeService.Clean(JudgeService.RawText(outputText))).None?
    ensures var response := Judge(target, text, instructions, JudgeService.Replied(outputText), parse);
      var r := Session.OnResult(s, target, Some(text), Session.Responded(response.body), id);
      response.status == 200
      && !r.rows[0].isCorrect && r.rows[0].spokenTime == Js.Str("") && r.rows[0].confidence == Some(0.0)
  {
    var body := Protocol.RequestBody(ClockTime.FormatTime(target), text);
    JudgeService.UnparseableReplyFallsBack(body, instructions, outputText, parse);
  }

  /** A model reply whose `spokenTime` is an object is relayed, recorded in
      the history, and then makes the report table fail to render. */
  lemma ObjectSpokenTimeReplyBreaksReport(s: Session.State, target: ClockTime.Time, text: string,
                                          instructions: string, outputText: Option<string>,
                                          parse: string -> Option<Js.Value>, id: nat,
                                          fields: map<string, Js.Value>)
    requires text != ""
    requires "spokenTime" in fields && fields["spokenTime"].Obj?
    requires parse(JudgeService.Clean(JudgeService.RawText(outputText))) == Some(Js.Obj(fields))
    ensures var response := Judge(target, text, instructions, JudgeService.Replied(outputText), parse);
      var r := Session.OnResult(s, target, Some(text), Session.Responded(response.body), id);
      response.status == 200 && Report.Project(r.rows).None?
  {
    var body := Protocol.RequestBody(ClockTime.FormatTime(target), text);
    JudgeService.ParsedReplyIsRelayed(body, instructions, outputText, parse, Js.Obj(fields));
    var response := Judge(target, text, instructions, JudgeService.Replied(outputText), parse);
    assert response == JudgeService.Response(200, Js.Obj(fields));
    var row := Session.NormalizeRow(id, ClockTime.FormatTime(target), text, Js.Obj(fields));
    assert row.spokenTime == fields["spokenTime"];
    var r := Session.OnResult(s, target, Some(text), Session.Responded(Js.Obj(fields)), id);
    assert r.rows[0] == row;
    Report.ObjectSpokenTimeBreaksReport(r.rows, 0);
  }
}
