/** The JSON bodies exchanged over `POST /api/check-time`. */
module Protocol {
  import Js

  /** The verdict shape `{isCorrect, spokenTime, confidence, explanation}`. */
  function VerdictBody(isCorrect: bool, spokenTime: string, confidence: real, explanation: string): (v: Js.Value)
    ensures v.Obj? && v.fields.Keys == {"isCorrect", "spokenTime", "confidence", "explanation"}
    ensures Js.Get(v, "isCorrect") == Js.Bool(isCorrect)
    ensures Js.Get(v, "spokenTime") == Js.Str(spokenTime)
    ensures Js.Get(v, "confidence") == Js.Num(confidence)
    ensures Js.Get(v, "explanation") == Js.Str(explanation)
  {
    Js.Obj(map[
      "isCorrect" := Js.Bool(isCorrect),
      "spokenTime" := Js.Str(spokenTime),
      "confidence" := Js.Num(confidence),
      "explanation" := Js.Str(explanation)])
  }

  /** An error body `{error: message}`; it has none of the verdict fields. */
  function ErrorBody(message: string): (v: Js.Value)
    ensures v.Obj? && v.fields.Keys == {"error"}
    ensures Js.Get(v, "error") == Js.Str(message)
    ensures Js.Get(v, "isCorrect") == Js.Undefined
    ensures Js.Get(v, "spokenTime") == Js.Undefined
    ensures Js.Get(v, "confidence") == Js.Undefined
  {
    Js.Obj(map["error" := Js.Str(message)])
  }

  /** The request body the client posts: `{targetTime, transcript}`. */
  function RequestBody(targetTime: string, transcript: string): (v: Js.Value)
    ensures v.Obj? && v.fields.Keys == {"targetTime", "transcript"}
    ensures Js.Get(v, "targetTime") == Js.Str(targetTime)
    ensures Js.Get(v, "transcript") == Js.Str(transcript)
  {
    Js.Obj(map["targetTime" := Js.Str(targetTime), "transcript" := Js.Str(transcript)])
  }
}
