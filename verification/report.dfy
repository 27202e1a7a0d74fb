/** The report table: a projection of the history, most recent round first,
    numbered from 1, with an explicit placeholder when the history is empty.
    React refuses to render a plain object as a child, so a spoken time that
    is an object makes the whole table fail to render. */
module Report {
  import opened Wrappers
  import Js
  import Session
  import ClockTime

  /** One table line: number, target time, transcript, parsed time ("-"
      when the judge gave none) and "Correct"/"Wrong". */
  datatype Line = Line(number: nat, time: string, transcript: string, parsed: Js.Value, result: string)

  datatype Table = Placeholder | Lines(lines: seq<Line>)

  function LineOf(k: nat, row: Session.Row): (l: Line)
    ensures l.number == k + 1 && l.time == row.targetTime && l.transcript == row.transcript
    ensures l.result in {"Correct", "Wrong"} && (l.result == "Correct" <==> row.isCorrect)
    ensures l.parsed == Js.Str("-") <==> !Js.Truthy(row.spokenTime) || row.spokenTime == Js.Str("-")
    ensures Js.Truthy(row.spokenTime) ==> l.parsed == row.spokenTime
  {
    Line(k + 1, row.targetTime, row.transcript, Js.Or(row.spokenTime, Js.Str("-")),
         if row.isCorrect then "Correct" else "Wrong")
  }

  /** Whether React can render `v` as a child: strings and numbers show as
      text, booleans, `null` and `undefined` show nothing, an array renders
      element by element, and a plain object throws. */
  predicate Renderable(v: Js.Value)
    decreases v
  {
    match v
    case Obj(_) => false
    case Arr(items) => forall x | x in items :: Renderable(x)
    case _ => true
  }

  /** Whether the row's "AI parsed" cell, `spokenTime || "-"`, renders. */
  predicate RowRenders(row: Session.Row) {
    Renderable(Js.Or(row.spokenTime, Js.Str("-")))
  }

  /** The table body for `rows`, or `None` when rendering it throws. */
  function Project(rows: seq<Session.Row>): (t: Option<Table>)
    ensures t.None? <==> exists k :: 0 <= k < |rows| && !RowRenders(rows[k])
    ensures t == Some(Placeholder) <==> |rows| == 0
    ensures t.Some? && t.value.Lines? ==>
      |t.value.lines| == |rows| && forall k :: 0 <= k < |rows| ==> t.value.lines[k] == LineOf(k, rows[k])
  {
    if |rows| == 0 then Some(Placeholder)
    else if exists k :: 0 <= k < |rows| && !RowRenders(rows[k]) then None
    else Some(Lines(seq(|rows|, k requires 0 <= k < |rows| => LineOf(k, rows[k]))))
  }

  /** A row whose spoken time is an object makes the table fail to render,
      whatever the other rows hold. */
  lemma ObjectSpokenTimeBreaksReport(rows: seq<Session.Row>, k: nat)
    requires k < |rows| && rows[k].spokenTime.Obj?
    ensures Project(rows).None?
  {
    assert !RowRenders(rows[k]);
  }

  /** Rows whose spoken times are strings, as every well-formed verdict and
      every normalised error body gives, always render. */
  lemma StringSpokenTimesRender(rows: seq<Session.Row>)
    requires forall k :: 0 <= k < |rows| ==> rows[k].spokenTime.Str?
    ensures Project(rows).Some?
  {
    forall k | 0 <= k < |rows|
      ensures RowRenders(rows[k])
    {
      assert Js.Or(rows[k].spokenTime, Js.Str("-")).Str?;
    }
  }

  /** Prepending a row that renders to a table that renders puts it on
      line 1 and moves every earlier line down by one, keeping its content. */
  lemma PrependRenumbers(row: Session.Row, rows: seq<Session.Row>)
    requires |rows| > 0 && Project(rows).Some? && RowRenders(row)
    ensures var after := Project([row] + rows);
      after.Some? && after.value.Lines?
      && var before := Project(rows).value.lines;
      |after.value.lines| == |before| + 1
      && after.value.lines[0].number == 1 && after.value.lines[0].time == row.targetTime
      && forall k :: 0 <= k < |before| ==>
           after.value.lines[k + 1] == before[k].(number := before[k].number + 1)
  {
    var rows' := [row] + rows;
    forall k | 0 <= k < |rows'|
      ensures RowRenders(rows'[k])
    {
      if k > 0 {
        assert rows'[k] == rows[k - 1];
      }
    }
    var before := Project(rows).value.lines;
    var after := Project(rows').value.lines;
    forall k | 0 <= k < |before|
      ensures after[k + 1] == before[k].(number := before[k].number + 1)
    {
      assert rows'[k + 1] == rows[k];
    }
  }

  /** Before the first press the table renders its placeholder, the clock
      shows a valid reading and both buttons are enabled. */
  lemma InitialShowsPlaceholder()
    ensures Project(Session.Initial.rows) == Some(Placeholder)
    ensures Session.ShowsValidTime(Session.Initial) && Session.ButtonsEnabled(Session.Initial)
    ensures !Session.Initial.started && Session.Initial.aiResult == Js.Null
  {}

  /** Right after a restart the table shows only the placeholder. */
  lemma RestartShowsPlaceholder(s: Session.State, i: nat, j: nat)
    requires i < 12 && j < 12
    ensures Project(Session.Restart(s, i, j).rows) == Some(Placeholder)
  {}

  /** Every judged round whose table renders shows up as its first line. */
  lemma JudgedRoundIsFirstLine(s: Session.State, e: Session.Event)
    requires Session.WellFormed(e) && e.Recognized? && e.outcome.Responded?
    requires Project(Session.Step(s, e).rows).Some?
    ensures var t := Project(Session.Step(s, e).rows).value;
      t.Lines? && t.lines[0] == LineOf(0, Session.RoundRow(e))
      && t.lines[0].time == ClockTime.FormatTime(e.target)
  {}
}
