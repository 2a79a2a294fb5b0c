/** `components/activity-complete-form.tsx`: completing an activity. The
    report must be non-empty; on submit the form looks up the 完了 status,
    appends the report to the activity's notes and writes the two columns. */
module ActivityCompleteForm {
  import opened Wrappers
  import opened Validations
  import opened Entities
  import MatchingPage

  /** `completeSchema` */
  const CompleteSchema: Schema := [("completion_notes", NonEmptyString("活動報告は必須です"))]

  /** The form passes exactly when the report is a non-empty string. */
  lemma CompleteRule(f: map<string, Value>, isEmail: string -> bool)
    ensures ValidFields(CompleteSchema, f, isEmail) <==> IsFilled(FieldOf(f, "completion_notes"))
  {
    assert CompleteSchema[0].0 == "completion_notes";
  }

  /** An empty report is reported once, with the schema's message. */
  lemma EmptyReportRejected(isEmail: string -> bool)
    ensures SafeParse(CompleteSchema, Obj(map["completion_notes" := Str("")]), isEmail)
            == Failure([Issue([Key("completion_notes")], TooSmall, Some("活動報告は必須です"))])
  {
    var f := map["completion_notes" := Str("")];
    assert ObjectIssues(CompleteSchema, f, isEmail)
        == FieldIssues("completion_notes", CompleteSchema[0].1, Str(""), isEmail) + ObjectIssues(CompleteSchema[1..], f, isEmail);
  }

  const ReportHeading: string := "【活動報告】\n"

  /** `updatedNotes`: the report under its heading, after a blank line
      when there are prior notes. */
  function UpdatedNotes(prior: Option<string>, report: string): string
  {
    if prior.Some? && prior.value != "" then prior.value + "\n\n" + ReportHeading + report
    else ReportHeading + report
  }

  /** The report always ends the new notes; prior notes start them,
      followed by a blank line and the heading; without prior notes the
      heading starts them. */
  lemma NotesShape(prior: Option<string>, report: string)
    ensures var r := UpdatedNotes(prior, report);
      && |r| >= |ReportHeading| + |report|
      && r[|r| - |report|..] == report
      && r[|r| - |report| - |ReportHeading|..|r| - |report|] == ReportHeading
      && (prior.Some? && prior.value != "" ==>
            && r[..|prior.value|] == prior.value
            && r[|prior.value|..|prior.value| + 2] == "\n\n"
            && |r| == |prior.value| + 2 + |ReportHeading| + |report|)
      && (!(prior.Some? && prior.value != "") ==> |r| == |ReportHeading| + |report|)
  {
    var r := UpdatedNotes(prior, report);
    if prior.Some? && prior.value != "" {
      var p := prior.value;
      assert r == p + ("\n\n" + (ReportHeading + report));
      assert r[..|p|] == p;
      assert r[|p|..|p| + 2] == "\n\n";
    }
    assert r[|r| - |report|..] == report;
    assert r[|r| - |report| - |ReportHeading|..|r| - |report|] == ReportHeading;
  }

  /** Completing twice keeps both reports: the first completion's notes are
      a prefix of the second's. */
  lemma CompletionsAccumulate(prior: Option<string>, first: string, second: string)
    ensures var once := UpdatedNotes(prior, first);
      var twice := UpdatedNotes(Some(once), second);
      |once| <= |twice| && twice[..|once|] == once
  {
    var once := UpdatedNotes(prior, first);
    NotesShape(Some(once), second);
  }

  // --------------------------------------------------------------- submit

  /** The `activities` table, keyed by id. */
  class ActivityTable {
    var rows: map<string, Activity>

    constructor (initial: map<string, Activity>)
      ensures rows == initial
    {
      rows := initial;
    }

    /** `.update({ status_id, notes }).eq('id', id)`: only those two
        columns of that row; a missing id updates nothing. */
    method UpdateStatusAndNotes(id: string, statusId: string, notes: string, fails: bool) returns (ok: bool)
      modifies this
      ensures ok == !fails
      ensures rows == if ok && id in old(rows)
                      then old(rows)[id := old(rows)[id].(statusId := statusId, notes := Some(notes))]
                      else old(rows)
    {
      if fails {
        return false;
      }
      if id in rows {
        rows := rows[id := rows[id].(statusId := statusId, notes := Some(notes))];
      }
      return true;
    }
  }

  /** The status lookup: `None` when it reports an error, including when
      not exactly one status is named 完了. */
  function CompletedStatus(statuses: seq<ActivityStatus>, fails: bool): (r: Option<string>)
    ensures r.Some? ==> exists i :: 0 <= i < |statuses| && statuses[i].name == "完了" && statuses[i].id == r.value
  {
    if fails then None else MatchingPage.SingleId(statuses, "完了")
  }

  /** The form for one activity, as loaded, and the URLs pushed. */
  class CompleteFormState {
    const activityId: string
    const priorNotes: Option<string>
    var pushed: seq<string>

    constructor (id: string, notes: Option<string>)
      ensures activityId == id && priorNotes == notes && pushed == []
    {
      activityId := id;
      priorNotes := notes;
      pushed := [];
    }

    /** `onSubmit`: look the status up, then update. Without the status
        nothing is written; after a rejected update nothing has changed;
        after a successful one the page moves to the activity. */
    method OnSubmit(report: string, statuses: seq<ActivityStatus>, table: ActivityTable,
                    lookupFails: bool, updateFails: bool) returns (done: bool)
      modifies table, this`pushed
      ensures var status := CompletedStatus(statuses, lookupFails);
        && done == (status.Some? && !updateFails)
        && table.rows == (if done && activityId in old(table.rows)
                          then old(table.rows)[activityId := old(table.rows)[activityId]
                                 .(statusId := status.value, notes := Some(UpdatedNotes(priorNotes, report)))]
                          else old(table.rows))
      ensures pushed == old(pushed) + (if done then ["/activities/" + activityId] else [])
    {
      var completedStatus := CompletedStatus(statuses, lookupFails);
      if completedStatus.None? {
        return false;
      }
      var updatedNotes := UpdatedNotes(priorNotes, report);
      done := table.UpdateStatusAndNotes(activityId, completedStatus.value, updatedNotes, updateFails);
      if done {
        pushed := pushed + ["/activities/" + activityId];
      }
    }
  }
}
