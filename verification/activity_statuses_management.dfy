/** `components/activity-statuses-management.tsx`: the activity status
    settings page. Like the skills page it keeps the list in state, edits
    one status at a time in a dialog and mirrors every write the store
    accepts in that list. */
module ActivityStatusesManagement {
  import opened Wrappers
  import opened Entities
  import opened MasterList
  import SupporterForm

  function StatusId(s: ActivityStatus): string
  {
    s.id
  }

  /** The dialog's form fields; `None` is a field the form has no value
      for (after `reset()` to default values that do not hold it). */
  datatype StatusFields = StatusFields(name: Option<string>, description: Option<string>)

  /** `useForm` receives no `defaultValues`, so at first neither field has
      a default. */
  const ResetFields := StatusFields(None, None)

  /** The validated form data (`ActivityStatusFormData`). */
  datatype StatusFormData = StatusFormData(name: string, description: Option<string>)

  /** The fields `openDialog` fills: the status's own values with a missing
      description shown as empty, or two empty fields for a new one. */
  function DialogFields(status: Option<ActivityStatus>): (f: StatusFields)
    ensures f.name.Some? && f.description.Some?
    ensures status.None? ==> f == StatusFields(Some(""), Some(""))
    ensures status.Some? ==> f.name == Some(status.value.name)
    ensures status.Some? ==> (f.description.value == "" <==> status.value.description.None? || status.value.description.value == "")
    ensures status.Some? && status.value.description.Some? ==> f.description == status.value.description
  {
    match status
    case None => StatusFields(Some(""), Some(""))
    case Some(s) => StatusFields(Some(s.name), Some(SupporterForm.OrEmpty(s.description)))
  }

  /** The row the store holds after a write of `data` under `id`. */
  function Written(id: string, data: StatusFormData): (s: ActivityStatus)
    ensures s.id == id && s.name == data.name
    ensures s.description.None? <==> data.description.None? || data.description.value == ""
  {
    ActivityStatus(id, data.name, SupporterForm.NullIfEmpty(data.description))
  }

  /** Saving an edit dialog nobody touched writes the status back
      unchanged, except that an empty description is stored as null. */
  lemma UneditedSave(s: ActivityStatus)
    ensures var f := DialogFields(Some(s));
      Written(s.id, StatusFormData(f.name.value, f.description))
        == s.(description := SupporterForm.NullIfEmpty(s.description))
  {
  }

  /** The `activity_statuses` table, keyed by id. */
  class StatusTable {
    var rows: map<string, ActivityStatus>

    constructor (initial: map<string, ActivityStatus>)
      ensures rows == initial
    {
      rows := initial;
    }

    /** `.update(...).eq('id', id).select().single()`: the updated row, or
        an error when the write fails or no row has that id. */
    method Update(id: string, data: StatusFormData, fails: bool) returns (r: Option<ActivityStatus>)
      modifies this
      ensures r.Some? <==> !fails && id in old(rows)
      ensures r.Some? ==> r.value == Written(id, data) && rows == old(rows)[id := r.value]
      ensures r.None? ==> rows == old(rows)
    {
      if fails || id !in rows {
        return None;
      }
      var row := Written(id, data);
      rows := rows[id := row];
      return Some(row);
    }

    /** `.insert(...).select().single()` under the id the store assigns. */
    method Insert(newId: string, data: StatusFormData, fails: bool) returns (r: Option<ActivityStatus>)
      modifies this
      ensures r.Some? <==> !fails && newId !in old(rows)
      ensures r.Some? ==> r.value == Written(newId, data) && rows == old(rows)[newId := r.value]
      ensures r.None? ==> rows == old(rows)
    {
      if fails || newId in rows {
        return None;
      }
      var row := Written(newId, data);
      rows := rows[newId := row];
      return Some(row);
    }

    /** `.delete().eq('id', id)`: a missing id deletes nothing and is no
        error; a rejected delete (a status still in use) changes nothing. */
    method Delete(id: string, fails: bool) returns (ok: bool)
      modifies this
      ensures ok == !fails
      ensures rows == if ok then old(rows) - {id} else old(rows)
    {
      if fails {
        return false;
      }
      rows := rows - {id};
      return true;
    }
  }

  /** The page's state. */
  class StatusesManagementState {
    var statuses: seq<ActivityStatus>
    var isDialogOpen: bool
    var editing: Option<ActivityStatus>
    var fields: StatusFields
    /** The values a bare `reset()` restores: none until `reset(values)`
        installs `values`. */
    var defaults: StatusFields

    constructor (initialStatuses: seq<ActivityStatus>)
      ensures statuses == initialStatuses && !isDialogOpen && editing.None?
      ensures fields == ResetFields && defaults == ResetFields
    {
      statuses := initialStatuses;
      isDialogOpen := false;
      editing := None;
      fields := ResetFields;
      defaults := ResetFields;
    }

    /** `openDialog`: an existing status's values are set field by field,
        which leaves the defaults alone; a new status's empty values go in
        through `reset(values)` and so become the defaults. */
    method OpenDialog(status: Option<ActivityStatus>)
      modifies this
      ensures editing == status && isDialogOpen && fields == DialogFields(status)
      ensures defaults == if status.None? then DialogFields(None) else old(defaults)
      ensures statuses == old(statuses)
    {
      editing := status;
      fields := DialogFields(status);
      if status.None? {
        defaults := fields;
      }
      isDialogOpen := true;
    }

    /** `closeDialog`: the bare `reset()` restores the current defaults. */
    method CloseDialog()
      modifies this
      ensures !isDialogOpen && editing.None? && fields == old(defaults) && defaults == old(defaults)
      ensures statuses == old(statuses)
    {
      isDialogOpen := false;
      editing := None;
      fields := defaults;
    }

    /** `onSubmit`: update the status being edited or insert a new one
        under the id the store assigns, mirror the stored row in the list
        and close the dialog. A failed write changes nothing and leaves the
        dialog open. The list stays in step with the table. */
    method OnSubmit(data: StatusFormData, table: StatusTable, fails: bool, newId: string) returns (saved: bool)
      modifies this, table
      ensures saved == (!fails && if old(editing).Some? then old(editing).value.id in old(table.rows)
                                  else newId !in old(table.rows))
      ensures var id := if old(editing).Some? then old(editing).value.id else newId;
        && table.rows == (if saved then old(table.rows)[id := Written(id, data)] else old(table.rows))
        && statuses == (if !saved then old(statuses)
                        else if old(editing).Some? then ReplaceById(old(statuses), StatusId, id, Written(id, data))
                        else old(statuses) + [Written(id, data)])
      ensures saved ==> !isDialogOpen && editing.None? && fields == old(defaults)
      ensures !saved ==> isDialogOpen == old(isDialogOpen) && editing == old(editing) && fields == old(fields)
      ensures defaults == old(defaults)
      ensures InStep(old(statuses), old(table.rows), StatusId) ==> InStep(statuses, table.rows, StatusId)
    {
      ghost var rows0 := table.rows;
      if editing.Some? {
        var updated := table.Update(editing.value.id, data, fails);
        if updated.None? {
          return false;
        }
        if InStep(statuses, rows0, StatusId) {
          ReplaceInStep(statuses, rows0, StatusId, updated.value);
        }
        statuses := ReplaceById(statuses, StatusId, editing.value.id, updated.value);
      } else {
        var inserted := table.Insert(newId, data, fails);
        if inserted.None? {
          return false;
        }
        if InStep(statuses, rows0, StatusId) {
          AppendInStep(statuses, rows0, StatusId, inserted.value);
        }
        statuses := statuses + [inserted.value];
      }
      CloseDialog();
      saved := true;
    }

    /** `deleteStatus`: after a confirmed delete the store accepted, the
        status's id is gone from the list; otherwise nothing changes. */
    method DeleteStatus(status: ActivityStatus, confirmed: bool, table: StatusTable, fails: bool) returns (deleted: bool)
      modifies this, table
      ensures deleted == (confirmed && !fails)
      ensures table.rows == if deleted then old(table.rows) - {status.id} else old(table.rows)
      ensures statuses == if deleted then RemoveById(old(statuses), StatusId, status.id) else old(statuses)
      ensures isDialogOpen == old(isDialogOpen) && editing == old(editing) && fields == old(fields)
      ensures defaults == old(defaults)
      ensures InStep(old(statuses), old(table.rows), StatusId) ==> InStep(statuses, table.rows, StatusId)
    {
      if !confirmed {
        return false;
      }
      ghost var rows0 := table.rows;
      deleted := table.Delete(status.id, fails);
      if !deleted {
        return;
      }
      if InStep(statuses, rows0, StatusId) {
        RemoveInStep(statuses, rows0, StatusId, status.id);
      }
      statuses := RemoveById(statuses, StatusId, status.id);
    }
  }
}
