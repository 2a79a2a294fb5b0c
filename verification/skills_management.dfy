/** `components/skills-management.tsx`: the skills settings page. The page
    keeps the skill list in state, edits one skill at a time in a dialog and
    mirrors every write the store accepts in that list. */
module SkillsManagement {
  import opened Wrappers
  import opened Entities
  import opened MasterList
  import SupporterForm

  function SkillId(s: Skill): string
  {
    s.id
  }

  /** The dialog's form fields; `None` is a field the form has no value
      for (after `reset()` to default values that do not hold it). */
  datatype SkillFields = SkillFields(name: Option<string>, category: Option<string>, isActive: Option<bool>)

  /** `defaultValues` as `useForm` receives them: only `is_active`. */
  const DefaultFields := SkillFields(None, None, Some(true))

  /** The validated form data (`SkillFormData`). */
  datatype SkillFormData = SkillFormData(name: string, category: Option<string>, isActive: bool)

  /** The fields `openDialog` fills: the skill's own values with a missing
      category shown as empty and a missing flag as active, or a blank
      active skill for a new one. */
  function DialogFields(skill: Option<Skill>): (f: SkillFields)
    ensures f.name.Some? && f.category.Some? && f.isActive.Some?
    ensures skill.None? ==> f == SkillFields(Some(""), Some(""), Some(true))
    ensures skill.Some? ==> f.name == Some(skill.value.name)
    ensures skill.Some? ==> (f.category.value == "" <==> skill.value.category.None? || skill.value.category.value == "")
    ensures skill.Some? && skill.value.category.Some? ==> f.category == skill.value.category
    ensures skill.Some? ==> (f.isActive == Some(false) <==> skill.value.isActive == Some(false))
  {
    match skill
    case None => SkillFields(Some(""), Some(""), Some(true))
    case Some(s) => SkillFields(Some(s.name), Some(SupporterForm.OrEmpty(s.category)), Some(s.isActive.GetOr(true)))
  }

  /** The row the store holds after a write of `data` under `id`. */
  function Written(id: string, data: SkillFormData): (s: Skill)
    ensures s.id == id && s.name == data.name && s.isActive == Some(data.isActive)
    ensures s.category.None? <==> data.category.None? || data.category.value == ""
  {
    Skill(id, data.name, SupporterForm.NullIfEmpty(data.category), Some(data.isActive))
  }

  /** Saving an edit dialog nobody touched writes the skill back unchanged,
      except that an empty category is stored as null and a null flag as
      active. */
  lemma UneditedSave(s: Skill)
    ensures var f := DialogFields(Some(s));
      Written(s.id, SkillFormData(f.name.value, f.category, f.isActive.value))
        == s.(category := SupporterForm.NullIfEmpty(s.category), isActive := Some(s.isActive.GetOr(true)))
  {
  }

  /** The `skills` table, keyed by id. */
  class SkillTable {
    var rows: map<string, Skill>

    constructor (initial: map<string, Skill>)
      ensures rows == initial
    {
      rows := initial;
    }

    /** `.update(...).eq('id', id).select().single()`: the updated row, or
        an error when the write fails or no row has that id. */
    method Update(id: string, data: SkillFormData, fails: bool) returns (r: Option<Skill>)
      modifies this
      ensures r.Some? <==> !fails && id in old(rows)
      ensures r.Some? ==> r.value == Written(id, data) && rows == old(rows)[id := r.value]
      ensures r.None? ==> rows == old(rows)
    {
      if fails || id !in rows {
        return None;
      }
      var row := Written(id, data);
      rows := rows[id := row];
      return Some(row);
    }

    /** `.insert(...).select().single()` under the id the store assigns. */
    method Insert(newId: string, data: SkillFormData, fails: bool) returns (r: Option<Skill>)
      modifies this
      ensures r.Some? <==> !fails && newId !in old(rows)
      ensures r.Some? ==> r.value == Written(newId, data) && rows == old(rows)[newId := r.value]
      ensures r.None? ==> rows == old(rows)
    {
      if fails || newId in rows {
        return None;
      }
      var row := Written(newId, data);
      rows := rows[newId := row];
      return Some(row);
    }

    /** `.delete().eq('id', id)`: a missing id deletes nothing and is no
        error; a rejected delete (a skill still referenced) changes
        nothing. */
    method Delete(id: string, fails: bool) returns (ok: bool)
      modifies this
      ensures ok == !fails
      ensures rows == if ok then old(rows) - {id} else old(rows)
    {
      if fails {
        return false;
      }
      rows := rows - {id};
      return true;
    }
  }

  /** The page's state. */
  class SkillsManagementState {
    var skills: seq<Skill>
    var isDialogOpen: bool
    var editing: Option<Skill>
    var fields: SkillFields
    /** The values a bare `reset()` restores: `useForm`'s `defaultValues`
        until `reset(values)` installs `values` in their place. */
    var defaults: SkillFields

    constructor (initialSkills: seq<Skill>)
      ensures skills == initialSkills && !isDialogOpen && editing.None?
      ensures fields == DefaultFields && defaults == DefaultFields
    {
      skills := initialSkills;
      isDialogOpen := false;
      editing := None;
      fields := DefaultFields;
      defaults := DefaultFields;
    }

    /** `openDialog`: an existing skill's values are set field by field,
        which leaves the defaults alone; a new skill's blank values go in
        through `reset(values)` and so become the defaults. */
    method OpenDialog(skill: Option<Skill>)
      modifies this
      ensures editing == skill && isDialogOpen && fields == DialogFields(skill)
      ensures defaults == if skill.None? then DialogFields(None) else old(defaults)
      ensures skills == old(skills)
    {
      editing := skill;
      fields := DialogFields(skill);
      if skill.None? {
        defaults := fields;
      }
      isDialogOpen := true;
    }

    /** `closeDialog`: the bare `reset()` restores the current defaults. */
    method CloseDialog()
      modifies this
      ensures !isDialogOpen && editing.None? && fields == old(defaults) && defaults == old(defaults)
      ensures skills == old(skills)
    {
      isDialogOpen := false;
      editing := None;
      fields := defaults;
    }

    /** `onSubmit`: update the skill being edited or insert a new one under
        the id the store assigns, mirror the stored row in the list and
        close the dialog. A failed write changes nothing and leaves the
        dialog open. The list stays in step with the table. */
    method OnSubmit(data: SkillFormData, table: SkillTable, fails: bool, newId: string) returns (saved: bool)
      modifies this, table
      ensures saved == (!fails && if old(editing).Some? then old(editing).value.id in old(table.rows)
                                  else newId !in old(table.rows))
      ensures var id := if old(editing).Some? then old(editing).value.id else newId;
        && table.rows == (if saved then old(table.rows)[id := Written(id, data)] else old(table.rows))
        && skills == (if !saved then old(skills)
                      else if old(editing).Some? then ReplaceById(old(skills), SkillId, id, Written(id, data))
                      else old(skills) + [Written(id, data)])
      ensures saved ==> !isDialogOpen && editing.None? && fields == old(defaults)
      ensures !saved ==> isDialogOpen == old(isDialogOpen) && editing == old(editing) && fields == old(fields)
      ensures defaults == old(defaults)
      ensures InStep(old(skills), old(table.rows), SkillId) ==> InStep(skills, table.rows, SkillId)
    {
      ghost var rows0 := table.rows;
      if editing.Some? {
        var updated := table.Update(editing.value.id, data, fails);
        if updated.None? {
          return false;
        }
        if InStep(skills, rows0, SkillId) {
          ReplaceInStep(skills, rows0, SkillId, updated.value);
        }
        skills := ReplaceById(skills, SkillId, editing.value.id, updated.value);
      } else {
        var inserted := table.Insert(newId, data, fails);
        if inserted.None? {
          return false;
        }
        if InStep(skills, rows0, SkillId) {
          AppendInStep(skills, rows0, SkillId, inserted.value);
        }
        skills := skills + [inserted.value];
      }
      CloseDialog();
      saved := true;
    }

    /** `deleteSkill`: after a confirmed delete the store accepted, the
        skill's id is gone from the list; otherwise nothing changes. */
    method DeleteSkill(skill: Skill, confirmed: bool, table: SkillTable, fails: bool) returns (deleted: bool)
      modifies this, table
      ensures deleted == (confirmed && !fails)
      ensures table.rows == if deleted then old(table.rows) - {skill.id} else old(table.rows)
      ensures skills == if deleted then RemoveById(old(skills), SkillId, skill.id) else old(skills)
      ensures isDialogOpen == old(isDialogOpen) && editing == old(editing) && fields == old(fields)
      ensures defaults == old(defaults)
      ensures InStep(old(skills), old(table.rows), SkillId) ==> InStep(skills, table.rows, SkillId)
    {
      if !confirmed {
        return false;
      }
      ghost var rows0 := table.rows;
      deleted := table.Delete(skill.id, fails);
      if !deleted {
        return;
      }
      if InStep(skills, rows0, SkillId) {
        RemoveInStep(skills, rows0, SkillId, skill.id);
      }
      skills := RemoveById(skills, SkillId, skill.id);
    }
  }
}
