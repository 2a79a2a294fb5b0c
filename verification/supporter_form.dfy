/** `components/supporter-form.tsx`: the supporter form. Its default values
    come from the supporter being edited (or are empty for a new one); the
    check boxes toggle skill and time-slot ids; `onSubmit` writes the
    supporter row and then replaces its rows in the two join tables,
    `supporter_skills` and `supporter_schedules`, stopping at the first
    write the store rejects. */
module SupporterForm {
  import opened Wrappers
  import opened Seqs
  import opened Entities
  import opened Selection

  /** The status a new form, or a stored supporter without one, starts at. */
  const DefaultStatus: string := "応募受付"

  /** The form's values before validation: the text inputs may still be
      unset. */
  datatype FormValues = FormValues(
    name: Option<string>,
    phone: Option<string>,
    email: Option<string>,
    address: Option<string>,
    area: Option<string>,
    notes: Option<string>,
    status: string,
    skills: seq<string>,
    schedules: seq<string>)

  /** The validated values `onSubmit` receives. */
  datatype FormData = FormData(
    name: string,
    phone: Option<string>,
    email: Option<string>,
    address: Option<string>,
    area: Option<string>,
    notes: Option<string>,
    status: string,
    skills: seq<string>,
    schedules: seq<string>)

  /** The columns of a `supporters` row the form writes. */
  datatype SupporterRecord = SupporterRecord(
    name: string,
    phone: Option<string>,
    email: Option<string>,
    address: Option<string>,
    area: Option<string>,
    notes: Option<string>,
    status: string)

  /** `v || ''` */
  function OrEmpty(v: Option<string>): string
  {
    if v.Some? then v.value else ""
  }

  /** The ids of the related skills or time slots. */
  function SkillIds(s: Supporter): (r: seq<string>)
    ensures |r| == |s.skills| && forall i :: 0 <= i < |r| ==> r[i] == s.skills[i].id
  {
    seq(|s.skills|, i requires 0 <= i < |s.skills| => s.skills[i].id)
  }

  function SlotIds(s: Supporter): (r: seq<string>)
    ensures |r| == |s.schedules| && forall i :: 0 <= i < |r| ==> r[i] == s.schedules[i].id
  {
    seq(|s.schedules|, i requires 0 <= i < |s.schedules| => s.schedules[i].id)
  }

  /** `defaultValues`: a new form has only the status `応募受付` and two
      empty lists; an edit form takes every field from the supporter, an
      empty text for a missing one, and `応募受付` for a missing or empty
      status. */
  function DefaultValues(initial: Option<Supporter>): (v: FormValues)
    ensures initial.None? ==> v == FormValues(None, None, None, None, None, None, DefaultStatus, [], [])
    ensures initial.Some? ==>
      var s := initial.value;
      && v.name == Some(s.name)
      && v.status == (if s.status.Some? && s.status.value != "" then s.status.value else DefaultStatus)
      && v.skills == SkillIds(s) && v.schedules == SlotIds(s)
    ensures v.status != ""
  {
    match initial
    case None => FormValues(None, None, None, None, None, None, DefaultStatus, [], [])
    case Some(s) =>
      FormValues(Some(s.name), Some(OrEmpty(s.phone)), Some(OrEmpty(s.email)), Some(OrEmpty(s.address)),
                 Some(OrEmpty(s.area)), Some(OrEmpty(s.notes)),
                 if s.status.Some? && s.status.value != "" then s.status.value else DefaultStatus,
                 SkillIds(s), SlotIds(s))
  }

  /** `v || null`: an unset or empty text is stored as null. */
  function NullIfEmpty(v: Option<string>): (r: Option<string>)
    ensures r.None? <==> v.None? || v.value == ""
    ensures r.Some? ==> r == v
  {
    if v.Some? && v.value != "" then v else None
  }

  /** The row written by both the update and the insert. */
  function RecordOf(data: FormData): SupporterRecord
  {
    SupporterRecord(data.name, NullIfEmpty(data.phone), NullIfEmpty(data.email), NullIfEmpty(data.address),
                    NullIfEmpty(data.area), NullIfEmpty(data.notes), data.status)
  }

  /** Saving an edit form nobody touched writes the supporter back as it
      was, except that empty texts become null and a missing status becomes
      `応募受付`. */
  lemma UneditedSave(s: Supporter)
    ensures var v := DefaultValues(Some(s));
      var data := FormData(v.name.value, v.phone, v.email, v.address, v.area, v.notes, v.status, v.skills, v.schedules);
      RecordOf(data) == SupporterRecord(s.name, NullIfEmpty(s.phone), NullIfEmpty(s.email), NullIfEmpty(s.address),
                                        NullIfEmpty(s.area), NullIfEmpty(s.notes), v.status)
  {
  }

  // ------------------------------------------------------ join tables

  /** A `supporter_skills` or `supporter_schedules` row. */
  datatype JoinRow = JoinRow(supporterId: string, refId: string)

  /** The rows of every other supporter. */
  function Without(rows: seq<JoinRow>, id: string): seq<JoinRow>
  {
    Filter(rows, (r: JoinRow) => r.supporterId != id)
  }

  /** The rows of supporter `id`. */
  function RowsOf(rows: seq<JoinRow>, id: string): seq<JoinRow>
  {
    Filter(rows, (r: JoinRow) => r.supporterId == id)
  }

  /** `ids.map((refId) => ({ supporter_id: id, ... : refId }))` */
  function RowsFor(id: string, ids: seq<string>): (r: seq<JoinRow>)
    ensures |r| == |ids| && forall i :: 0 <= i < |r| ==> r[i] == JoinRow(id, ids[i])
  {
    seq(|ids|, i requires 0 <= i < |ids| => JoinRow(id, ids[i]))
  }

  /** The skill or time-slot ids of supporter `id`, in row order. */
  function RefsOf(rows: seq<JoinRow>, id: string): seq<string>
  {
    Refs(RowsOf(rows, id))
  }

  function Refs(rows: seq<JoinRow>): (r: seq<string>)
    ensures |r| == |rows| && forall i :: 0 <= i < |r| ==> r[i] == rows[i].refId
  {
    seq(|rows|, i requires 0 <= i < |rows| => rows[i].refId)
  }

  lemma RefsConcat(a: seq<JoinRow>, b: seq<JoinRow>)
    ensures Refs(a + b) == Refs(a) + Refs(b)
  {
    assert forall i :: 0 <= i < |b| ==> (a + b)[|a| + i] == b[i];
  }

  lemma RefsRowsFor(id: string, ids: seq<string>)
    ensures Refs(RowsFor(id, ids)) == ids
  {
  }

  lemma {:induction false} NoRowsOf(rows: seq<JoinRow>, id: string)
    requires forall i :: 0 <= i < |rows| ==> rows[i].supporterId != id
    ensures RowsOf(rows, id) == []
  {
    if rows != [] {
      assert forall i :: 0 <= i < |rows[1..]| ==> rows[1..][i] == rows[i + 1];
      NoRowsOf(rows[1..], id);
    }
  }

  /** Deleting a supporter's rows and inserting `ids` for it leaves exactly
      `ids` as its references, in order, and every other supporter's rows
      as they were. */
  lemma ReplaceRows(rows: seq<JoinRow>, id: string, ids: seq<string>, other: string)
    ensures RefsOf(Without(rows, id) + RowsFor(id, ids), id) == ids
    ensures other != id ==> RowsOf(Without(rows, id) + RowsFor(id, ids), other) == RowsOf(rows, other)
  {
    var w := Without(rows, id);
    var n := RowsFor(id, ids);
    FilterConcat(w, n, (r: JoinRow) => r.supporterId == id);
    NoRowsOf(w, id);
    FilterAll(n, (r: JoinRow) => r.supporterId == id);
    assert RowsOf(w + n, id) == n;
    RefsRowsFor(id, ids);
    if other != id {
      FilterConcat(w, n, (r: JoinRow) => r.supporterId == other);
      NoRowsOf(n, other);
      FilterFilter(rows, (r: JoinRow) => r.supporterId != id, (r: JoinRow) => r.supporterId == other,
                   (r: JoinRow) => r.supporterId == other);
    }
  }

  /** Deleting without inserting leaves the supporter without rows. */
  lemma DeleteRows(rows: seq<JoinRow>, id: string, other: string)
    ensures RefsOf(Without(rows, id), id) == []
    ensures other != id ==> RowsOf(Without(rows, id), other) == RowsOf(rows, other)
  {
    NoRowsOf(Without(rows, id), id);
    FilterFilter(rows, (r: JoinRow) => r.supporterId != id, (r: JoinRow) => r.supporterId == other,
                 (r: JoinRow) => r.supporterId == other && other != id);
    if other != id {
      FilterSame(rows, (r: JoinRow) => r.supporterId == other && other != id, (r: JoinRow) => r.supporterId == other);
    }
  }

  // ---------------------------------------------------- the tables

  /** The `supporters` table, keyed by id. */
  class SupporterTable {
    var rows: map<string, SupporterRecord>

    constructor (initial: map<string, SupporterRecord>)
      ensures rows == initial
    {
      rows := initial;
    }

    /** `.update(record).eq('id', id)`: a missing id updates nothing and is
        no error. */
    method Update(id: string, record: SupporterRecord, fails: bool) returns (ok: bool)
      modifies this
      ensures ok == !fails
      ensures rows == if ok && id in old(rows) then old(rows)[id := record] else old(rows)
    {
      if fails {
        return false;
      }
      if id in rows {
        rows := rows[id := record];
      }
      return true;
    }

    /** `.insert(record)` under the id the store assigns; a taken id is a
        key violation. */
    method Insert(id: string, record: SupporterRecord, fails: bool) returns (ok: bool)
      modifies this
      ensures ok == (!fails && id !in old(rows))
      ensures rows == if ok then old(rows)[id := record] else old(rows)
    {
      if fails || id in rows {
        return false;
      }
      rows := rows[id := record];
      return true;
    }
  }

  /** A join table. */
  class JoinTable {
    var rows: seq<JoinRow>

    constructor (initial: seq<JoinRow>)
      ensures rows == initial
    {
      rows := initial;
    }

    /** `.delete().eq('supporter_id', id)`; a failed delete removes
        nothing. */
    method Delete(id: string, fails: bool)
      modifies this
      ensures rows == if fails then old(rows) else Without(old(rows), id)
    {
      if !fails {
        rows := Without(rows, id);
      }
    }

    /** `.insert(rows)`: all rows or, on an error, none. */
    method Insert(id: string, ids: seq<string>, fails: bool) returns (ok: bool)
      modifies this
      ensures ok == !fails
      ensures rows == if ok then old(rows) + RowsFor(id, ids) else old(rows)
    {
      if fails {
        return false;
      }
      rows := rows + RowsFor(id, ids);
      return true;
    }
  }

  // --------------------------------------------------- what is written

  /** Which store calls report an error. */
  datatype Faults = Faults(
    supporterWrite: bool,
    skillDelete: bool,
    skillInsert: bool,
    scheduleDelete: bool,
    scheduleInsert: bool)

  /** The contents of the three tables. */
  datatype Db = Db(supporters: map<string, SupporterRecord>, skills: seq<JoinRow>, schedules: seq<JoinRow>)

  /** The optional insert after a delete or on create: skipped for an empty
      list, `None` when the store rejects it. */
  function InsertRows(rows: seq<JoinRow>, id: string, ids: seq<string>, fails: bool): Option<seq<JoinRow>>
  {
    if |ids| == 0 then Some(rows)
    else if fails then None
    else Some(rows + RowsFor(id, ids))
  }

  function AfterDelete(rows: seq<JoinRow>, id: string, fails: bool): seq<JoinRow>
  {
    if fails then rows else Without(rows, id)
  }

  /** Delete the supporter's rows, then insert the new ones: the rows
      after the two calls and whether the insert went through. */
  function ReplaceJoin(rows: seq<JoinRow>, id: string, ids: seq<string>, deleteFails: bool, insertFails: bool)
    : (seq<JoinRow>, bool)
  {
    var afterDelete := AfterDelete(rows, id, deleteFails);
    match InsertRows(afterDelete, id, ids, insertFails)
    case None => (afterDelete, false)
    case Some(rows') => (rows', true)
  }

  /** Insert the rows of a new supporter. */
  function AddJoin(rows: seq<JoinRow>, id: string, ids: seq<string>, insertFails: bool): (seq<JoinRow>, bool)
  {
    match InsertRows(rows, id, ids, insertFails)
    case None => (rows, false)
    case Some(rows') => (rows', true)
  }

  /** The edit branch: update the row, then for each join table delete and
      re-insert; the first rejected write ends the run, with what was done
      before it kept. The result is the new tables and whether it saved. */
  function EditEffect(db: Db, id: string, data: FormData, f: Faults): (Db, bool)
  {
    if f.supporterWrite then (db, false)
    else
      var people := if id in db.supporters then db.supporters[id := RecordOf(data)] else db.supporters;
      var (skills, skillsOk) := ReplaceJoin(db.skills, id, data.skills, f.skillDelete, f.skillInsert);
      if !skillsOk then (Db(people, skills, db.schedules), false)
      else
        var (schedules, schedulesOk) := ReplaceJoin(db.schedules, id, data.schedules, f.scheduleDelete, f.scheduleInsert);
        (Db(people, skills, schedules), schedulesOk)
  }

  /** The create branch: insert the row under `newId`, then insert the
      join rows for that id. */
  function CreateEffect(db: Db, newId: string, data: FormData, f: Faults): (Db, bool)
  {
    if f.supporterWrite || newId in db.supporters then (db, false)
    else
      var people := db.supporters[newId := RecordOf(data)];
      var (skills, skillsOk) := AddJoin(db.skills, newId, data.skills, f.skillInsert);
      if !skillsOk then (Db(people, skills, db.schedules), false)
      else
        var (schedules, schedulesOk) := AddJoin(db.schedules, newId, data.schedules, f.scheduleInsert);
        (Db(people, skills, schedules), schedulesOk)
  }

  /** A replacement whose delete and insert both went through leaves the
      supporter with exactly `ids` (an empty list: no rows) and every other
      supporter's rows as they were. */
  lemma ReplaceJoinSaved(rows: seq<JoinRow>, id: string, ids: seq<string>, insertFails: bool, other: string)
    requires ReplaceJoin(rows, id, ids, false, insertFails).1
    ensures var rows' := ReplaceJoin(rows, id, ids, false, insertFails).0;
      && RefsOf(rows', id) == ids
      && (other != id ==> RowsOf(rows', other) == RowsOf(rows, other))
  {
    ReplaceRows(rows, id, ids, other);
    if |ids| == 0 {
      DeleteRows(rows, id, other);
      assert Without(rows, id) + RowsFor(id, ids) == Without(rows, id);
    }
  }

  /** A saved edit leaves the supporter with exactly the form's skill and
      time-slot lists, its row rewritten, and every other supporter's join
      rows untouched. */
  lemma EditSaved(db: Db, id: string, data: FormData, f: Faults, other: string)
    requires EditEffect(db, id, data, f).1 && !f.skillDelete && !f.scheduleDelete
    ensures var db' := EditEffect(db, id, data, f).0;
      && RefsOf(db'.skills, id) == data.skills
      && RefsOf(db'.schedules, id) == data.schedules
      && db'.supporters == (if id in db.supporters then db.supporters[id := RecordOf(data)] else db.supporters)
      && (other != id ==> RowsOf(db'.skills, other) == RowsOf(db.skills, other)
                          && RowsOf(db'.schedules, other) == RowsOf(db.schedules, other))
  {
    ReplaceJoinSaved(db.skills, id, data.skills, f.skillInsert, other);
    ReplaceJoinSaved(db.schedules, id, data.schedules, f.scheduleInsert, other);
  }

  /** A rejected update of the row writes nothing at all. */
  lemma EditRowRejected(db: Db, id: string, data: FormData, f: Faults)
    requires f.supporterWrite
    ensures EditEffect(db, id, data, f) == (db, false)
  {
  }

  /** A rejected skill insert comes after the delete: the supporter has
      lost its skills, and the schedules are not touched. */
  lemma EditSkillsRejected(db: Db, id: string, data: FormData, f: Faults)
    requires !f.supporterWrite && !f.skillDelete && f.skillInsert && |data.skills| > 0
    ensures var (db', saved) := EditEffect(db, id, data, f);
      && !saved && RefsOf(db'.skills, id) == [] && db'.schedules == db.schedules
  {
    DeleteRows(db.skills, id, id);
  }

  /** A failed delete is not noticed: the old rows stay next to the new
      ones. */
  lemma EditDeleteUnnoticed(db: Db, id: string, data: FormData, f: Faults)
    requires !f.supporterWrite && f.skillDelete && !f.skillInsert
    ensures var (skills, ok) := ReplaceJoin(db.skills, id, data.skills, f.skillDelete, f.skillInsert);
      && ok && RefsOf(skills, id) == RefsOf(db.skills, id) + data.skills
  {
    AddedRows(db.skills, id, data.skills);
  }

  /** Appending rows for `id` appends their references to its own. */
  lemma AddedRows(rows: seq<JoinRow>, id: string, ids: seq<string>)
    ensures RowsOf(rows + RowsFor(id, ids), id) == RowsOf(rows, id) + RowsFor(id, ids)
    ensures RefsOf(rows + RowsFor(id, ids), id) == RefsOf(rows, id) + ids
  {
    var n := RowsFor(id, ids);
    FilterConcat(rows, n, (r: JoinRow) => r.supporterId == id);
    FilterAll(n, (r: JoinRow) => r.supporterId == id);
    RefsConcat(RowsOf(rows, id), n);
    RefsRowsFor(id, ids);
  }

  /** An insertion that went through adds only rows that carry `id`, and
      gives `id` exactly `ids` when it had no rows before. */
  lemma AddJoinSaved(rows: seq<JoinRow>, id: string, ids: seq<string>, insertFails: bool)
    requires AddJoin(rows, id, ids, insertFails).1
    ensures var rows' := AddJoin(rows, id, ids, insertFails).0;
      && |rows'| >= |rows| && rows'[..|rows|] == rows
      && (forall i :: |rows| <= i < |rows'| ==> rows'[i].supporterId == id)
      && (RefsOf(rows, id) == [] ==> RefsOf(rows', id) == ids)
  {
    AddedRows(rows, id, ids);
    if |ids| == 0 {
      assert rows + RowsFor(id, ids) == rows;
    }
  }

  /** A saved creation adds the row under the new id and join rows that all
      carry that id; when the id had no rows before, its lists are exactly
      the form's. */
  lemma CreateSaved(db: Db, newId: string, data: FormData, f: Faults)
    requires CreateEffect(db, newId, data, f).1
    ensures var db' := CreateEffect(db, newId, data, f).0;
      && newId !in db.supporters && db'.supporters == db.supporters[newId := RecordOf(data)]
      && (forall i :: |db.skills| <= i < |db'.skills| ==> db'.skills[i].supporterId == newId)
      && (forall i :: |db.schedules| <= i < |db'.schedules| ==> db'.schedules[i].supporterId == newId)
      && (RefsOf(db.skills, newId) == [] ==> RefsOf(db'.skills, newId) == data.skills)
      && (RefsOf(db.schedules, newId) == [] ==> RefsOf(db'.schedules, newId) == data.schedules)
  {
    AddJoinSaved(db.skills, newId, data.skills, f.skillInsert);
    AddJoinSaved(db.schedules, newId, data.schedules, f.scheduleInsert);
  }

  // ------------------------------------------------------------ the form

  /** The form: the supporter being edited (if any), its values, and the
      URLs pushed after a save. */
  class SupporterFormState {
    const editing: Option<string>
    var values: FormValues
    var pushed: seq<string>

    constructor (initial: Option<Supporter>)
      ensures editing == (if initial.Some? then Some(initial.value.id) else None)
      ensures values == DefaultValues(initial) && pushed == []
    {
      editing := if initial.Some? then Some(initial.value.id) else None;
      values := DefaultValues(initial);
      pushed := [];
    }

    /** `handleSkillChange` */
    method HandleSkillChange(skillId: string, checked: bool)
      modifies this
      ensures values == old(values).(skills := Toggle(old(values.skills), skillId, checked))
      ensures pushed == old(pushed)
    {
      if checked {
        values := values.(skills := values.skills + [skillId]);
      } else {
        values := values.(skills := Filter(values.skills, (id: string) => id != skillId));
      }
    }

    /** `handleScheduleChange` */
    method HandleScheduleChange(timeSlotId: string, checked: bool)
      modifies this
      ensures values == old(values).(schedules := Toggle(old(values.schedules), timeSlotId, checked))
      ensures pushed == old(pushed)
    {
      if checked {
        values := values.(schedules := values.schedules + [timeSlotId]);
      } else {
        values := values.(schedules := Filter(values.schedules, (id: string) => id != timeSlotId));
      }
    }

    /** `onSubmit`: the writes of the edit or the create branch, stopping at
        the first rejected one; after a save the page moves to the
        supporter (edit) or to the list (create). */
    method OnSubmit(data: FormData, people: SupporterTable, skills: JoinTable, schedules: JoinTable,
                    f: Faults, newId: string) returns (saved: bool)
      requires skills != schedules
      modifies people, skills, schedules, this`pushed
      ensures var effect := if editing.Some? then EditEffect(old(Db(people.rows, skills.rows, schedules.rows)), editing.value, data, f)
                            else CreateEffect(old(Db(people.rows, skills.rows, schedules.rows)), newId, data, f);
        && Db(people.rows, skills.rows, schedules.rows) == effect.0
        && saved == effect.1
      ensures pushed == old(pushed) + (if !saved then [] else if editing.Some? then ["/supporters/" + editing.value] else ["/supporters"])
    {
      saved := false;
      var ok: bool;
      if editing.Some? {
        var id := editing.value;
        ok := people.Update(id, RecordOf(data), f.supporterWrite);
        if !ok {
          return;
        }
        skills.Delete(id, f.skillDelete);
        if |data.skills| > 0 {
          ok := skills.Insert(id, data.skills, f.skillInsert);
          if !ok {
            return;
          }
        }
        schedules.Delete(id, f.scheduleDelete);
        if |data.schedules| > 0 {
          ok := schedules.Insert(id, data.schedules, f.scheduleInsert);
          if !ok {
            return;
          }
        }
        saved := true;
        pushed := pushed + ["/supporters/" + id];
      } else {
        ok := people.Insert(newId, RecordOf(data), f.supporterWrite);
        if !ok {
          return;
        }
        if |data.skills| > 0 {
          ok := skills.Insert(newId, data.skills, f.skillInsert);
          if !ok {
            return;
          }
        }
        if |data.schedules| > 0 {
          ok := schedules.Insert(newId, data.schedules, f.scheduleInsert);
          if !ok {
            return;
          }
        }
        saved := true;
        pushed := pushed + ["/supporters"];
      }
    }
  }
}
