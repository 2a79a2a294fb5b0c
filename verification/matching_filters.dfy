/** `components/matching-filters.tsx`: the matching panel. Two check-box
    selections are read from the URL, toggled, and written back as
    comma-joined parameters; the skills are shown grouped by category. */
module MatchingFilters {
  import opened Wrappers
  import opened Seqs
  import opened Strings
  import opened UrlUtils
  import opened PageProps
  import opened Selection
  import opened Grouping
  import opened Entities
  import MatchingPage

  /** `value ? value.split(',') : []` */
  function InitialSelection(value: Option<string>): (r: seq<string>)
    ensures r == [] <==> !Truthy(value)
    ensures Truthy(value) ==> Join(r, ',') == value.value
  {
    if Truthy(value) then
      JoinSplit(value.value, ',');
      Split(value.value, ',')
    else []
  }

  /** `selection.length > 0 ? selection.join(',') : undefined` */
  function Joined(selection: seq<string>): Option<string>
  {
    if |selection| > 0 then Some(Join(selection, ',')) else None
  }

  /** The record `updateFilters` hands to `updateUrlWithParams`. */
  function FilterParams(skills: seq<string>, timeSlots: seq<string>): Params
  {
    [("skills", Joined(skills)), ("time_slots", Joined(timeSlots))]
  }

  function FiltersUrl(skills: seq<string>, timeSlots: seq<string>): string
  {
    UpdateUrlWithParams("/matching", FilterParams(skills, timeSlots))
  }

  /** A selection the URL can carry: empty, or ids without commas whose
      joined text is written (so not `"all"` and not blank). */
  ghost predicate Carried(selection: seq<string>)
  {
    selection == [] ||
    ((forall i :: 0 <= i < |selection| ==> ',' !in selection[i]) && IsWritten(Some(Join(selection, ','))))
  }

  /** Pushing the selections and reading the new URL back gives the same
      selections, both to the next panel and to the matching search, which
      splits the same parameters. */
  lemma SelectionRoundTrip(skills: seq<string>, timeSlots: seq<string>)
    requires Carried(skills) && Carried(timeSlots)
    ensures var p := ParseSearchParams(RecordOfUrl(FiltersUrl(skills, timeSlots)));
      && InitialSelection(p.skills) == skills
      && InitialSelection(p.timeSlots) == timeSlots
      && (MatchingPage.HasFilters(p) <==> skills != [] || timeSlots != [])
  {
    ReadBackJoined(Joined(skills), Joined(timeSlots));
    if skills != [] {
      SplitJoin(skills, ',');
    }
    if timeSlots != [] {
      SplitJoin(timeSlots, ',');
    }
  }

  /** The two parameters read back as written, whatever their values. */
  lemma ReadBackJoined(skills: Option<string>, timeSlots: Option<string>)
    ensures var p := ParseSearchParams(RecordOfUrl(UpdateUrlWithParams("/matching", [("skills", skills), ("time_slots", timeSlots)])));
      && p.skills == (if IsWritten(skills) then skills else None)
      && p.timeSlots == (if IsWritten(timeSlots) then timeSlots else None)
  {
    var ps := [("skills", skills), ("time_slots", timeSlots)];
    assert DistinctKeys(ps);
    ReadBackEntry("/matching", ps, 0);
    ReadBackEntry("/matching", ps, 1);
  }

  /** With nothing selected the pushed URL is the bare `/matching`, the
      same one `clearFilters` pushes. */
  lemma EmptySelectionUrl()
    ensures FiltersUrl([], []) == "/matching"
  {
    QueryStringEmpty(FilterParams([], []));
  }

  /** The panel opened on a URL has a selection exactly when the matching
      search applies a filter for that URL. */
  lemma PanelAgreesWithPage(p: SearchParams)
    ensures (InitialSelection(p.skills) != [] || InitialSelection(p.timeSlots) != []) <==> MatchingPage.HasFilters(p)
  {
  }

  // ------------------------------------------------- skills by category

  /** `skill.category || 'その他'` */
  function CategoryOf(skill: Skill): (c: string)
    ensures c != ""
    ensures skill.category.Some? && skill.category.value != "" ==> c == skill.category.value
  {
    if skill.category.Some? && skill.category.value != "" then skill.category.value else "その他"
  }

  /** `skillsByCategory`, reading `acc[category]` as an own property of the
      accumulator: the categories in the order they are first seen, every
      skill in exactly the group of its category, in input order, and no
      group empty. */
  method SkillsByCategory(skills: seq<Skill>) returns (categories: seq<string>, groups: map<string, seq<Skill>>)
    ensures GroupedBy(skills, CategoryOf, categories, groups)
    ensures categories == FirstKeys(skills, CategoryOf)
    ensures forall i :: 0 <= i < |skills| ==> CategoryOf(skills[i]) in groups && skills[i] in groups[CategoryOf(skills[i])]
    ensures SumSizes(categories, groups) == |skills|
  {
    categories, groups := GroupBy(skills, CategoryOf);
    GroupedMembers(skills, CategoryOf, categories, groups);
  }

  /** The members every plain object inherits from `Object.prototype`. */
  const PrototypeNames: set<string> := {
    "constructor", "hasOwnProperty", "isPrototypeOf", "propertyIsEnumerable", "toLocaleString",
    "toString", "valueOf", "__proto__", "__defineGetter__", "__defineSetter__",
    "__lookupGetter__", "__lookupSetter__"}

  /** The `reduce` as written, over a `{}` accumulator: for a category named
      like an inherited member, `acc[category]` is that member, which is
      truthy, so no array is created and `.push` is not a function; the
      render throws (`None`). */
  function ReduceAsWritten(skills: seq<Skill>, categories: seq<string>, acc: map<string, seq<Skill>>)
    : Option<(seq<string>, map<string, seq<Skill>>)>
  {
    if skills == [] then Some((categories, acc))
    else
      var category := CategoryOf(skills[0]);
      if category in acc then ReduceAsWritten(skills[1..], categories, acc[category := acc[category] + [skills[0]]])
      else if category in PrototypeNames then None
      else ReduceAsWritten(skills[1..], categories + [category], acc[category := [skills[0]]])
  }

  /** A skill in category `constructor` makes the panel throw. */
  lemma ConstructorCategoryThrows()
    ensures ReduceAsWritten([Skill("s1", "見守り", Some("constructor"), Some(true))], [], map[]).None?
  {
  }

  /** Without such category names the reduce as written does not throw,
      and groups exactly as `SkillsByCategory` promises. */
  lemma {:induction false} ReduceAsWrittenAgrees(done: seq<Skill>, rest: seq<Skill>, categories: seq<string>,
                                                 acc: map<string, seq<Skill>>)
    requires GroupedBy(done, CategoryOf, categories, acc) && SumSizes(categories, acc) == |done|
    requires forall i :: 0 <= i < |rest| ==> CategoryOf(rest[i]) !in PrototypeNames
    ensures var r := ReduceAsWritten(rest, categories, acc);
      && r.Some?
      && GroupedBy(done + rest, CategoryOf, r.value.0, r.value.1)
      && SumSizes(r.value.0, r.value.1) == |done + rest|
    decreases |rest|
  {
    ConcatStep(done, rest);
    if rest != [] {
      var x := rest[0];
      var k := CategoryOf(x);
      assert forall i :: 0 <= i < |rest[1..]| ==> CategoryOf(rest[1..][i]) !in PrototypeNames by {
        forall i | 0 <= i < |rest[1..]| ensures CategoryOf(rest[1..][i]) !in PrototypeNames {
          assert rest[1..][i] == rest[i + 1];
        }
      }
      if k in acc {
        GroupExisting(done, CategoryOf, categories, acc, x);
        ReduceAsWrittenAgrees(done + [x], rest[1..], categories, acc[k := acc[k] + [x]]);
      } else {
        GroupNew(done, CategoryOf, categories, acc, x);
        ReduceAsWrittenAgrees(done + [x], rest[1..], categories + [k], acc[k := [x]]);
      }
    }
  }

  lemma ConcatStep<T>(done: seq<T>, rest: seq<T>)
    ensures rest == [] ==> done + rest == done
    ensures rest != [] ==> done + rest == (done + [rest[0]]) + rest[1..]
  {
  }

  // ------------------------------------------------------------ state

  /** The panel: its two selections and the URLs pushed onto the router. */
  class MatchingFilterPanel {
    var selectedSkills: seq<string>
    var selectedTimeSlots: seq<string>
    var pushed: seq<string>

    constructor (initialSkills: Option<string>, initialTimeSlots: Option<string>)
      ensures selectedSkills == InitialSelection(initialSkills)
      ensures selectedTimeSlots == InitialSelection(initialTimeSlots)
      ensures pushed == []
    {
      selectedSkills := InitialSelection(initialSkills);
      selectedTimeSlots := InitialSelection(initialTimeSlots);
      pushed := [];
    }

    /** `hasFilters`; the search button is disabled without it. */
    function HasFilters(): bool
      reads this
    {
      |selectedSkills| > 0 || |selectedTimeSlots| > 0
    }

    /** The count on the search button. */
    function SelectedCount(): (n: nat)
      reads this
      ensures n == 0 <==> !HasFilters()
    {
      |selectedSkills| + |selectedTimeSlots|
    }

    /** `handleSkillChange` */
    method HandleSkillChange(skillId: string, checked: bool)
      modifies this
      ensures selectedSkills == Toggle(old(selectedSkills), skillId, checked)
      ensures selectedTimeSlots == old(selectedTimeSlots) && pushed == old(pushed)
    {
      if checked {
        selectedSkills := ToggleOn(selectedSkills, skillId);
      } else {
        selectedSkills := ToggleOff(selectedSkills, skillId);
      }
    }

    /** `handleTimeSlotChange` */
    method HandleTimeSlotChange(timeSlotId: string, checked: bool)
      modifies this
      ensures selectedTimeSlots == Toggle(old(selectedTimeSlots), timeSlotId, checked)
      ensures selectedSkills == old(selectedSkills) && pushed == old(pushed)
    {
      if checked {
        selectedTimeSlots := ToggleOn(selectedTimeSlots, timeSlotId);
      } else {
        selectedTimeSlots := ToggleOff(selectedTimeSlots, timeSlotId);
      }
    }

    /** `updateFilters` */
    method UpdateFilters()
      modifies this
      ensures pushed == old(pushed) + [FiltersUrl(selectedSkills, selectedTimeSlots)]
      ensures selectedSkills == old(selectedSkills) && selectedTimeSlots == old(selectedTimeSlots)
    {
      var url := UpdateUrlWithParams("/matching", FilterParams(selectedSkills, selectedTimeSlots));
      pushed := pushed + [url];
    }

    /** `clearFilters` */
    method ClearFilters()
      modifies this
      ensures selectedSkills == [] && selectedTimeSlots == []
      ensures pushed == old(pushed) + ["/matching"]
    {
      selectedSkills := [];
      selectedTimeSlots := [];
      pushed := pushed + ["/matching"];
    }
  }
}
