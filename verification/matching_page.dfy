/** `app/matching/page.tsx`: the matching search. Status-eligible
    supporters are fetched, kept only if they have every requested skill
    and every requested time slot, and annotated with their number of
    completed activities. */
module MatchingPage {
  import opened Wrappers
  import opened Seqs
  import opened Strings
  import opened PageProps
  import opened Entities

  /** `.in('status', ['登録完了', '面接済み'])` */
  predicate Eligible(s: Supporter)
  {
    s.status == Some("登録完了") || s.status == Some("面接済み")
  }

  /** `supporter.supporter_skills.some((ss) => ss.skills.id === id)` */
  predicate HasSkill(s: Supporter, id: string)
  {
    exists j | 0 <= j < |s.skills| :: s.skills[j].id == id
  }

  /** `supporter.supporter_schedules.some((ss) => ss.time_slots.id === id)` */
  predicate HasSlot(s: Supporter, id: string)
  {
    exists j | 0 <= j < |s.schedules| :: s.schedules[j].id == id
  }

  /** `selectedSkills.every(...)` */
  function HasAllSkills(ids: seq<string>): Supporter -> bool
  {
    s => forall i | 0 <= i < |ids| :: HasSkill(s, ids[i])
  }

  /** `selectedTimeSlots.every(...)` */
  function HasAllSlots(ids: seq<string>): Supporter -> bool
  {
    s => forall i | 0 <= i < |ids| :: HasSlot(s, ids[i])
  }

  /** What the supporter must satisfy for the two parameters: with a
      parameter set, every comma-separated id in it; without, nothing. */
  predicate Requested(s: Supporter, skills: Option<string>, timeSlots: Option<string>)
  {
    && (Truthy(skills) ==> HasAllSkills(Split(skills.value, ','))(s))
    && (Truthy(timeSlots) ==> HasAllSlots(Split(timeSlots.value, ','))(s))
  }

  /** The supporters that survive the skill filter and then the time-slot
      filter; an absent or empty parameter skips its filter. */
  function Matches(fetched: seq<Supporter>, skills: Option<string>, timeSlots: Option<string>): seq<Supporter>
  {
    var afterSkills := if Truthy(skills) then Filter(fetched, HasAllSkills(Split(skills.value, ','))) else fetched;
    if Truthy(timeSlots) then Filter(afterSkills, HasAllSlots(Split(timeSlots.value, ','))) else afterSkills
  }

  /** A supporter is kept exactly when it was fetched and has every
      requested skill and time slot; the kept ones are in fetched order. */
  lemma MatchesMeaning(fetched: seq<Supporter>, skills: Option<string>, timeSlots: Option<string>, s: Supporter)
    ensures s in Matches(fetched, skills, timeSlots) <==> s in fetched && Requested(s, skills, timeSlots)
    ensures IsSubsequence(Matches(fetched, skills, timeSlots), fetched)
  {
    var afterSkills := if Truthy(skills) then Filter(fetched, HasAllSkills(Split(skills.value, ','))) else fetched;
    if Truthy(skills) {
      FilterIsSubsequence(fetched, HasAllSkills(Split(skills.value, ',')));
    } else {
      SubsequenceRefl(fetched);
    }
    if Truthy(timeSlots) {
      FilterIsSubsequence(afterSkills, HasAllSlots(Split(timeSlots.value, ',')));
      SubsequenceTrans(Matches(fetched, skills, timeSlots), afterSkills, fetched);
    }
  }

  /** With neither parameter set both filters are skipped, and every
      fetched supporter is returned. */
  lemma NoParametersKeepsAll(fetched: seq<Supporter>, skills: Option<string>, timeSlots: Option<string>)
    requires !Truthy(skills) && !Truthy(timeSlots)
    ensures Matches(fetched, skills, timeSlots) == fetched
  {
  }

  // ------------------------------------------------- completed counts

  /** `.from('activity_statuses').select('id').eq('name', name).single()`:
      the id when exactly one row has that name. */
  function SingleId(statuses: seq<ActivityStatus>, name: string): (r: Option<string>)
    ensures r.Some? <==> |Filter(statuses, (st: ActivityStatus) => st.name == name)| == 1
    ensures r.Some? ==> exists i | 0 <= i < |statuses| :: statuses[i].name == name && statuses[i].id == r.value
  {
    var rows := Filter(statuses, (st: ActivityStatus) => st.name == name);
    if |rows| == 1 then Some(rows[0].id) else None
  }

  /** The activities of `supporterId` whose status is `statusId`. */
  function CompletedOf(activities: seq<Activity>, supporterId: string, statusId: string): seq<Activity>
  {
    Filter(activities, (a: Activity) => a.supporterId == supporterId && a.statusId == statusId)
  }

  /** The `count: 'exact'` query. Without a 完了 status the id sent is `''`,
      which the uuid column rejects, so the count is missing; so it is when
      the query fails. */
  function CountQuery(activities: seq<Activity>, supporterId: string, completedId: Option<string>, failed: bool): Option<nat>
  {
    if completedId.None? || failed then None
    else Some(|CompletedOf(activities, supporterId, completedId.value)|)
  }

  /** `count || 0` */
  function CountOrZero(count: Option<nat>): (n: nat)
    ensures count.Some? ==> n == count.value
    ensures count.None? ==> n == 0
  {
    if count.Some? then count.value else 0
  }

  /** `{ ...supporter, completed_activities }` */
  datatype MatchingSupporter = MatchingSupporter(supporter: Supporter, completedActivities: nat)

  /** One supporter with its completed-activity count. */
  function Annotated(s: Supporter, statuses: seq<ActivityStatus>, activities: seq<Activity>, countFails: string -> bool): (m: MatchingSupporter)
    ensures m.supporter == s
    ensures m.completedActivities == CountOrZero(CountQuery(activities, s.id, SingleId(statuses, "完了"), countFails(s.id)))
  {
    MatchingSupporter(s, CountOrZero(CountQuery(activities, s.id, SingleId(statuses, "完了"), countFails(s.id))))
  }

  /** `getMatchingSupporters`: fetch the eligible supporters, apply the
      skill and time-slot filters in turn, then annotate each survivor with
      its completed-activity count. A failed fetch yields the empty list. */
  method GetMatchingSupporters(table: seq<Supporter>, statuses: seq<ActivityStatus>, activities: seq<Activity>,
                               params: SearchParams, fetchFails: bool, countFails: string -> bool)
    returns (r: seq<MatchingSupporter>)
    ensures fetchFails ==> r == []
    ensures !fetchFails ==>
      var m := Matches(Filter(table, Eligible), params.skills, params.timeSlots);
      && |r| == |m|
      && forall i :: 0 <= i < |r| ==>
        && r[i].supporter == m[i]
        && r[i].completedActivities
           == CountOrZero(CountQuery(activities, m[i].id, SingleId(statuses, "完了"), countFails(m[i].id)))
  {
    if fetchFails {
      return [];
    }
    var filteredData := Filter(table, Eligible);
    if Truthy(params.skills) {
      var selectedSkills := Split(params.skills.value, ',');
      filteredData := Filter(filteredData, HasAllSkills(selectedSkills));
    }
    if Truthy(params.timeSlots) {
      var selectedTimeSlots := Split(params.timeSlots.value, ',');
      filteredData := Filter(filteredData, HasAllSlots(selectedTimeSlots));
    }
    r := WithCompletedCounts(filteredData, statuses, activities, countFails);
  }

  /** `Promise.all(filteredData.map(...))`: each supporter, in order, with
      its completed-activity count. */
  method WithCompletedCounts(supporters: seq<Supporter>, statuses: seq<ActivityStatus>, activities: seq<Activity>,
                             countFails: string -> bool)
    returns (r: seq<MatchingSupporter>)
    ensures |r| == |supporters|
    ensures forall j :: 0 <= j < |r| ==> r[j] == Annotated(supporters[j], statuses, activities, countFails)
  {
    r := [];
    var i := 0;
    while i < |supporters|
      invariant 0 <= i <= |supporters| && |r| == i
      invariant forall j :: 0 <= j < i ==> r[j] == Annotated(supporters[j], statuses, activities, countFails)
    {
      var supporter := supporters[i];
      var completedStatus := SingleId(statuses, "完了");
      var count := CountQuery(activities, supporter.id, completedStatus, countFails(supporter.id));
      r := r + [MatchingSupporter(supporter, CountOrZero(count))];
      i := i + 1;
    }
  }

  /** Every returned supporter is status-eligible and has every requested
      skill and time slot; its count is at most its number of activities,
      and it is 0 when the 完了 status cannot be looked up. */
  lemma ResultFacts(table: seq<Supporter>, statuses: seq<ActivityStatus>, activities: seq<Activity>,
                    params: SearchParams, countFails: string -> bool, i: int)
    requires var m := Matches(Filter(table, Eligible), params.skills, params.timeSlots); 0 <= i < |m|
    ensures var m := Matches(Filter(table, Eligible), params.skills, params.timeSlots);
      var n := CountOrZero(CountQuery(activities, m[i].id, SingleId(statuses, "完了"), countFails(m[i].id)));
      && m[i] in table && Eligible(m[i]) && Requested(m[i], params.skills, params.timeSlots)
      && n <= |Filter(activities, (a: Activity) => a.supporterId == m[i].id)|
      && (SingleId(statuses, "完了").None? ==> n == 0)
  {
    var m := Matches(Filter(table, Eligible), params.skills, params.timeSlots);
    MatchesMeaning(Filter(table, Eligible), params.skills, params.timeSlots, m[i]);
    var id := SingleId(statuses, "完了");
    if id.Some? {
      FilterFilter(activities, (a: Activity) => a.supporterId == m[i].id, (a: Activity) => a.statusId == id.value,
                   (a: Activity) => a.supporterId == m[i].id && a.statusId == id.value);
    }
  }

  // --------------------------------------------------------- the page

  /** `hasFilters = searchParams.skills || searchParams.time_slots` */
  predicate HasFilters(params: SearchParams)
  {
    Truthy(params.skills) || Truthy(params.timeSlots)
  }

  /** What the results area shows. */
  datatype Results = SelectPrompt | NoMatches | Cards(items: seq<MatchingSupporter>)

  function ResultsView(params: SearchParams, supporters: seq<MatchingSupporter>): (v: Results)
    ensures v.SelectPrompt? <==> !HasFilters(params)
    ensures v.NoMatches? <==> HasFilters(params) && supporters == []
    ensures v == Cards(supporters) <==> HasFilters(params) && supporters != []
    ensures v.Cards? ==> v.items == supporters
  {
    if !HasFilters(params) then SelectPrompt
    else if supporters == [] then NoMatches
    else Cards(supporters)
  }

  /** `検索結果 (n件)` */
  function Heading(supporters: seq<MatchingSupporter>): string
  {
    "検索結果 (" + NatToString(|supporters|) + "件)"
  }

  /** With no parameter the function still returns every eligible
      supporter: the page hides them behind the prompt, while the heading
      counts them all. */
  lemma NoFiltersPage(table: seq<Supporter>, statuses: seq<ActivityStatus>, activities: seq<Activity>,
                      params: SearchParams, countFails: string -> bool, r: seq<MatchingSupporter>)
    requires !HasFilters(params)
    requires |r| == |Matches(Filter(table, Eligible), params.skills, params.timeSlots)|
    ensures |r| == |Filter(table, Eligible)|
    ensures ResultsView(params, r) == SelectPrompt
    ensures Heading(r) == "検索結果 (" + NatToString(|Filter(table, Eligible)|) + "件)"
  {
    NoParametersKeepsAll(Filter(table, Eligible), params.skills, params.timeSlots);
  }
}
