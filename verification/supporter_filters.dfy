/** `components/supporter-filters.tsx`: the filter panel of the supporter
    list (name search, status, area, skill). */
module SupporterFilters {
  import opened Wrappers
  import opened Strings
  import opened UrlUtils
  import opened PageProps

  /** `hasFilters` over the four field values. */
  predicate HasFiltersOf(search: string, status: string, area: string, skill: string)
  {
    || Trim(search) != ""
    || (status != "" && status != "all")
    || (area != "" && area != "all")
    || (skill != "" && skill != "all")
  }

  /** The record `updateFilters` hands to `updateUrlWithParams`; the search
      is passed trimmed but never as `undefined`. */
  function SupporterParams(search: string, status: string, area: string, skill: string): Params
  {
    [("search", Trimmed(search)),
     ("status", UnlessAll(status)),
     ("area", UnlessAll(area)),
     ("skill", UnlessAll(skill))]
  }

  function SupporterUrl(search: string, status: string, area: string, skill: string): string
  {
    UpdateUrlWithParams("/supporters", SupporterParams(search, status, area, skill))
  }

  /** Without an active filter the panel pushes the bare `/supporters`. */
  lemma NoFiltersUrl(search: string, status: string, area: string, skill: string)
    requires !HasFiltersOf(search, status, area, skill)
    ensures SupporterUrl(search, status, area, skill) == "/supporters"
  {
    QueryStringEmpty(SupporterParams(search, status, area, skill));
  }

  lemma DefaultsUrl()
    ensures !HasFiltersOf("", "all", "all", "all")
    ensures SupporterUrl("", "all", "all", "all") == "/supporters"
  {
    NoFiltersUrl("", "all", "all", "all");
  }

  /** A name search for the word `all` counts as a filter for the panel,
      yet the URL drops it, so the list is not narrowed. */
  lemma SearchAllDropped(search: string)
    requires Trim(search) == "all"
    ensures HasFiltersOf(search, "all", "all", "all")
    ensures SupporterUrl(search, "all", "all", "all") == "/supporters"
  {
    var ps := SupporterParams(search, "all", "all", "all");
    assert !IsWritten(ps[0].1) && !IsWritten(ps[1].1) && !IsWritten(ps[2].1) && !IsWritten(ps[3].1);
    BareUrl("/supporters", ps);
  }

  /** The supporter list reads back the trimmed search and each select
      whenever the value is written, and never a time-slot filter: this
      panel has no time-slot field. */
  lemma PanelReadBack(search: string, status: string, area: string, skill: string)
    ensures var p := ParseSearchParams(RecordOfUrl(SupporterUrl(search, status, area, skill)));
      && p.search == (if IsWritten(Some(Trim(search))) then Some(Trim(search)) else None)
      && p.status == (if IsWritten(Some(status)) then Some(status) else None)
      && p.area == (if IsWritten(Some(area)) then Some(area) else None)
      && p.skill == (if IsWritten(Some(skill)) then Some(skill) else None)
      && p.timeSlot == None
  {
    ReadBackTrimmed(Trim(search), status, area, skill);
  }

  /** `PanelReadBack` for an already trimmed search text `t`. */
  lemma ReadBackTrimmed(t: string, status: string, area: string, skill: string)
    ensures var ps := [("search", Some(t)), ("status", UnlessAll(status)), ("area", UnlessAll(area)), ("skill", UnlessAll(skill))];
      var p := ParseSearchParams(RecordOfUrl(UpdateUrlWithParams("/supporters", ps)));
      && p.search == (if IsWritten(Some(t)) then Some(t) else None)
      && p.status == (if IsWritten(Some(status)) then Some(status) else None)
      && p.area == (if IsWritten(Some(area)) then Some(area) else None)
      && p.skill == (if IsWritten(Some(skill)) then Some(skill) else None)
      && p.timeSlot == None
  {
    var ps := [("search", Some(t)), ("status", UnlessAll(status)), ("area", UnlessAll(area)), ("skill", UnlessAll(skill))];
    assert DistinctKeys(ps);
    ReadBackEntry("/supporters", ps, 0);
    ReadBackEntry("/supporters", ps, 1);
    ReadBackEntry("/supporters", ps, 2);
    ReadBackEntry("/supporters", ps, 3);
    ReadBackAbsent("/supporters", ps, "time_slot");
  }

  /** The panel's state and the URLs it pushed. */
  class SupporterFilterPanel {
    var search: string
    var status: string
    var area: string
    var skill: string
    var pushed: seq<string>

    /** Each field from its parameter, or `''` / `'all'`. */
    constructor (initial: SearchParams)
      ensures search == OrDefault(initial.search, "")
      ensures status == OrDefault(initial.status, "all")
      ensures area == OrDefault(initial.area, "all")
      ensures skill == OrDefault(initial.skill, "all")
      ensures pushed == []
    {
      search := OrDefault(initial.search, "");
      status := OrDefault(initial.status, "all");
      area := OrDefault(initial.area, "all");
      skill := OrDefault(initial.skill, "all");
      pushed := [];
    }

    function HasFilters(): bool
      reads this
    {
      HasFiltersOf(search, status, area, skill)
    }

    method SetSearch(v: string)
      modifies this
      ensures search == v && unchanged(this`status, this`area, this`skill, this`pushed)
    {
      search := v;
    }

    method SetStatus(v: string)
      modifies this
      ensures status == v && unchanged(this`search, this`area, this`skill, this`pushed)
    {
      status := v;
    }

    method SetArea(v: string)
      modifies this
      ensures area == v && unchanged(this`search, this`status, this`skill, this`pushed)
    {
      area := v;
    }

    method SetSkill(v: string)
      modifies this
      ensures skill == v && unchanged(this`search, this`status, this`area, this`pushed)
    {
      skill := v;
    }

    /** `updateFilters` */
    method UpdateFilters()
      modifies this`pushed
      ensures pushed == old(pushed) + [SupporterUrl(search, status, area, skill)]
    {
      pushed := pushed + [SupporterUrl(search, status, area, skill)];
    }

    /** `clearFilters` */
    method ClearFilters()
      modifies this
      ensures search == "" && status == "all" && area == "all" && skill == "all"
      ensures pushed == old(pushed) + ["/supporters"]
      ensures !HasFilters()
    {
      search := "";
      status := "all";
      area := "all";
      skill := "all";
      pushed := pushed + ["/supporters"];
    }
  }
}
