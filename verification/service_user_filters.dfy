/** `components/service-user-filters.tsx`: the filter panel of the service
    user list (name search and area). */
module ServiceUserFilters {
  import opened Wrappers
  import opened Strings
  import opened UrlUtils
  import opened PageProps

  /** `hasFilters` over the two field values. */
  predicate HasFiltersOf(search: string, area: string)
  {
    Trim(search) != "" || (area != "" && area != "all")
  }

  /** The record `updateFilters` hands to `updateUrlWithParams`. */
  function ServiceUserParams(search: string, area: string): Params
  {
    [("search", Trimmed(search)), ("area", UnlessAll(area))]
  }

  function ServiceUserUrl(search: string, area: string): string
  {
    UpdateUrlWithParams("/service-users", ServiceUserParams(search, area))
  }

  /** Without an active filter the panel pushes the bare `/service-users`. */
  lemma NoFiltersUrl(search: string, area: string)
    requires !HasFiltersOf(search, area)
    ensures ServiceUserUrl(search, area) == "/service-users"
  {
    assert Trim(search) == "" <==> AllWhitespace(search);
    QueryStringEmpty(ServiceUserParams(search, area));
  }

  lemma DefaultsUrl()
    ensures !HasFiltersOf("", "all")
    ensures ServiceUserUrl("", "all") == "/service-users"
  {
    NoFiltersUrl("", "all");
  }

  /** The service user list reads back the trimmed search and the area
      whenever the value is written. */
  lemma PanelReadBack(search: string, area: string)
    ensures var p := ParseSearchParams(RecordOfUrl(ServiceUserUrl(search, area)));
      && p.search == (if IsWritten(Some(Trim(search))) then Some(Trim(search)) else None)
      && p.area == (if IsWritten(Some(area)) then Some(area) else None)
  {
    ReadBackTrimmed(Trim(search), area);
  }

  /** `PanelReadBack` for an already trimmed search text `t`. */
  lemma ReadBackTrimmed(t: string, area: string)
    ensures var p := ParseSearchParams(RecordOfUrl(UpdateUrlWithParams("/service-users", [("search", Some(t)), ("area", UnlessAll(area))])));
      && p.search == (if IsWritten(Some(t)) then Some(t) else None)
      && p.area == (if IsWritten(Some(area)) then Some(area) else None)
  {
    var ps := [("search", Some(t)), ("area", UnlessAll(area))];
    assert DistinctKeys(ps);
    ReadBackEntry("/service-users", ps, 0);
    ReadBackEntry("/service-users", ps, 1);
  }

  /** The panel's state and the URLs it pushed. */
  class ServiceUserFilterPanel {
    var search: string
    var area: string
    var pushed: seq<string>

    constructor (initial: SearchParams)
      ensures search == OrDefault(initial.search, "")
      ensures area == OrDefault(initial.area, "all")
      ensures pushed == []
    {
      search := OrDefault(initial.search, "");
      area := OrDefault(initial.area, "all");
      pushed := [];
    }

    function HasFilters(): bool
      reads this
    {
      HasFiltersOf(search, area)
    }

    method SetSearch(v: string)
      modifies this
      ensures search == v && unchanged(this`area, this`pushed)
    {
      search := v;
    }

    method SetArea(v: string)
      modifies this
      ensures area == v && unchanged(this`search, this`pushed)
    {
      area := v;
    }

    /** `updateFilters` */
    method UpdateFilters()
      modifies this`pushed
      ensures pushed == old(pushed) + [ServiceUserUrl(search, area)]
    {
      pushed := pushed + [ServiceUserUrl(search, area)];
    }

    /** `clearFilters` */
    method ClearFilters()
      modifies this
      ensures search == "" && area == "all"
      ensures pushed == old(pushed) + ["/service-users"]
      ensures !HasFilters()
    {
      search := "";
      area := "all";
      pushed := pushed + ["/service-users"];
    }
  }
}
