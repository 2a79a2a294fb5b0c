/** `components/activity-filters.tsx`: the filter panel of the activity
    list. Six fields start from the URL, `updateFilters` writes them back
    and `clearFilters` resets them. */
module ActivityFilters {
  import opened Wrappers
  import opened Strings
  import opened UrlUtils
  import opened PageProps

  /** `hasFilters` over the six field values. */
  predicate HasFiltersOf(search: string, supporter: string, serviceUser: string, status: string,
                         dateFrom: string, dateTo: string)
  {
    || Trim(search) != ""
    || (supporter != "" && supporter != "all")
    || (serviceUser != "" && serviceUser != "all")
    || (status != "" && status != "all")
    || dateFrom != ""
    || dateTo != ""
  }

  /** The record `updateFilters` hands to `updateUrlWithParams`. */
  function ActivityParams(search: string, supporter: string, serviceUser: string, status: string,
                          dateFrom: string, dateTo: string): Params
  {
    [("search", UnlessEmpty(Trim(search))),
     ("supporter", UnlessAll(supporter)),
     ("service_user", UnlessAll(serviceUser)),
     ("status", UnlessAll(status)),
     ("date_from", UnlessEmpty(dateFrom)),
     ("date_to", UnlessEmpty(dateTo))]
  }

  function ActivityUrl(search: string, supporter: string, serviceUser: string, status: string,
                       dateFrom: string, dateTo: string): string
  {
    UpdateUrlWithParams("/activities", ActivityParams(search, supporter, serviceUser, status, dateFrom, dateTo))
  }

  /** Without an active filter nothing is written, so the panel pushes the
      bare `/activities`; in particular with every field at its default. */
  lemma NoFiltersUrl(search: string, supporter: string, serviceUser: string, status: string,
                     dateFrom: string, dateTo: string)
    requires !HasFiltersOf(search, supporter, serviceUser, status, dateFrom, dateTo)
    ensures ActivityUrl(search, supporter, serviceUser, status, dateFrom, dateTo) == "/activities"
  {
    var ps := ActivityParams(search, supporter, serviceUser, status, dateFrom, dateTo);
    QueryStringEmpty(ps);
  }

  lemma DefaultsUrl()
    ensures !HasFiltersOf("", "all", "all", "all", "", "")
    ensures ActivityUrl("", "all", "all", "all", "", "") == "/activities"
  {
    NoFiltersUrl("", "all", "all", "all", "", "");
  }

  /** The activity list reads back the trimmed search, each select other
      than `"all"` and each date, whenever the value is written at all. */
  lemma PanelReadBack(search: string, supporter: string, serviceUser: string, status: string,
                      dateFrom: string, dateTo: string)
    ensures var p := ParseSearchParams(RecordOfUrl(ActivityUrl(search, supporter, serviceUser, status, dateFrom, dateTo)));
      && p.search == (if IsWritten(Some(Trim(search))) then Some(Trim(search)) else None)
      && p.supporter == (if IsWritten(Some(supporter)) then Some(supporter) else None)
      && p.serviceUser == (if IsWritten(Some(serviceUser)) then Some(serviceUser) else None)
      && p.status == (if IsWritten(Some(status)) then Some(status) else None)
      && p.dateFrom == (if IsWritten(Some(dateFrom)) then Some(dateFrom) else None)
      && p.dateTo == (if IsWritten(Some(dateTo)) then Some(dateTo) else None)
  {
    ReadBackTrimmed(Trim(search), supporter, serviceUser, status, dateFrom, dateTo);
  }

  /** `PanelReadBack` for an already trimmed search text `t`. */
  lemma ReadBackTrimmed(t: string, supporter: string, serviceUser: string, status: string,
                        dateFrom: string, dateTo: string)
    ensures var ps := [("search", UnlessEmpty(t)), ("supporter", UnlessAll(supporter)),
                       ("service_user", UnlessAll(serviceUser)), ("status", UnlessAll(status)),
                       ("date_from", UnlessEmpty(dateFrom)), ("date_to", UnlessEmpty(dateTo))];
      var p := ParseSearchParams(RecordOfUrl(UpdateUrlWithParams("/activities", ps)));
      && p.search == (if IsWritten(Some(t)) then Some(t) else None)
      && p.supporter == (if IsWritten(Some(supporter)) then Some(supporter) else None)
      && p.serviceUser == (if IsWritten(Some(serviceUser)) then Some(serviceUser) else None)
      && p.status == (if IsWritten(Some(status)) then Some(status) else None)
      && p.dateFrom == (if IsWritten(Some(dateFrom)) then Some(dateFrom) else None)
      && p.dateTo == (if IsWritten(Some(dateTo)) then Some(dateTo) else None)
  {
    var ps := [("search", UnlessEmpty(t)), ("supporter", UnlessAll(supporter)),
               ("service_user", UnlessAll(serviceUser)), ("status", UnlessAll(status)),
               ("date_from", UnlessEmpty(dateFrom)), ("date_to", UnlessEmpty(dateTo))];
    assert DistinctKeys(ps);
    ReadBackEntry("/activities", ps, 0);
    ReadBackEntry("/activities", ps, 1);
    ReadBackEntry("/activities", ps, 2);
    ReadBackEntry("/activities", ps, 3);
    ReadBackEntry("/activities", ps, 4);
    ReadBackEntry("/activities", ps, 5);
  }

  /** The panel's state and the URLs it pushed. */
  class ActivityFilterPanel {
    var search: string
    var supporter: string
    var serviceUser: string
    var status: string
    var dateFrom: string
    var dateTo: string
    var pushed: seq<string>

    /** Each field from its parameter, or `""` / `"all"`. */
    constructor (initial: SearchParams)
      ensures search == OrDefault(initial.search, "")
      ensures supporter == OrDefault(initial.supporter, "all")
      ensures serviceUser == OrDefault(initial.serviceUser, "all")
      ensures status == OrDefault(initial.status, "all")
      ensures dateFrom == OrDefault(initial.dateFrom, "")
      ensures dateTo == OrDefault(initial.dateTo, "")
      ensures pushed == []
    {
      search := OrDefault(initial.search, "");
      supporter := OrDefault(initial.supporter, "all");
      serviceUser := OrDefault(initial.serviceUser, "all");
      status := OrDefault(initial.status, "all");
      dateFrom := OrDefault(initial.dateFrom, "");
      dateTo := OrDefault(initial.dateTo, "");
      pushed := [];
    }

    function HasFilters(): bool
      reads this
    {
      HasFiltersOf(search, supporter, serviceUser, status, dateFrom, dateTo)
    }

    method SetSearch(v: string)
      modifies this
      ensures search == v && unchanged(this`supporter, this`serviceUser, this`status, this`dateFrom, this`dateTo, this`pushed)
    {
      search := v;
    }

    method SetSupporter(v: string)
      modifies this
      ensures supporter == v && unchanged(this`search, this`serviceUser, this`status, this`dateFrom, this`dateTo, this`pushed)
    {
      supporter := v;
    }

    method SetServiceUser(v: string)
      modifies this
      ensures serviceUser == v && unchanged(this`search, this`supporter, this`status, this`dateFrom, this`dateTo, this`pushed)
    {
      serviceUser := v;
    }

    method SetStatus(v: string)
      modifies this
      ensures status == v && unchanged(this`search, this`supporter, this`serviceUser, this`dateFrom, this`dateTo, this`pushed)
    {
      status := v;
    }

    method SetDateFrom(v: string)
      modifies this
      ensures dateFrom == v && unchanged(this`search, this`supporter, this`serviceUser, this`status, this`dateTo, this`pushed)
    {
      dateFrom := v;
    }

    method SetDateTo(v: string)
      modifies this
      ensures dateTo == v && unchanged(this`search, this`supporter, this`serviceUser, this`status, this`dateFrom, this`pushed)
    {
      dateTo := v;
    }

    /** `updateFilters`: push the URL of the current fields. */
    method UpdateFilters()
      modifies this`pushed
      ensures pushed == old(pushed) + [ActivityUrl(search, supporter, serviceUser, status, dateFrom, dateTo)]
    {
      pushed := pushed + [ActivityUrl(search, supporter, serviceUser, status, dateFrom, dateTo)];
    }

    /** `clearFilters`: every field back to its default, then `/activities`. */
    method ClearFilters()
      modifies this
      ensures search == "" && supporter == "all" && serviceUser == "all" && status == "all"
      ensures dateFrom == "" && dateTo == ""
      ensures pushed == old(pushed) + ["/activities"]
      ensures !HasFilters()
    {
      search := "";
      supporter := "all";
      serviceUser := "all";
      status := "all";
      dateFrom := "";
      dateTo := "";
      pushed := pushed + ["/activities"];
    }
  }
}
