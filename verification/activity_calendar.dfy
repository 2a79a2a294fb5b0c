/** `components/activity-calendar.tsx`: activities grouped by their date
    key, the grid cells that look those groups up, and the month buttons
    that move the calendar and rewrite the `month` and `view` parameters of
    the current URL. */
module ActivityCalendar {
  import opened Seqs
  import opened Dates
  import opened CalendarUtils
  import opened FormUrlEncoded
  import opened Entities
  import opened Grouping

  /** `format(new Date(activity.activity_date), "yyyy-MM-dd")` */
  function KeyOf(a: Activity): string
  {
    DateKey(a.activityDate)
  }

  /** `activitiesByDate`: the activities grouped by date key. Every
      activity is in the bucket of its own date, buckets keep input order,
      no bucket is empty, and the bucket sizes add up to the number of
      activities. */
  method ActivitiesByDate(acts: seq<Activity>) returns (keys: seq<string>, buckets: map<string, seq<Activity>>)
    ensures GroupedBy(acts, KeyOf, keys, buckets)
    ensures forall i :: 0 <= i < |acts| ==> KeyOf(acts[i]) in buckets && acts[i] in buckets[KeyOf(acts[i])]
    ensures SumSizes(keys, buckets) == |acts|
  {
    keys, buckets := GroupBy(acts, KeyOf);
    GroupedMembers(acts, KeyOf, keys, buckets);
  }

  // ------------------------------------------------------------- cells

  /** `activitiesByDate.get(dateKey) || []` */
  function CellActivities(buckets: map<string, seq<Activity>>, day: Date): seq<Activity>
    requires ValidDate(day)
  {
    if DateKey(day) in buckets then buckets[DateKey(day)] else []
  }

  /** A cell gets exactly the activities dated on its day, in input order,
      and the empty list when there are none. */
  lemma CellLookup(acts: seq<Activity>, keys: seq<string>, buckets: map<string, seq<Activity>>, day: Date)
    requires GroupedBy(acts, KeyOf, keys, buckets) && ValidDate(day)
    ensures CellActivities(buckets, day) == Filter(acts, HasKey(KeyOf, DateKey(day)))
    ensures CellActivities(buckets, day) == [] <==> forall j :: 0 <= j < |acts| ==> KeyOf(acts[j]) != DateKey(day)
    ensures IsSubsequence(CellActivities(buckets, day), acts)
  {
    var k := DateKey(day);
    FilterIsSubsequence(acts, HasKey(KeyOf, k));
    if k !in buckets {
      FilterNone(acts, HasKey(KeyOf, k));
    } else {
      var j :| 0 <= j < |acts| && KeyOf(acts[j]) == k;
    }
  }

  /** One rendered grid cell. */
  datatype Cell = Cell(date: Date, activities: seq<Activity>, isCurrentMonth: bool)

  /** The cells of the calendar for `currentDate`, one per grid day. */
  function Cells(currentDate: Date, buckets: map<string, seq<Activity>>): (r: seq<Cell>)
    requires ValidDate(currentDate)
    ensures var g := GetCalendarDays(currentDate);
      && |r| == |g|
      && forall i :: 0 <= i < |r| ==> r[i].date == g[i]
  {
    var g := GetCalendarDays(currentDate);
    seq(|g|, i requires 0 <= i < |g| =>
      Cell(g[i], CellActivities(buckets, g[i]), IsSameMonth(g[i], currentDate)))
  }

  /** There is one cell per grid day; a cell is flagged as in the current
      month exactly when it lies in the run of that month's days, and holds
      the activities of its own date. */
  lemma CellsFacts(acts: seq<Activity>, keys: seq<string>, buckets: map<string, seq<Activity>>, currentDate: Date, i: int)
    requires GroupedBy(acts, KeyOf, keys, buckets) && ValidDate(currentDate)
    requires 0 <= i < |Cells(currentDate, buckets)|
    ensures var c := Cells(currentDate, buckets)[i];
      && (c.isCurrentMonth <==> Lead(currentDate) <= i < Lead(currentDate) + DaysInMonth(currentDate.year, currentDate.month))
      && c.activities == Filter(acts, HasKey(KeyOf, DateKey(c.date)))
  {
    var g := GetCalendarDays(currentDate);
    GridMonthFlag(currentDate, i);
    CellLookup(acts, keys, buckets, g[i]);
  }

  // ---------------------------------------------------- month buttons

  /** The pairs of the URL after `updateMonthInUrl(d)`. */
  function MonthUrlPairs(entries: Pairs, d: Date): Pairs
    requires ValidDate(d)
  {
    SetPair(SetPair(entries, "month", DateKey(d)), "view", "calendar")
  }

  /** The new URL carries exactly one `month`, the new date's key, and one
      `view=calendar`; every other parameter keeps its values and order, and
      the query string parses back to those pairs. */
  lemma MonthUrlEffect(entries: Pairs, d: Date, other: string)
    requires ValidDate(d)
    ensures Named(MonthUrlPairs(entries, d), "month") == [("month", DateKey(d))]
    ensures Named(MonthUrlPairs(entries, d), "view") == [("view", "calendar")]
    ensures other != "month" && other != "view" ==> Named(MonthUrlPairs(entries, d), other) == Named(entries, other)
    ensures ParseQuery(Serialize(MonthUrlPairs(entries, d))) == MonthUrlPairs(entries, d)
  {
    var l1 := SetPair(entries, "month", DateKey(d));
    SetPairEffect(entries, "month", DateKey(d), "view");
    SetPairEffect(entries, "month", DateKey(d), other);
    SetPairEffect(l1, "view", "calendar", "month");
    SetPairEffect(l1, "view", "calendar", other);
    SerializeRoundTrip(MonthUrlPairs(entries, d));
  }

  /** The calendar component: the month on show, the current URL's
      parameters, and the URLs pushed onto the router. */
  class Calendar {
    var currentDate: CalDate
    var entries: Pairs
    var pushed: seq<string>

    constructor (initialMonth: CalDate, urlEntries: Pairs)
      ensures currentDate == initialMonth && entries == urlEntries && pushed == []
    {
      currentDate := initialMonth;
      entries := urlEntries;
      pushed := [];
    }

    /** `updateMonthInUrl`: copy the current parameters, set `month` and
        `view`, and push `/activities?` with the serialized result. */
    method UpdateMonthInUrl(newDate: CalDate)
      modifies this
      ensures currentDate == old(currentDate)
      ensures entries == MonthUrlPairs(old(entries), newDate)
      ensures pushed == old(pushed) + ["/activities?" + Serialize(entries)]
    {
      var newMonthString := DateKey(newDate);
      var current := new URLSearchParams.FromEntries(entries);
      current.Set("month", newMonthString);
      current.Set("view", "calendar");
      var query := current.ToString();
      pushed := pushed + ["/activities?" + query];
      entries := current.list;
    }

    /** `handlePreviousMonth` */
    method HandlePreviousMonth()
      modifies this
      ensures currentDate == GetPreviousMonth(old(currentDate))
      ensures entries == MonthUrlPairs(old(entries), currentDate)
      ensures pushed == old(pushed) + ["/activities?" + Serialize(entries)]
    {
      var newDate := GetPreviousMonth(currentDate);
      currentDate := newDate;
      UpdateMonthInUrl(newDate);
    }

    /** `handleNextMonth` */
    method HandleNextMonth()
      modifies this
      ensures currentDate == GetNextMonth(old(currentDate))
      ensures entries == MonthUrlPairs(old(entries), currentDate)
      ensures pushed == old(pushed) + ["/activities?" + Serialize(entries)]
    {
      var newDate := GetNextMonth(currentDate);
      currentDate := newDate;
      UpdateMonthInUrl(newDate);
    }
  }
}
