/** `app/activities/page.tsx`: the activity list. `getActivities` adds one
    store condition per narrowing parameter, asks for the rows newest first,
    and then keeps the rows whose related names contain the search text; the
    page picks the list or the calendar view, and in calendar mode asks only
    for the shown month. */
module ActivitiesPage {
  import opened Wrappers
  import opened Seqs
  import opened Strings
  import opened Dates
  import opened PageProps
  import opened Entities
  import opened Store

  /** One `eq`, `gte` or `lte` call on the query. */
  datatype Condition =
    | SupporterIs(id: string)
    | ServiceUserIs(id: string)
    | StatusIs(id: string)
    | DateFrom(bound: string)
    | DateTo(bound: string)

  /** The day an activity is ordered and bounded by. */
  function Day(a: Activity): int
  {
    DayNumber(a.activityDate)
  }

  /** Whether the store can read a date bound. The model reads a bound
      only in the `yyyy-MM-dd` form the panel's date inputs produce; any
      other text is an error for the whole query. */
  predicate Readable(c: Condition)
  {
    (c.DateFrom? || c.DateTo?) ==> ParseDateKey(c.bound).Some?
  }

  predicate OnOrAfter(a: Activity, bound: string)
  {
    ParseDateKey(bound).Some? && Day(a) >= DayNumber(ParseDateKey(bound).value)
  }

  predicate OnOrBefore(a: Activity, bound: string)
  {
    ParseDateKey(bound).Some? && Day(a) <= DayNumber(ParseDateKey(bound).value)
  }

  /** Whether a row satisfies one condition. */
  predicate Holds(c: Condition, a: Activity)
  {
    match c
    case SupporterIs(id) => a.supporterId == id
    case ServiceUserIs(id) => a.serviceUserId == id
    case StatusIs(id) => a.statusId == id
    case DateFrom(b) => OnOrAfter(a, b)
    case DateTo(b) => OnOrBefore(a, b)
  }

  predicate HoldsAll(query: seq<Condition>, a: Activity)
  {
    forall i | 0 <= i < |query| :: Holds(query[i], a)
  }

  /** The store's answer to a query ordered by `activity_date` descending:
      `None` for an error. */
  function RunQuery(table: seq<Activity>, query: seq<Condition>, fails: bool): Option<seq<Activity>>
  {
    if fails || !AllReadable(query) then None
    else Some(SortDesc(Filter(table, (a: Activity) => HoldsAll(query, a)), Day))
  }

  // ------------------------------------------------ what is asked for

  /** Both date parameters, when given, are dates the store can read. */
  predicate BoundsReadable(p: SearchParams)
  {
    && (Truthy(p.dateFrom) ==> ParseDateKey(p.dateFrom.value).Some?)
    && (Truthy(p.dateTo) ==> ParseDateKey(p.dateTo.value).Some?)
  }

  /** What the store conditions ask of a row: each id other than `"all"`
      matches, and the date lies within both given bounds, inclusive. */
  predicate StoreKeeps(p: SearchParams, a: Activity)
  {
    && (Narrows(p.supporter) ==> a.supporterId == p.supporter.value)
    && (Narrows(p.serviceUser) ==> a.serviceUserId == p.serviceUser.value)
    && (Narrows(p.status) ==> a.statusId == p.status.value)
    && (Truthy(p.dateFrom) ==> OnOrAfter(a, p.dateFrom.value))
    && (Truthy(p.dateTo) ==> OnOrBefore(a, p.dateTo.value))
  }

  /** The lower-cased search text `q` occurs in the lower-cased supporter,
      service user or skill name. */
  predicate NameMatches(a: Activity, q: string, lower: char -> char)
  {
    || Includes(Lower(a.supporterName, lower), q)
    || Includes(Lower(a.serviceUserName, lower), q)
    || Includes(Lower(a.skillName, lower), q)
  }

  /** The search post-filter: none without a search text. */
  predicate SearchKeeps(p: SearchParams, lower: char -> char, a: Activity)
  {
    Truthy(p.search) ==> NameMatches(a, Lower(p.search.value, lower), lower)
  }

  function Kept(p: SearchParams, lower: char -> char): Activity -> bool
  {
    a => StoreKeeps(p, a) && SearchKeeps(p, lower, a)
  }

  /** The rows the store returns for `p`, newest first. */
  function StoreRows(table: seq<Activity>, p: SearchParams): seq<Activity>
  {
    SortDesc(Filter(table, (a: Activity) => StoreKeeps(p, a)), Day)
  }

  /** What `getActivities(p)` promises of its result `r`: the empty list on
      any error; otherwise the store's rows minus those the search rejects,
      still newest first, and as a bag exactly the table rows that pass
      every condition and the search. */
  ghost predicate Answers(table: seq<Activity>, p: SearchParams, fails: bool, lower: char -> char, r: seq<Activity>)
  {
    if fails || !BoundsReadable(p) then r == []
    else
      && IsSubsequence(r, StoreRows(table, p))
      && (!Truthy(p.search) ==> r == StoreRows(table, p))
      && SortedDesc(r, Day)
      && multiset(r) == multiset(Filter(table, Kept(p, lower)))
  }

  // ---------------------------------------------------- getActivities

  predicate AllReadable(query: seq<Condition>)
  {
    forall i | 0 <= i < |query| :: Readable(query[i])
  }

  /** The condition `c` when `b` holds, else nothing. */
  function Optional(b: bool, c: Condition): seq<Condition>
  {
    if b then [c] else []
  }

  lemma ConcatHolds(x: seq<Condition>, y: seq<Condition>, a: Activity)
    ensures HoldsAll(x + y, a) <==> HoldsAll(x, a) && HoldsAll(y, a)
  {
    if HoldsAll(x, a) && HoldsAll(y, a) {
      forall i | 0 <= i < |x + y| ensures Holds((x + y)[i], a) {
        if i >= |x| {
          assert (x + y)[i] == y[i - |x|];
        }
      }
    }
    if HoldsAll(x + y, a) {
      forall i | 0 <= i < |y| ensures Holds(y[i], a) {
        assert (x + y)[|x| + i] == y[i];
      }
      forall i | 0 <= i < |x| ensures Holds(x[i], a) {
        assert (x + y)[i] == x[i];
      }
    }
  }

  lemma ConcatReadable(x: seq<Condition>, y: seq<Condition>)
    ensures AllReadable(x + y) <==> AllReadable(x) && AllReadable(y)
  {
    if AllReadable(x) && AllReadable(y) {
      forall i | 0 <= i < |x + y| ensures Readable((x + y)[i]) {
        if i >= |x| {
          assert (x + y)[i] == y[i - |x|];
        }
      }
    }
    if AllReadable(x + y) {
      forall i | 0 <= i < |y| ensures Readable(y[i]) {
        assert (x + y)[|x| + i] == y[i];
      }
      forall i | 0 <= i < |x| ensures Readable(x[i]) {
        assert (x + y)[i] == x[i];
      }
    }
  }

  lemma OptionalCondition(b: bool, c: Condition)
    ensures Optional(b, c) == if b then [c] else []
    ensures forall a :: HoldsAll(Optional(b, c), a) <==> (b ==> Holds(c, a))
    ensures AllReadable(Optional(b, c)) <==> (b ==> Readable(c))
  {
    if b {
      assert [c][0] == c;
    }
  }

  /** The query of the if-chain, as the five optional conditions in order. */
  function ExpectedQuery(p: SearchParams): seq<Condition>
  {
    Optional(Narrows(p.supporter), SupporterIs(OrDefault(p.supporter, "")))
    + Optional(Narrows(p.serviceUser), ServiceUserIs(OrDefault(p.serviceUser, "")))
    + Optional(Narrows(p.status), StatusIs(OrDefault(p.status, "")))
    + Optional(Truthy(p.dateFrom), DateFrom(OrDefault(p.dateFrom, "")))
    + Optional(Truthy(p.dateTo), DateTo(OrDefault(p.dateTo, "")))
  }

  /** A row passes that query exactly when it meets every store condition,
      and the store reads the query exactly when both bounds are dates. */
  lemma QueryMeaning(p: SearchParams)
    ensures forall a :: HoldsAll(ExpectedQuery(p), a) <==> StoreKeeps(p, a)
    ensures AllReadable(ExpectedQuery(p)) <==> BoundsReadable(p)
  {
    forall a ensures HoldsAll(ExpectedQuery(p), a) <==> StoreKeeps(p, a) {
      QueryHolds(p, a);
    }
    QueryReadable(p);
  }

  lemma QueryHolds(p: SearchParams, a: Activity)
    ensures HoldsAll(ExpectedQuery(p), a) <==> StoreKeeps(p, a)
  {
    var q1 := Optional(Narrows(p.supporter), SupporterIs(OrDefault(p.supporter, "")));
    var q2 := Optional(Narrows(p.serviceUser), ServiceUserIs(OrDefault(p.serviceUser, "")));
    var q3 := Optional(Narrows(p.status), StatusIs(OrDefault(p.status, "")));
    var q4 := Optional(Truthy(p.dateFrom), DateFrom(OrDefault(p.dateFrom, "")));
    var q5 := Optional(Truthy(p.dateTo), DateTo(OrDefault(p.dateTo, "")));
    OptionalCondition(Narrows(p.supporter), SupporterIs(OrDefault(p.supporter, "")));
    OptionalCondition(Narrows(p.serviceUser), ServiceUserIs(OrDefault(p.serviceUser, "")));
    OptionalCondition(Narrows(p.status), StatusIs(OrDefault(p.status, "")));
    OptionalCondition(Truthy(p.dateFrom), DateFrom(OrDefault(p.dateFrom, "")));
    OptionalCondition(Truthy(p.dateTo), DateTo(OrDefault(p.dateTo, "")));
    ConcatHolds(q1, q2, a);
    ConcatHolds(q1 + q2, q3, a);
    ConcatHolds(q1 + q2 + q3, q4, a);
    ConcatHolds(q1 + q2 + q3 + q4, q5, a);
  }

  lemma QueryReadable(p: SearchParams)
    ensures AllReadable(ExpectedQuery(p)) <==> BoundsReadable(p)
  {
    var q1 := Optional(Narrows(p.supporter), SupporterIs(OrDefault(p.supporter, "")));
    var q2 := Optional(Narrows(p.serviceUser), ServiceUserIs(OrDefault(p.serviceUser, "")));
    var q3 := Optional(Narrows(p.status), StatusIs(OrDefault(p.status, "")));
    var q4 := Optional(Truthy(p.dateFrom), DateFrom(OrDefault(p.dateFrom, "")));
    var q5 := Optional(Truthy(p.dateTo), DateTo(OrDefault(p.dateTo, "")));
    OptionalCondition(Narrows(p.supporter), SupporterIs(OrDefault(p.supporter, "")));
    OptionalCondition(Narrows(p.serviceUser), ServiceUserIs(OrDefault(p.serviceUser, "")));
    OptionalCondition(Narrows(p.status), StatusIs(OrDefault(p.status, "")));
    OptionalCondition(Truthy(p.dateFrom), DateFrom(OrDefault(p.dateFrom, "")));
    OptionalCondition(Truthy(p.dateTo), DateTo(OrDefault(p.dateTo, "")));
    ConcatReadable(q1, q2);
    ConcatReadable(q1 + q2, q3);
    ConcatReadable(q1 + q2 + q3, q4);
    ConcatReadable(q1 + q2 + q3 + q4, q5);
  }

  /** The if-chain that builds the query: one condition per narrowing
      parameter, in source order. */
  method BuildQuery(p: SearchParams) returns (query: seq<Condition>)
    ensures forall a :: HoldsAll(query, a) <==> StoreKeeps(p, a)
    ensures AllReadable(query) <==> BoundsReadable(p)
  {
    ghost var q1 := Optional(Narrows(p.supporter), SupporterIs(OrDefault(p.supporter, "")));
    ghost var q2 := Optional(Narrows(p.serviceUser), ServiceUserIs(OrDefault(p.serviceUser, "")));
    ghost var q3 := Optional(Narrows(p.status), StatusIs(OrDefault(p.status, "")));
    ghost var q4 := Optional(Truthy(p.dateFrom), DateFrom(OrDefault(p.dateFrom, "")));
    ghost var q5 := Optional(Truthy(p.dateTo), DateTo(OrDefault(p.dateTo, "")));
    query := [];
    if Narrows(p.supporter) {
      query := query + [SupporterIs(p.supporter.value)];
    }
    assert query == q1;
    if Narrows(p.serviceUser) {
      query := query + [ServiceUserIs(p.serviceUser.value)];
    }
    assert query == q1 + q2;
    if Narrows(p.status) {
      query := query + [StatusIs(p.status.value)];
    }
    assert query == q1 + q2 + q3;
    if Truthy(p.dateFrom) {
      query := query + [DateFrom(p.dateFrom.value)];
    }
    assert query == q1 + q2 + q3 + q4;
    if Truthy(p.dateTo) {
      query := query + [DateTo(p.dateTo.value)];
    }
    assert query == ExpectedQuery(p);
    QueryMeaning(p);
  }

  /** `getActivities`: query the store, then apply the name search. */
  method GetActivities(table: seq<Activity>, p: SearchParams, fails: bool, lower: char -> char)
    returns (r: seq<Activity>)
    ensures Answers(table, p, fails, lower, r)
  {
    var query := BuildQuery(p);
    var data := RunQuery(table, query, fails);
    if data.None? {
      return [];
    }
    assert data.value == StoreRows(table, p) by {
      assert Filter(table, (a: Activity) => HoldsAll(query, a)) == Filter(table, (a: Activity) => StoreKeeps(p, a)) by {
        FilterSame(table, (a: Activity) => HoldsAll(query, a), (a: Activity) => StoreKeeps(p, a));
      }
    }
    var filteredData := data.value;
    SubsequenceRefl(filteredData);
    if Truthy(p.search) {
      var searchLower := Lower(p.search.value, lower);
      filteredData := Filter(filteredData, (a: Activity) => NameMatches(a, searchLower, lower));
      FilterIsSubsequence(data.value, (a: Activity) => NameMatches(a, searchLower, lower));
      SortedAnswerFiltered(table, (a: Activity) => StoreKeeps(p, a), (a: Activity) => NameMatches(a, searchLower, lower),
                           Kept(p, lower), Day);
    } else {
      SortedAnswerFiltered(table, (a: Activity) => StoreKeeps(p, a), (a: Activity) => true, Kept(p, lower), Day);
      FilterAll(StoreRows(table, p), (a: Activity) => true);
    }
    r := filteredData;
  }

  /** A row is listed exactly when it is in the table, passes every store
      condition and passes the search. */
  lemma AnswerMembers(table: seq<Activity>, p: SearchParams, fails: bool, lower: char -> char, r: seq<Activity>, a: Activity)
    requires Answers(table, p, fails, lower, r) && !fails && BoundsReadable(p)
    ensures a in r <==> a in table && StoreKeeps(p, a) && SearchKeeps(p, lower, a)
  {
    assert a in r <==> a in multiset(r);
    var f := Filter(table, Kept(p, lower));
    assert a in f <==> a in multiset(f);
  }

  // ------------------------------------------------------------ the page

  datatype View = ListView | CalendarView

  /** `viewMode` */
  function ViewOf(p: SearchParams): (v: View)
    ensures v == CalendarView <==> p.view == Some("calendar")
  {
    if p.view == Some("calendar") then CalendarView else ListView
  }

  /** The month the calendar opens on: the `month` parameter, or today
      without one; `None` when the parameter is not a date, for which the
      page fails to render. */
  function CalendarDate(month: Option<string>, today: CalDate): (r: Option<CalDate>)
    ensures !Truthy(month) ==> r == Some(today)
    ensures Truthy(month) ==> r == ParseDateKey(month.value)
  {
    if !Truthy(month) then Some(today)
    else match ParseDateKey(month.value)
      case None => None
      case Some(d) => Some(d)
  }

  /** The parameters calendar mode passes to `getActivities`: only the
      first and last day of the month. */
  function MonthParams(d: CalDate): SearchParams
  {
    SearchParams(None, None, None, None, None, None,
                 Some(DateKey(StartOfMonth(d))), Some(DateKey(EndOfMonth(d))),
                 None, None, None, None, None)
  }

  /** The activities the page renders: in list view those of the URL's
      parameters; in calendar view those of the month on show, or `None`
      when the month parameter is unreadable. */
  method PageActivities(table: seq<Activity>, p: SearchParams, today: CalDate, fails: bool, lower: char -> char)
    returns (r: Option<seq<Activity>>)
    ensures ViewOf(p) == ListView ==> r.Some? && Answers(table, p, fails, lower, r.value)
    ensures ViewOf(p) == CalendarView ==>
      match CalendarDate(p.month, today)
      case None => r.None?
      case Some(d) => r.Some? && Answers(table, MonthParams(d), fails, lower, r.value)
  {
    if ViewOf(p) == CalendarView {
      var currentCalendarDate := CalendarDate(p.month, today);
      if currentCalendarDate.None? {
        return None;
      }
      var activities := GetActivities(table, MonthParams(currentCalendarDate.value), fails, lower);
      r := Some(activities);
    } else {
      var activities := GetActivities(table, p, fails, lower);
      r := Some(activities);
    }
  }

  /** In calendar mode the list is exactly the table's activities of the
      month on show (for years the key format can print), newest first. */
  lemma CalendarMonthRows(table: seq<Activity>, d: CalDate, lower: char -> char, r: seq<Activity>, a: Activity)
    requires 1 <= d.year <= 9999
    requires Answers(table, MonthParams(d), false, lower, r)
    ensures SortedDesc(r, Day)
    ensures a in r <==> a in table && IsSameMonth(a.activityDate, d)
  {
    MonthKeeps(d, lower, a);
    AnswerMembers(table, MonthParams(d), false, lower, r, a);
  }

  lemma MonthKeeps(d: CalDate, lower: char -> char, a: Activity)
    requires 1 <= d.year <= 9999
    ensures BoundsReadable(MonthParams(d))
    ensures StoreKeeps(MonthParams(d), a) && SearchKeeps(MonthParams(d), lower, a) <==> IsSameMonth(a.activityDate, d)
  {
    var first, last := StartOfMonth(d), EndOfMonth(d);
    DateKeyRoundTrip(first);
    DateKeyRoundTrip(last);
    BetweenBounds(MonthParams(d), DateKey(first), DateKey(last), first, last, lower, a);
    MonthRange(a.activityDate, d);
  }

  /** Parameters holding only two readable bounds keep the rows between
      them. */
  lemma BetweenBounds(p: SearchParams, from: string, to: string, first: Date, last: Date, lower: char -> char, a: Activity)
    requires p == SearchParams(None, None, None, None, None, None, Some(from), Some(to), None, None, None, None, None)
    requires ParseDateKey(from) == Some(first) && ParseDateKey(to) == Some(last)
    ensures BoundsReadable(p)
    ensures StoreKeeps(p, a) && SearchKeeps(p, lower, a) <==> DayNumber(first) <= Day(a) <= DayNumber(last)
  {
    BoundIs(from, first, a);
    BoundIs(to, last, a);
  }

  lemma BoundIs(k: string, day: Date, a: Activity)
    requires ParseDateKey(k) == Some(day)
    ensures k != ""
    ensures OnOrAfter(a, k) <==> Day(a) >= DayNumber(day)
    ensures OnOrBefore(a, k) <==> Day(a) <= DayNumber(day)
  {
  }

  /** Without any narrowing parameter the list is the whole table, newest
      first. */
  lemma NoParametersAll(table: seq<Activity>, p: SearchParams, lower: char -> char, r: seq<Activity>)
    requires !Narrows(p.supporter) && !Narrows(p.serviceUser) && !Narrows(p.status)
    requires !Truthy(p.dateFrom) && !Truthy(p.dateTo) && !Truthy(p.search)
    requires Answers(table, p, false, lower, r)
    ensures r == SortDesc(table, Day)
  {
    FilterSame(table, (a: Activity) => StoreKeeps(p, a), (a: Activity) => true);
    FilterAll(table, (a: Activity) => true);
  }

  /** The links on an activity card: the detail page, and the completion
      page only while the status is `予定`. */
  function CardLinks(a: Activity): (links: seq<string>)
    ensures |links| >= 1 && links[0] == "/activities/" + a.id
    ensures a.statusName == "予定" <==> "/activities/" + a.id + "/complete" in links
  {
    ["/activities/" + a.id] + (if a.statusName == "予定" then ["/activities/" + a.id + "/complete"] else [])
  }
}
