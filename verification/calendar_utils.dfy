/** `lib/utils/calendar-utils.ts`: the month grid of the activity calendar,
    its heading, and moving one month back or forward. */
module CalendarUtils {
  import opened Wrappers
  import opened Strings
  import opened Dates

  /** `getCalendarDays`: every day from the Sunday on or before the first of
      the month to the Saturday on or after its last day. */
  function GetCalendarDays(date: Date): (g: seq<Date>)
    requires ValidDate(date)
    ensures forall i :: 0 <= i < |g| ==> ValidDate(g[i])
  {
    var start := StartOfWeek(StartOfMonth(date));
    var end := EndOfWeek(EndOfMonth(date));
    EachDayOfInterval(start, end)
  }

  /** The grid's column (weekday) of the first of the month. */
  function Lead(date: Date): int
    requires ValidDate(date)
  {
    Weekday(StartOfMonth(date))
  }

  /** The grid's first and last cells. */
  function GridStart(date: Date): (r: Date)
    requires ValidDate(date)
    ensures ValidDate(r)
  {
    StartOfWeek(StartOfMonth(date))
  }

  function GridEnd(date: Date): (r: Date)
    requires ValidDate(date)
    ensures ValidDate(r)
  {
    EndOfWeek(EndOfMonth(date))
  }

  /** Cell `i` is the `i`-th day after the grid's first Sunday. */
  lemma Cell(date: Date, i: int)
    requires ValidDate(date) && 0 <= i < |GetCalendarDays(date)|
    ensures var c := GetCalendarDays(date)[i];
      && ValidDate(c) && c == AddDays(GridStart(date), i)
      && DayNumber(c) == DayNumber(GridStart(date)) + i
  {
    var s, e := GridStart(date), GridEnd(date);
    assert GetCalendarDays(date) == EachDayOfInterval(s, e);
    IntervalEntry(s, e, i);
  }

  /** The grid has one cell per day from its first Sunday to its last
      Saturday. */
  lemma GridSize(date: Date)
    requires ValidDate(date)
    ensures |GetCalendarDays(date)| == DayNumber(GridEnd(date)) - DayNumber(GridStart(date)) + 1
  {
  }

  lemma MonthSpan(date: Date)
    requires ValidDate(date)
    ensures DayNumber(EndOfMonth(date)) == DayNumber(StartOfMonth(date)) + DaysInMonth(date.year, date.month) - 1
  {
  }

  /** The grid runs from a Sunday at most six days before the first of the
      month to a Saturday at most six days after its last day, and is a
      whole number of weeks, four to six. */
  lemma GridBounds(date: Date)
    requires ValidDate(date)
    ensures var g := GetCalendarDays(date);
      var first, last := StartOfMonth(date), EndOfMonth(date);
      && |g| % 7 == 0 && 28 <= |g| <= 42
      && Weekday(g[0]) == 0 && DayNumber(first) - 6 <= DayNumber(g[0]) <= DayNumber(first)
      && Weekday(g[|g| - 1]) == 6 && DayNumber(last) <= DayNumber(g[|g| - 1]) <= DayNumber(last) + 6
  {
    GridWeeks(date);
    GridFirst(date);
    GridLast(date);
  }

  lemma GridWeeks(date: Date)
    requires ValidDate(date)
    ensures var n := |GetCalendarDays(date)|; n % 7 == 0 && 28 <= n <= 42
  {
    var f, l := DayNumber(StartOfMonth(date)), DayNumber(EndOfMonth(date));
    GridStartNumber(date);
    GridEndNumber(date);
    MonthSpan(date);
    GridSize(date);
    GridLength(f, l, DaysInMonth(date.year, date.month), DayNumber(GridStart(date)), DayNumber(GridEnd(date)));
  }

  lemma GridStartNumber(date: Date)
    requires ValidDate(date)
    ensures var f := DayNumber(StartOfMonth(date)); DayNumber(GridStart(date)) == f - f % 7
  {
  }

  lemma GridEndNumber(date: Date)
    requires ValidDate(date)
    ensures var l := DayNumber(EndOfMonth(date)); DayNumber(GridEnd(date)) == l + 6 - l % 7
  {
  }

  lemma GridFirst(date: Date)
    requires ValidDate(date)
    ensures var g := GetCalendarDays(date); var first := StartOfMonth(date);
      |g| > 0 && Weekday(g[0]) == 0 && DayNumber(first) - 6 <= DayNumber(g[0]) <= DayNumber(first)
  {
    GridWeeks(date);
    Cell(date, 0);
  }

  lemma GridLast(date: Date)
    requires ValidDate(date)
    ensures var g := GetCalendarDays(date); var last := EndOfMonth(date);
      |g| > 0 && Weekday(g[|g| - 1]) == 6 && DayNumber(last) <= DayNumber(g[|g| - 1]) <= DayNumber(last) + 6
  {
    var g := GetCalendarDays(date);
    GridWeeks(date);
    GridSize(date);
    Cell(date, |g| - 1);
    assert DayNumber(g[|g| - 1]) == DayNumber(GridEnd(date));
  }

  lemma GridLength(f: int, l: int, n: int, s: int, e: int)
    requires 28 <= n <= 31 && l == f + n - 1
    requires s == f - f % 7
    requires e == l + 6 - l % 7
    ensures (e - s + 1) % 7 == 0 && 28 <= e - s + 1 <= 42
  {
    var a, b := f % 7, l % 7;
    assert f == 7 * (f / 7) + a;
    assert l == 7 * (l / 7) + b;
    assert e - s + 1 == 7 * (l / 7 - f / 7 + 1);
  }

  /** Neighbouring cells are consecutive days. */
  lemma GridConsecutive(date: Date, i: int)
    requires ValidDate(date)
    requires 0 <= i < |GetCalendarDays(date)| - 1
    ensures var g := GetCalendarDays(date); g[i + 1] == NextDay(g[i])
  {
    Cell(date, i);
    Cell(date, i + 1);
    AddDaysLast(GridStart(date), i + 1);
  }

  /** Cell `i` falls on weekday `i % 7`, so `dayNames[i % 7]` heads its
      column. */
  lemma GridColumns(date: Date)
    requires ValidDate(date)
    ensures var g := GetCalendarDays(date);
      forall i :: 0 <= i < |g| ==> Weekday(g[i]) == i % 7 && DayNames[i % 7] == WeekdayName(g[i])
  {
    var g := GetCalendarDays(date);
    var s := DayNumber(GridStart(date));
    assert s % 7 == 0 by { assert Weekday(GridStart(date)) == 0; }
    forall i | 0 <= i < |g| ensures Weekday(g[i]) == i % 7 {
      Cell(date, i);
      ShiftWeek(g[i], s, i);
    }
  }

  lemma ShiftWeek(c: Date, s: int, i: int)
    requires ValidDate(c) && s % 7 == 0 && DayNumber(c) == s + i
    ensures Weekday(c) == i % 7
  {
    assert s == 7 * (s / 7);
  }

  /** Day `k` of the month sits in cell `Lead + k - 1`: the grid holds every
      day of the month. */
  lemma GridHoldsMonth(date: Date, k: int)
    requires ValidDate(date) && 1 <= k <= DaysInMonth(date.year, date.month)
    ensures var g := GetCalendarDays(date);
      Lead(date) + k - 1 < |g| && g[Lead(date) + k - 1] == Date(date.year, date.month, k)
  {
    var first := StartOfMonth(date);
    var w: nat := Lead(date);
    GridCoversMonth(date);
    Cell(date, w + k - 1);
    AddDaysSubDays(first, w);
    MonthDayAfter(first, w, k);
  }

  lemma GridCoversMonth(date: Date)
    requires ValidDate(date)
    ensures Lead(date) + DaysInMonth(date.year, date.month) <= |GetCalendarDays(date)|
  {
    MonthSpan(date);
    GridSize(date);
  }

  /** A cell is flagged as in the current month exactly when it lies in the
      run of the month's own days. */
  lemma GridMonthFlag(date: Date, i: int)
    requires ValidDate(date) && 0 <= i < |GetCalendarDays(date)|
    ensures IsSameMonth(GetCalendarDays(date)[i], date)
            <==> Lead(date) <= i < Lead(date) + DaysInMonth(date.year, date.month)
  {
    var c := GetCalendarDays(date)[i];
    Cell(date, i);
    if Lead(date) <= i < Lead(date) + DaysInMonth(date.year, date.month) {
      GridHoldsMonth(date, i - Lead(date) + 1);
    }
    if IsSameMonth(c, date) {
      DayInMonthNumber(c, date);
    }
  }

  /** Two dates in the same month give the same grid. */
  lemma GridSameMonth(a: Date, b: Date)
    requires ValidDate(a) && ValidDate(b) && IsSameMonth(a, b)
    ensures GetCalendarDays(a) == GetCalendarDays(b)
  {
    assert StartOfMonth(a) == StartOfMonth(b);
    assert EndOfMonth(a) == EndOfMonth(b);
  }

  // ----------------------------------------------------------- heading

  /** `formatMonthYear`: `yyyy年M月`. */
  function FormatMonthYear(date: Date): string
    requires ValidDate(date)
  {
    Year4(date.year) + "年" + NatToString(date.month) + "月"
  }

  /** The number of leading decimal digits. */
  function LeadingDigits(s: string): (n: nat)
    ensures n <= |s| && AllDigits(s[..n])
    ensures n < |s| ==> !IsDigit(s[n])
  {
    if s == [] || !IsDigit(s[0]) then 0
    else
      var k := LeadingDigits(s[1..]);
      assert s[..k + 1] == [s[0]] + s[1..][..k];
      k + 1
  }

  lemma {:induction false} LeadingDigitsOf(a: string, b: string)
    requires AllDigits(a) && (b == [] || !IsDigit(b[0]))
    ensures LeadingDigits(a + b) == |a|
  {
    if a != [] {
      assert (a + b)[1..] == a[1..] + b;
      LeadingDigitsOf(a[1..], b);
    }
  }

  lemma SplitAround(a: string, c: char, b: string)
    ensures var s := a + [c] + b;
      s[..|a|] == a && s[|a|] == c && s[|a| + 1..] == b && s == a + ([c] + b)
  {
  }

  /** Reading a heading back into (year, month). */
  function ParseMonthYear(s: string): Option<(nat, nat)>
  {
    var i := LeadingDigits(s);
    if 0 < i < |s| && s[i] == '年' then
      var rest := s[i + 1..];
      var j := LeadingDigits(rest);
      if 0 < j && rest[j..] == "月" then Some((ParseNat(s[..i]), ParseNat(rest[..j]))) else None
    else None
  }

  lemma ParseMonthYearShape(y: string, m: string)
    requires AllDigits(y) && AllDigits(m) && y != [] && m != []
    ensures ParseMonthYear(y + "年" + m + "月") == Some((ParseNat(y), ParseNat(m)))
  {
    var s := y + "年" + m + "月";
    var rest := m + "月";
    assert s == y + ['年'] + rest;
    SplitAround(y, '年', rest);
    LeadingDigitsOf(y, ['年'] + rest);
    SplitAround(m, '月', []);
    LeadingDigitsOf(m, "月");
  }

  /** The heading holds the era year and the month number, which read back;
      for years 1 to 9999 the year has exactly four digits. */
  lemma FormatMonthYearRoundTrip(date: Date)
    requires ValidDate(date)
    ensures ParseMonthYear(FormatMonthYear(date)) == Some((EraYear(date.year), date.month))
    ensures 1 <= date.year <= 9999 ==> |FormatMonthYear(date)| == 6 + |NatToString(date.month)|
  {
    ParseMonthYearShape(Year4(date.year), NatToString(date.month));
    ParsePadded(EraYear(date.year), 4);
    ParseNatToString(date.month);
    if 1 <= date.year <= 9999 {
      Year4Small(date.year);
    }
  }

  /** `dayNames`, Sunday first. */
  const DayNames: seq<string> := ["日", "月", "火", "水", "木", "金", "土"]

  function WeekdayName(d: Date): string
    requires ValidDate(d)
  {
    DayNames[Weekday(d)]
  }

  // ------------------------------------------------------ month steps

  /** Months counted from year 0: consecutive months differ by one. */
  function MonthIndex(d: Date): int
  {
    12 * d.year + d.month - 1
  }

  /** `getNextMonth`: `addMonths(date, 1)`. */
  function GetNextMonth(date: Date): (r: Date)
    requires ValidDate(date)
    ensures ValidDate(r)
  {
    AddMonths(date, 1)
  }

  /** `getPreviousMonth`: `subMonths(date, 1)`. */
  function GetPreviousMonth(date: Date): (r: Date)
    requires ValidDate(date)
    ensures ValidDate(r)
  {
    AddMonths(date, -1)
  }

  /** The next month is the following calendar month (December rolls over
      to January of the next year); the day is kept, or clipped to the new
      month's last day. */
  lemma NextMonthLands(date: Date)
    requires ValidDate(date)
    ensures var r := GetNextMonth(date);
      && MonthIndex(r) == MonthIndex(date) + 1
      && (date.month == 12 ==> r.year == date.year + 1 && r.month == 1)
      && (date.month < 12 ==> r.year == date.year && r.month == date.month + 1)
      && r.day == if date.day <= DaysInMonth(r.year, r.month) then date.day else DaysInMonth(r.year, r.month)
  {
  }

  /** The previous month is the preceding calendar month (January rolls
      back to December of the year before), day kept or clipped. */
  lemma PreviousMonthLands(date: Date)
    requires ValidDate(date)
    ensures var r := GetPreviousMonth(date);
      && MonthIndex(r) == MonthIndex(date) - 1
      && (date.month == 1 ==> r.year == date.year - 1 && r.month == 12)
      && (date.month > 1 ==> r.year == date.year && r.month == date.month - 1)
      && r.day == if date.day <= DaysInMonth(r.year, r.month) then date.day else DaysInMonth(r.year, r.month)
  {
  }

  /** Forward then back returns to the same month (and so to the same
      grid), though a clipped day stays clipped. */
  lemma NextThenPrevious(date: Date)
    requires ValidDate(date)
    ensures IsSameMonth(GetPreviousMonth(GetNextMonth(date)), date)
    ensures GetPreviousMonth(GetNextMonth(date)).day <= date.day
    ensures GetCalendarDays(GetPreviousMonth(GetNextMonth(date))) == GetCalendarDays(date)
  {
    NextMonthLands(date);
    PreviousMonthLands(GetNextMonth(date));
    GridSameMonth(GetPreviousMonth(GetNextMonth(date)), date);
  }

  /** January 31 moves to the last day of February. */
  lemma NextMonthClips()
    ensures GetNextMonth(Date(2024, 1, 31)) == Date(2024, 2, 29)
    ensures GetNextMonth(Date(2023, 1, 31)) == Date(2023, 2, 28)
  {
  }
}
