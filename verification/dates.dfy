/** The date arithmetic the calendar borrows from `date-fns`, on calendar
    dates of the proleptic Gregorian calendar (no time of day, no time
    zone). */
module Dates {
  import opened Wrappers
  import opened Strings

  datatype Date = Date(year: int, month: int, day: int)

  /** A date that exists. */
  type CalDate = d: Date | ValidDate(d) witness Date(1, 1, 1)

  predicate IsLeapYear(y: int)
  {
    y % 4 == 0 && (y % 100 != 0 || y % 400 == 0)
  }

  function DaysInMonth(y: int, m: int): (n: int)
    requires 1 <= m <= 12
    ensures 28 <= n <= 31
  {
    if m == 2 then (if IsLeapYear(y) then 29 else 28)
    else if m == 4 || m == 6 || m == 9 || m == 11 then 30
    else 31
  }

  predicate ValidDate(d: Date)
  {
    1 <= d.month <= 12 && 1 <= d.day <= DaysInMonth(d.year, d.month)
  }

  function DaysInYear(y: int): int
  {
    if IsLeapYear(y) then 366 else 365
  }

  /** Days in the years before `y`, counted from 0001-01-01 (negative
      before year 1), year by year. */
  function DaysBeforeYear(y: int): int
    decreases if y >= 1 then y - 1 else 1 - y
  {
    if y == 1 then 0
    else if y > 1 then DaysBeforeYear(y - 1) + DaysInYear(y - 1)
    else DaysBeforeYear(y + 1) - DaysInYear(y)
  }

  /** The same count in closed form: 365 a year plus the leap days. */
  function DaysBeforeYearClosed(y: int): int
  {
    365 * (y - 1) + (y - 1) / 4 - (y - 1) / 100 + (y - 1) / 400
  }

  lemma ClosedStep(y: int)
    ensures DaysBeforeYearClosed(y + 1) == DaysBeforeYearClosed(y) + DaysInYear(y)
  {
    var q4, q100, q400 := (y - 1) / 4, (y - 1) / 100, (y - 1) / 400;
    assert y / 4 == q4 + (if y % 4 == 0 then 1 else 0);
    assert y / 100 == q100 + (if y % 100 == 0 then 1 else 0);
    assert y / 400 == q400 + (if y % 400 == 0 then 1 else 0);
  }

  /** Counting year by year agrees with the closed form. */
  lemma {:induction false} DaysBeforeYearIsClosed(y: int)
    ensures DaysBeforeYear(y) == DaysBeforeYearClosed(y)
    decreases if y >= 1 then y - 1 else 1 - y
  {
    if y > 1 {
      DaysBeforeYearIsClosed(y - 1);
      ClosedStep(y - 1);
    } else if y < 1 {
      DaysBeforeYearIsClosed(y + 1);
      ClosedStep(y);
    }
  }

  /** Days in year `y` before the first of month `m`. */
  function DaysBeforeMonth(y: int, m: int): int
    requires 1 <= m <= 13
  {
    if m == 1 then 0 else DaysBeforeMonth(y, m - 1) + DaysInMonth(y, m - 1)
  }

  /** The day's number: 0001-01-01 is day 1. */
  function DayNumber(d: Date): int
    requires ValidDate(d)
  {
    DaysBeforeYear(d.year) + DaysBeforeMonth(d.year, d.month) + d.day
  }

  /** Day of the week, Sunday 0 to Saturday 6, as `Date.getDay()`; day 1
      (0001-01-01) was a Monday. */
  function Weekday(d: Date): (w: int)
    requires ValidDate(d)
    ensures 0 <= w < 7
  {
    DayNumber(d) % 7
  }

  lemma DaysBeforeYearStep(y: int)
    ensures DaysBeforeYear(y + 1) == DaysBeforeYear(y) + DaysInYear(y)
  {
  }

  lemma WholeYear(y: int)
    ensures DaysBeforeMonth(y, 13) == DaysInYear(y)
  {
    assert DaysBeforeMonth(y, 2) == 31;
    assert DaysBeforeMonth(y, 3) == 31 + DaysInMonth(y, 2);
    assert DaysBeforeMonth(y, 4) == 62 + DaysInMonth(y, 2);
    assert DaysBeforeMonth(y, 5) == 92 + DaysInMonth(y, 2);
    assert DaysBeforeMonth(y, 6) == 123 + DaysInMonth(y, 2);
    assert DaysBeforeMonth(y, 7) == 153 + DaysInMonth(y, 2);
    assert DaysBeforeMonth(y, 8) == 184 + DaysInMonth(y, 2);
    assert DaysBeforeMonth(y, 9) == 215 + DaysInMonth(y, 2);
    assert DaysBeforeMonth(y, 10) == 245 + DaysInMonth(y, 2);
    assert DaysBeforeMonth(y, 11) == 276 + DaysInMonth(y, 2);
    assert DaysBeforeMonth(y, 12) == 306 + DaysInMonth(y, 2);
  }

  lemma {:induction false} MonthsAscend(y: int, a: int, b: int)
    requires 1 <= a <= b <= 13
    ensures DaysBeforeMonth(y, a) <= DaysBeforeMonth(y, b)
    decreases b - a
  {
    if a < b {
      MonthsAscend(y, a, b - 1);
    }
  }

  lemma {:induction false} YearsAscend(a: int, b: int)
    requires a <= b
    ensures DaysBeforeYear(a) <= DaysBeforeYear(b)
    decreases b - a
  {
    if a < b {
      YearsAscend(a, b - 1);
      DaysBeforeYearStep(b - 1);
    }
  }

  /** A day of an earlier month numbers below the first of a later one. */
  lemma EarlierMonth(x: Date, d: Date)
    requires ValidDate(x) && ValidDate(d)
    requires x.year < d.year || (x.year == d.year && x.month < d.month)
    ensures DayNumber(x) < DayNumber(StartOfMonth(d))
  {
    MonthsAscend(d.year, 1, d.month);
    if x.year == d.year {
      MonthsAscend(x.year, x.month + 1, d.month);
    } else {
      MonthsAscend(x.year, x.month + 1, 13);
      WholeYear(x.year);
      DaysBeforeYearStep(x.year);
      YearsAscend(x.year + 1, d.year);
    }
  }

  /** The days from the first to the last of `d`'s month are exactly the
      days of that month. */
  lemma MonthRange(x: Date, d: Date)
    requires ValidDate(x) && ValidDate(d)
    ensures DayNumber(StartOfMonth(d)) <= DayNumber(x) <= DayNumber(EndOfMonth(d)) <==> IsSameMonth(x, d)
  {
    if x.year < d.year || (x.year == d.year && x.month < d.month) {
      EarlierMonth(x, d);
    } else if d.year < x.year || (d.year == x.year && d.month < x.month) {
      EarlierMonth(EndOfMonth(d), x);
      assert DayNumber(StartOfMonth(x)) <= DayNumber(x);
    }
  }

  // ------------------------------------------------------ day by day

  function NextDay(d: Date): (r: Date)
    requires ValidDate(d)
    ensures ValidDate(r) && DayNumber(r) == DayNumber(d) + 1
  {
    if d.day < DaysInMonth(d.year, d.month) then
      NextInMonth(d);
      Date(d.year, d.month, d.day + 1)
    else if d.month < 12 then
      NextMonthFirst(d.year, d.month);
      Date(d.year, d.month + 1, 1)
    else
      NewYear(d.year);
      Date(d.year + 1, 1, 1)
  }

  lemma NextInMonth(d: Date)
    requires ValidDate(d) && d.day < DaysInMonth(d.year, d.month)
    ensures ValidDate(Date(d.year, d.month, d.day + 1))
    ensures DayNumber(Date(d.year, d.month, d.day + 1)) == DayNumber(d) + 1
  {
  }

  /** The first of a month follows the last day of the month before. */
  lemma NextMonthFirst(y: int, m: int)
    requires 1 <= m < 12
    ensures ValidDate(Date(y, m, DaysInMonth(y, m))) && ValidDate(Date(y, m + 1, 1))
    ensures DayNumber(Date(y, m + 1, 1)) == DayNumber(Date(y, m, DaysInMonth(y, m))) + 1
  {
  }

  function PrevDay(d: Date): (r: Date)
    requires ValidDate(d)
    ensures ValidDate(r) && DayNumber(r) == DayNumber(d) - 1
  {
    if d.day > 1 then Date(d.year, d.month, d.day - 1)
    else if d.month > 1 then
      NextMonthFirst(d.year, d.month - 1);
      Date(d.year, d.month - 1, DaysInMonth(d.year, d.month - 1))
    else
      NewYear(d.year - 1);
      Date(d.year - 1, 12, 31)
  }

  /** New Year's Day follows New Year's Eve. */
  lemma NewYear(y: int)
    ensures ValidDate(Date(y, 12, 31)) && ValidDate(Date(y + 1, 1, 1))
    ensures DayNumber(Date(y + 1, 1, 1)) == DayNumber(Date(y, 12, 31)) + 1
  {
    DaysBeforeYearStep(y);
    WholeYear(y);
  }

  /** One day on, then one day back, is where one started. */
  lemma NextPrev(d: Date)
    requires ValidDate(d)
    ensures PrevDay(NextDay(d)) == d && NextDay(PrevDay(d)) == d
  {
  }

  /** `addDays(d, k)` */
  function AddDays(d: Date, k: nat): (r: Date)
    requires ValidDate(d)
    ensures ValidDate(r)
    decreases k
  {
    if k == 0 then d else AddDays(NextDay(d), k - 1)
  }

  /** `subDays(d, k)` */
  function SubDays(d: Date, k: nat): (r: Date)
    requires ValidDate(d)
    ensures ValidDate(r)
    decreases k
  {
    if k == 0 then d else SubDays(PrevDay(d), k - 1)
  }

  /** `k` days on is `k` day numbers on. */
  lemma {:induction false} AddDaysNumber(d: Date, k: nat)
    requires ValidDate(d)
    ensures DayNumber(AddDays(d, k)) == DayNumber(d) + k
    decreases k
  {
    if k > 0 {
      AddDaysNumber(NextDay(d), k - 1);
    }
  }

  /** `k` days back is `k` day numbers back. */
  lemma {:induction false} SubDaysNumber(d: Date, k: nat)
    requires ValidDate(d)
    ensures DayNumber(SubDays(d, k)) == DayNumber(d) - k
    decreases k
  {
    if k > 0 {
      SubDaysNumber(PrevDay(d), k - 1);
    }
  }

  lemma {:induction false} AddDaysAdd(d: Date, a: nat, b: nat)
    requires ValidDate(d)
    ensures AddDays(AddDays(d, a), b) == AddDays(d, a + b)
    decreases a
  {
    if a > 0 {
      AddDaysAdd(NextDay(d), a - 1, b);
    }
  }

  lemma {:induction false} AddDaysLast(d: Date, k: nat)
    requires ValidDate(d) && k > 0
    ensures AddDays(d, k) == NextDay(AddDays(d, k - 1))
    decreases k
  {
    if k > 1 {
      AddDaysLast(NextDay(d), k - 1);
    }
  }

  /** Going back `k` days and forward `k` days returns to the same date. */
  lemma {:induction false} AddDaysSubDays(d: Date, k: nat)
    requires ValidDate(d)
    ensures AddDays(SubDays(d, k), k) == d
    decreases k
  {
    if k > 0 {
      var p := PrevDay(d);
      AddDaysSubDays(p, k - 1);
      AddDaysLast(SubDays(p, k - 1), k);
      NextPrev(d);
    }
  }

  /** Within a month, `k` days on from day `a` is day `a + k`. */
  lemma {:induction false} AddDaysInMonth(d: Date, k: nat)
    requires ValidDate(d) && d.day + k <= DaysInMonth(d.year, d.month)
    ensures AddDays(d, k) == Date(d.year, d.month, d.day + k)
    decreases k
  {
    if k > 0 {
      AddDaysInMonth(NextDay(d), k - 1);
    }
  }

  /** The `n` consecutive days from `start`. */
  function Days(start: Date, n: nat): (r: seq<Date>)
    requires ValidDate(start)
    ensures |r| == n
    ensures forall i :: 0 <= i < n ==> ValidDate(r[i])
    decreases n
  {
    if n == 0 then [] else [start] + Days(NextDay(start), n - 1)
  }

  /** Entry `i` of the run is day number `i` after its start. */
  lemma {:induction false} DaysEntry(start: Date, n: nat, i: nat)
    requires ValidDate(start) && i < n
    ensures ValidDate(Days(start, n)[i]) && Days(start, n)[i] == AddDays(start, i)
    ensures DayNumber(Days(start, n)[i]) == DayNumber(start) + i
    decreases n
  {
    if i > 0 {
      DaysEntry(NextDay(start), n - 1, i - 1);
      AddDaysNumber(NextDay(start), i - 1);
    }
  }

  /** Going back `w` days from the first of a month and then `w + k - 1`
      days on lands on day `k` of that month. */
  lemma MonthDayAfter(first: Date, w: nat, k: int)
    requires ValidDate(first) && first.day == 1 && 1 <= k <= DaysInMonth(first.year, first.month)
    requires AddDays(SubDays(first, w), w) == first
    ensures AddDays(SubDays(first, w), w + k - 1) == Date(first.year, first.month, k)
  {
    AddDaysAdd(SubDays(first, w), w, k - 1);
    AddDaysInMonth(first, k - 1);
  }

  /** A day of the month is numbered from the month's first day. */
  lemma DayInMonthNumber(x: Date, d: Date)
    requires ValidDate(x) && ValidDate(d) && IsSameMonth(x, d)
    ensures DayNumber(x) == DayNumber(StartOfMonth(d)) + x.day - 1
  {
  }

  // -------------------------------------------------- date-fns helpers

  function StartOfMonth(d: Date): (r: Date)
    requires ValidDate(d)
    ensures ValidDate(r) && r.year == d.year && r.month == d.month && r.day == 1
  {
    Date(d.year, d.month, 1)
  }

  function EndOfMonth(d: Date): (r: Date)
    requires ValidDate(d)
    ensures ValidDate(r) && r.year == d.year && r.month == d.month
    ensures r.day == DaysInMonth(d.year, d.month)
  {
    Date(d.year, d.month, DaysInMonth(d.year, d.month))
  }

  /** `startOfWeek(d, { weekStartsOn: 0 })`: the Sunday on or before `d`. */
  function StartOfWeek(d: Date): (r: Date)
    requires ValidDate(d)
    ensures ValidDate(r) && Weekday(r) == 0
    ensures DayNumber(d) - 6 <= DayNumber(r) <= DayNumber(d)
    ensures DayNumber(r) == DayNumber(d) - Weekday(d)
  {
    var r := SubDays(d, Weekday(d));
    SubDaysNumber(d, Weekday(d));
    WeekStep(DayNumber(d), DayNumber(r), 0);
    r
  }

  /** `endOfWeek(d, { weekStartsOn: 0 })`: the Saturday on or after `d`. */
  function EndOfWeek(d: Date): (r: Date)
    requires ValidDate(d)
    ensures ValidDate(r) && Weekday(r) == 6
    ensures DayNumber(d) <= DayNumber(r) <= DayNumber(d) + 6
    ensures DayNumber(r) == DayNumber(d) + 6 - Weekday(d)
  {
    var r := AddDays(d, 6 - Weekday(d));
    AddDaysNumber(d, 6 - Weekday(d));
    WeekStep(DayNumber(d), DayNumber(r), 6);
    r
  }

  /** Moving from day `n` to the weekday `w` of the same week lands on a
      day whose weekday is `w`. */
  lemma WeekStep(n: int, m: int, w: int)
    requires 0 <= w < 7 && m == n - n % 7 + w
    ensures m % 7 == w
  {
    var q := n / 7;
    assert n == 7 * q + n % 7;
    assert m == 7 * q + w;
  }

  /** `eachDayOfInterval({ start, end })` for `start` on or before `end`. */
  function EachDayOfInterval(start: Date, end: Date): (r: seq<Date>)
    requires ValidDate(start) && ValidDate(end) && DayNumber(start) <= DayNumber(end)
    ensures |r| == DayNumber(end) - DayNumber(start) + 1
  {
    Days(start, DayNumber(end) - DayNumber(start) + 1)
  }

  /** Entry `i` of the interval is day number `i` after its start. */
  lemma IntervalEntry(start: Date, end: Date, i: nat)
    requires ValidDate(start) && ValidDate(end) && DayNumber(start) <= DayNumber(end)
    requires i < |EachDayOfInterval(start, end)|
    ensures var c := EachDayOfInterval(start, end)[i];
      ValidDate(c) && c == AddDays(start, i) && DayNumber(c) == DayNumber(start) + i
  {
    DaysEntry(start, DayNumber(end) - DayNumber(start) + 1, i);
  }

  /** `isSameMonth(a, b)` */
  predicate IsSameMonth(a: Date, b: Date)
  {
    a.year == b.year && a.month == b.month
  }

  /** `addMonths(d, k)` for `k` of -1 or 1: the same day in the month
      before or after, or that month's last day when it is shorter. */
  function AddMonths(d: Date, k: int): (r: Date)
    requires ValidDate(d) && (k == 1 || k == -1)
    ensures ValidDate(r)
  {
    var m0 := d.month - 1 + k;
    var y := d.year + (if m0 < 0 then -1 else if m0 > 11 then 1 else 0);
    var m := (if m0 < 0 then m0 + 12 else if m0 > 11 then m0 - 12 else m0) + 1;
    var last := DaysInMonth(y, m);
    Date(y, m, if d.day <= last then d.day else last)
  }

  // ----------------------------------------------------- format tokens

  /** The year `yyyy` prints: years before year 1 print as an era year. */
  function EraYear(y: int): (e: nat)
    ensures y >= 1 ==> e == y
  {
    if y > 0 then y else 1 - y
  }

  /** `yyyy`: the era year with at least four digits. */
  function Year4(y: int): (s: string)
    ensures AllDigits(s) && |s| >= 4
  {
    ParsePadded(EraYear(y), 4);
    PadStart(NatToString(EraYear(y)), 4, '0')
  }

  function Pad2(n: nat): (s: string)
    ensures AllDigits(s) && |s| >= 2
  {
    ParsePadded(n, 2);
    PadStart(NatToString(n), 2, '0')
  }

  /** `format(d, "yyyy-MM-dd")`, the key the calendar groups activities by. */
  function DateKey(d: Date): (s: string)
    requires ValidDate(d)
  {
    Year4(d.year) + "-" + Pad2(d.month) + "-" + Pad2(d.day)
  }

  /** Reading a `YYYY-MM-DD` key back; anything else is `None`. */
  function ParseDateKey(s: string): (r: Option<Date>)
    ensures r.Some? ==> ValidDate(r.value) && r.value.year >= 1
  {
    if |s| == 10 && s[4] == '-' && s[7] == '-' && AllDigits(s[..4]) && AllDigits(s[5..7]) && AllDigits(s[8..]) then
      var d := Date(ParseNat(s[..4]), ParseNat(s[5..7]), ParseNat(s[8..]));
      if d.year >= 1 && ValidDate(d) then Some(d) else None
    else None
  }

  lemma Pad2Small(n: nat)
    requires n < 100
    ensures |Pad2(n)| == 2 && ParseNat(Pad2(n)) == n
  {
    NatToStringLength(n, 2);
    ParsePadded(n, 2);
  }

  lemma Year4Small(y: int)
    requires 1 <= y <= 9999
    ensures |Year4(y)| == 4 && ParseNat(Year4(y)) == y
  {
    assert Pow10(4) == 10000 by {
      assert Pow10(2) == 100;
    }
    NatToStringLength(y, 4);
    ParsePadded(y, 4);
  }

  lemma ParseDateKeyShape(y: string, m: string, dd: string)
    requires |y| == 4 && |m| == 2 && |dd| == 2 && AllDigits(y) && AllDigits(m) && AllDigits(dd)
    ensures var d := Date(ParseNat(y), ParseNat(m), ParseNat(dd));
            ParseDateKey(y + "-" + m + "-" + dd) == if d.year >= 1 && ValidDate(d) then Some(d) else None
  {
    var s := y + "-" + m + "-" + dd;
    assert s[..4] == y;
    assert s[5..7] == m;
    assert s[8..] == dd;
  }

  /** For years 1 to 9999 the key reads back as the date it was made from. */
  lemma DateKeyRoundTrip(d: Date)
    requires ValidDate(d) && 1 <= d.year <= 9999
    ensures ParseDateKey(DateKey(d)) == Some(d)
  {
    Year4Small(d.year);
    Pad2Small(d.month);
    Pad2Small(d.day);
    ParseDateKeyShape(Year4(d.year), Pad2(d.month), Pad2(d.day));
  }

  /** Different dates in years 1 to 9999 have different keys. */
  lemma DateKeyInjective(a: Date, b: Date)
    requires ValidDate(a) && 1 <= a.year <= 9999
    requires ValidDate(b) && 1 <= b.year <= 9999
    ensures DateKey(a) == DateKey(b) <==> a == b
  {
    DateKeyRoundTrip(a);
    DateKeyRoundTrip(b);
  }
}
