/** The expansion of a `[start, end]` pair of dates: years, then months 1-12, then days, where
    every month is taken to have 31 days. */
module DateRange {
  import opened Decimal
  import opened TimeTypes

  const MaxMonth: nat := 12
  const MaxDay: nat := 31

  /** A (year, month, day) triple: one token of the expansion before it is rendered. */
  datatype Day = Day(year: nat, month: nat, day: nat)

  /** The numeric fields of the two endpoints. */
  datatype DateBounds = DateBounds(startYear: nat, startMonth: nat, startDay: nat,
                                   endYear: nat, endMonth: nat, endDay: nat)

  function DateBoundsOf(start: string, end: string): DateBounds
    requires Matches(Date, start) && Matches(Date, end)
  {
    var s, e := Fields(Date, start), Fields(Date, end);
    DateBounds(s[0], s[1], s[2], e[0], e[1], e[2])
  }

  /** `currentStartMonth` of year `y`. */
  function MonthLo(b: DateBounds, y: int): nat {
    if y == b.startYear then b.startMonth else 1
  }

  /** `currentEndMonth` of year `y`. */
  function MonthHi(b: DateBounds, y: int): nat {
    if y == b.endYear then b.endMonth else MaxMonth
  }

  /** `currentStartDay`: the start day only in the start year's first month. */
  function DayLo(b: DateBounds, y: int, m: int): nat {
    if y == b.startYear && m == MonthLo(b, y) then b.startDay else 1
  }

  /** `currentEndDay`: the end day only in the end year's last month, 31 everywhere else. */
  function DayHi(b: DateBounds, y: int, m: int): nat {
    if y == b.endYear && m == MonthHi(b, y) then b.endDay else MaxDay
  }

  /** Every `range(a, b)` the expansion calls counts upwards; lodash counts down otherwise,
      which is not modelled. The other months' and years' ranges always count upwards, and a
      start year one past the end year gives the empty `range(startYear, endYear + 1)`. */
  predicate CountsUp(b: DateBounds) {
    b.startYear <= b.endYear + 1
    && (b.startYear <= b.endYear ==>
          MonthLo(b, b.startYear) <= MonthHi(b, b.startYear) + 1
          && (b.startMonth <= MonthHi(b, b.startYear) ==>
                b.startDay <= DayHi(b, b.startYear, b.startMonth) + 1))
  }

  function MonthDays(y: nat, m: nat, lo: nat, hi: int): seq<Day>
    decreases hi - lo
  {
    if hi < lo then [] else MonthDays(y, m, lo, hi - 1) + [Day(y, m, hi)]
  }

  /** The days of year `y` in its months from `MonthLo` up to `m`. */
  function YearDaysThrough(b: DateBounds, y: nat, m: int): seq<Day>
    decreases m - MonthLo(b, y)
  {
    if m < MonthLo(b, y) then []
    else YearDaysThrough(b, y, m - 1) + MonthDays(y, m as nat, DayLo(b, y, m), DayHi(b, y, m))
  }

  /** The days of the years from the start year up to `y`. */
  function DaysThrough(b: DateBounds, y: int): seq<Day>
    decreases y - b.startYear
  {
    if y < b.startYear then []
    else DaysThrough(b, y - 1) + YearDaysThrough(b, y as nat, MonthHi(b, y))
  }

  /** The enumeration the nested loops produce, before rendering. */
  function Days(b: DateBounds): seq<Day> {
    DaysThrough(b, b.endYear)
  }

  /** `${year}${monthStr}${dayStr}` with month and day on two digits. */
  function Render(t: Day): string {
    Show(t.year) + ZeroPadded(t.month) + ZeroPadded(t.day)
  }

  function RenderAll(ts: seq<Day>): (r: seq<string>)
    ensures |r| == |ts|
  {
    seq(|ts|, i requires 0 <= i < |ts| => Render(ts[i]))
  }

  /** The date expander: for each year, for each month from `currentStartMonth` to
      `currentEndMonth`, for each day from `currentStartDay` to `currentEndDay`, push the token. */
  method GetDateRange(b: DateBounds) returns (result: seq<string>)
    requires CountsUp(b)
    ensures result == RenderAll(Days(b))
  {
    result := [];
    ghost var days: seq<Day> := [];
    assert RenderAll(days) == [];
    var year: int := b.startYear;
    while year <= b.endYear
      invariant b.startYear <= year <= b.endYear + 1
      invariant days == DaysThrough(b, year - 1)
      invariant result == RenderAll(days)
    {
      result := PushMonths(b, result, year, days);
      days := days + YearDaysThrough(b, year, MonthHi(b, year));
      YearStep(b, year, days);
      year := year + 1;
    }
  }

  /** The month loop of one year: the days of its months from `currentStartMonth` to
      `currentEndMonth`, appended to `result`. */
  method PushMonths(b: DateBounds, prefix: seq<string>, year: nat, ghost before: seq<Day>)
    returns (result: seq<string>)
    requires CountsUp(b) && b.startYear <= year <= b.endYear
    requires prefix == RenderAll(before)
    ensures result == RenderAll(before + YearDaysThrough(b, year, MonthHi(b, year)))
  {
    result := prefix;
    ghost var days := before;
    var currentStartMonth := if year == b.startYear then b.startMonth else 1;
    var currentEndMonth := if year == b.endYear then b.endMonth else MaxMonth;
    var month: int := currentStartMonth;
    while month <= currentEndMonth
      invariant currentStartMonth <= month <= currentEndMonth + 1
      invariant days == before + YearDaysThrough(b, year, month - 1)
      invariant result == RenderAll(days)
    {
      var currentStartDay := if year == b.startYear && month == currentStartMonth then b.startDay else 1;
      var currentEndDay := if year == b.endYear && month == currentEndMonth then b.endDay else MaxDay;
      ghost var beforeMonth := days;
      result := PushDays(result, year, month, currentStartDay, currentEndDay, days);
      RenderAllAppend(days, MonthDays(year, month, currentStartDay, currentEndDay));
      days := days + MonthDays(year, month, currentStartDay, currentEndDay);
      MonthStep(b, year, month, before, beforeMonth, days);
      month := month + 1;
    }
  }

  /** The innermost loop: the days `lo..hi` of one month, appended to `result`. */
  method PushDays(prefix: seq<string>, year: nat, month: nat, lo: nat, hi: int, ghost before: seq<Day>)
    returns (result: seq<string>)
    requires lo <= hi + 1
    requires prefix == RenderAll(before)
    ensures result == prefix + RenderAll(MonthDays(year, month, lo, hi))
  {
    result := prefix;
    ghost var days := before;
    var day: int := lo;
    while day <= hi
      invariant lo <= day <= hi + 1
      invariant days == before + MonthDays(year, month, lo, day - 1)
      invariant result == RenderAll(days)
    {
      RenderAllSnoc(days, Day(year, month, day));
      result := result + [Render(Day(year, month, day))];
      DayStep(year, month, lo, day, before, days);
      days := days + [Day(year, month, day)];
      day := day + 1;
    }
    RenderAllAppend(before, MonthDays(year, month, lo, hi));
  }

  lemma RenderAllAppend(a: seq<Day>, c: seq<Day>)
    ensures RenderAll(a + c) == RenderAll(a) + RenderAll(c)
  {
    assert forall i :: 0 <= i < |c| ==> (a + c)[|a| + i] == c[i];
  }

  lemma DayStep(y: nat, m: nat, lo: nat, d: nat, before: seq<Day>, days: seq<Day>)
    requires lo <= d
    requires days == before + MonthDays(y, m, lo, d - 1)
    ensures days + [Day(y, m, d)] == before + MonthDays(y, m, lo, d)
  {
  }

  lemma MonthStep(b: DateBounds, y: nat, m: nat, beforeYear: seq<Day>, beforeMonth: seq<Day>, days: seq<Day>)
    requires MonthLo(b, y) <= m
    requires beforeMonth == beforeYear + YearDaysThrough(b, y, m - 1)
    requires days == beforeMonth + MonthDays(y, m, DayLo(b, y, m), DayHi(b, y, m))
    ensures days == beforeYear + YearDaysThrough(b, y, m)
  {
  }

  lemma YearStep(b: DateBounds, y: nat, days: seq<Day>)
    requires b.startYear <= y
    requires days == DaysThrough(b, y - 1) + YearDaysThrough(b, y, MonthHi(b, y))
    ensures days == DaysThrough(b, y)
  {
  }

  lemma RenderAllSnoc(ts: seq<Day>, t: Day)
    ensures RenderAll(ts + [t]) == RenderAll(ts) + [Render(t)]
  {
    assert RenderAll(ts + [t])[|ts|] == Render(t);
  }

  /** Strict (year, month, day) order. */
  predicate Before(a: Day, c: Day) {
    a.year < c.year
    || (a.year == c.year && a.month < c.month)
    || (a.year == c.year && a.month == c.month && a.day < c.day)
  }

  predicate AtMost(a: Day, c: Day) {
    a == c || Before(a, c)
  }

  predicate Ascending(ts: seq<Day>) {
    forall i, j :: 0 <= i < j < |ts| ==> Before(ts[i], ts[j])
  }

  lemma AscendingAppend(a: seq<Day>, c: seq<Day>)
    requires Ascending(a) && Ascending(c)
    requires forall x, z :: x in a && z in c ==> Before(x, z)
    ensures Ascending(a + c)
  {
    forall i, j | 0 <= i < j < |a + c| ensures Before((a + c)[i], (a + c)[j]) {
      if j < |a| {
        assert (a + c)[i] == a[i] && (a + c)[j] == a[j];
      } else if i >= |a| {
        assert (a + c)[i] == c[i - |a|] && (a + c)[j] == c[j - |a|];
      } else {
        assert (a + c)[i] == a[i] && (a + c)[j] == c[j - |a|];
      }
    }
  }

  lemma {:induction false} MonthDaysMembership(y: nat, m: nat, lo: nat, hi: int, t: Day)
    ensures t in MonthDays(y, m, lo, hi) <==> t.year == y && t.month == m && lo <= t.day <= hi
    decreases hi - lo
  {
    if lo <= hi {
      MonthDaysMembership(y, m, lo, hi - 1, t);
    }
  }

  lemma {:induction false} MonthDaysAscending(y: nat, m: nat, lo: nat, hi: int)
    ensures Ascending(MonthDays(y, m, lo, hi))
    decreases hi - lo
  {
    if lo <= hi {
      MonthDaysAscending(y, m, lo, hi - 1);
      forall x | x in MonthDays(y, m, lo, hi - 1) ensures Before(x, Day(y, m, hi)) {
        MonthDaysMembership(y, m, lo, hi - 1, x);
      }
      AscendingAppend(MonthDays(y, m, lo, hi - 1), [Day(y, m, hi)]);
    }
  }

  lemma {:induction false} YearDaysThroughMembership(b: DateBounds, y: nat, m: int, t: Day)
    ensures t in YearDaysThrough(b, y, m) <==>
      t.year == y && MonthLo(b, y) <= t.month <= m && DayLo(b, y, t.month) <= t.day <= DayHi(b, y, t.month)
    decreases m - MonthLo(b, y)
  {
    if MonthLo(b, y) <= m {
      YearDaysThroughMembership(b, y, m - 1, t);
      MonthDaysMembership(y, m as nat, DayLo(b, y, m), DayHi(b, y, m), t);
    }
  }

  lemma {:induction false} YearDaysThroughAscending(b: DateBounds, y: nat, m: int)
    ensures Ascending(YearDaysThrough(b, y, m))
    decreases m - MonthLo(b, y)
  {
    if MonthLo(b, y) <= m {
      var done := YearDaysThrough(b, y, m - 1);
      var current := MonthDays(y, m as nat, DayLo(b, y, m), DayHi(b, y, m));
      YearDaysThroughAscending(b, y, m - 1);
      MonthDaysAscending(y, m as nat, DayLo(b, y, m), DayHi(b, y, m));
      forall x, z | x in done && z in current ensures Before(x, z) {
        YearDaysThroughMembership(b, y, m - 1, x);
        MonthDaysMembership(y, m as nat, DayLo(b, y, m), DayHi(b, y, m), z);
      }
      AscendingAppend(done, current);
    }
  }

  lemma {:induction false} DaysThroughMembership(b: DateBounds, y: int, t: Day)
    ensures t in DaysThrough(b, y) <==>
      b.startYear <= t.year <= y && MonthLo(b, t.year) <= t.month <= MonthHi(b, t.year)
      && DayLo(b, t.year, t.month) <= t.day <= DayHi(b, t.year, t.month)
    decreases y - b.startYear
  {
    if b.startYear <= y {
      DaysThroughMembership(b, y - 1, t);
      YearDaysThroughMembership(b, y as nat, MonthHi(b, y), t);
    }
  }

  lemma {:induction false} DaysThroughAscending(b: DateBounds, y: int)
    ensures Ascending(DaysThrough(b, y))
    decreases y - b.startYear
  {
    if b.startYear <= y {
      var done := DaysThrough(b, y - 1);
      var current := YearDaysThrough(b, y as nat, MonthHi(b, y));
      DaysThroughAscending(b, y - 1);
      YearDaysThroughAscending(b, y as nat, MonthHi(b, y));
      forall x, z | x in done && z in current ensures Before(x, z) {
        DaysThroughMembership(b, y - 1, x);
        YearDaysThroughMembership(b, y as nat, MonthHi(b, y), z);
      }
      AscendingAppend(done, current);
    }
  }

  /** The expansion holds exactly the days of the years from the start year to the end year,
      of each year's months from `currentStartMonth` to `currentEndMonth`, and of each month's
      days from `currentStartDay` to `currentEndDay`. */
  lemma DaysMembership(b: DateBounds, t: Day)
    ensures t in Days(b) <==>
      b.startYear <= t.year <= b.endYear && MonthLo(b, t.year) <= t.month <= MonthHi(b, t.year)
      && DayLo(b, t.year, t.month) <= t.day <= DayHi(b, t.year, t.month)
  {
    DaysThroughMembership(b, b.endYear, t);
  }

  /** The expansion is strictly ascending by (year, month, day), hence repeats no day. */
  lemma DaysAscending(b: DateBounds)
    ensures Ascending(Days(b))
  {
    DaysThroughAscending(b, b.endYear);
  }

  /** Months 1-12, days 1-31, the start not after the end. */
  predicate ValidDateBounds(b: DateBounds) {
    1 <= b.startMonth <= MaxMonth && 1 <= b.endMonth <= MaxMonth
    && 1 <= b.startDay <= MaxDay && 1 <= b.endDay <= MaxDay
    && AtMost(StartDay(b), EndDay(b))
  }

  function StartDay(b: DateBounds): Day {
    Day(b.startYear, b.startMonth, b.startDay)
  }

  function EndDay(b: DateBounds): Day {
    Day(b.endYear, b.endMonth, b.endDay)
  }

  /** Valid endpoints make every range count upwards. */
  lemma ValidCountsUp(b: DateBounds)
    requires ValidDateBounds(b)
    ensures CountsUp(b)
  {
  }

  /** With valid endpoints the expansion is every day of the 12 x 31 calendar from the start to
      the end, inclusive: no calendar validation takes place, so "20010231" is produced. */
  lemma DaysBetween(b: DateBounds, t: Day)
    requires ValidDateBounds(b)
    ensures t in Days(b) <==>
      AtMost(StartDay(b), t) && AtMost(t, EndDay(b))
      && 1 <= t.month <= MaxMonth && 1 <= t.day <= MaxDay
  {
    DaysMembership(b, t);
  }

  /** With valid endpoints the first token is the start and the last is the end. */
  lemma DaysEndpoints(b: DateBounds)
    requires ValidDateBounds(b)
    ensures var ts := Days(b);
      0 < |ts| && ts[0] == StartDay(b) && ts[|ts| - 1] == EndDay(b)
  {
    var ts := Days(b);
    var first, last := StartDay(b), EndDay(b);
    DaysAscending(b);
    DaysBetween(b, first);
    DaysBetween(b, last);
    DaysBetween(b, ts[0]);
    DaysBetween(b, ts[|ts| - 1]);
    var i :| 0 <= i < |ts| && ts[i] == first;
    var j :| 0 <= j < |ts| && ts[j] == last;
  }

  /** Below one hundred for month and day, distinct days render as distinct tokens. */
  lemma RenderInjective(a: Day, c: Day)
    requires a.month < 100 && a.day < 100 && c.month < 100 && c.day < 100
    requires Render(a) == Render(c)
    ensures a == c
  {
    var r := Render(a);
    ZeroPaddedTwoDigits(a.month);
    ZeroPaddedTwoDigits(a.day);
    ZeroPaddedTwoDigits(c.month);
    ZeroPaddedTwoDigits(c.day);
    SplitAt(r, Show(a.year) + ZeroPadded(a.month), ZeroPadded(a.day));
    SplitAt(r, Show(c.year) + ZeroPadded(c.month), ZeroPadded(c.day));
    ZeroPaddedInjective(a.day, c.day);
    var p := Show(a.year) + ZeroPadded(a.month);
    SplitAt(p, Show(a.year), ZeroPadded(a.month));
    SplitAt(p, Show(c.year), ZeroPadded(c.month));
    ShowInjective(a.year, c.year);
    ZeroPaddedInjective(a.month, c.month);
  }

  /** The expansion of endpoints whose month and day have at most two digits repeats no token. */
  lemma RenderedDistinct(b: DateBounds)
    requires b.startMonth < 100 && b.startDay < 100 && b.endMonth < 100 && b.endDay < 100
    ensures var r := RenderAll(Days(b));
      forall i, j :: 0 <= i < j < |r| ==> r[i] != r[j]
  {
    var ts := Days(b);
    DaysAscending(b);
    forall i, j | 0 <= i < j < |ts| ensures Render(ts[i]) != Render(ts[j]) {
      DaysMembership(b, ts[i]);
      DaysMembership(b, ts[j]);
      if Render(ts[i]) == Render(ts[j]) {
        RenderInjective(ts[i], ts[j]);
      }
    }
  }

  /** A rendered day with a three- or four-digit year is again a date token, and the date
      pattern reads back its year, month and day. */
  lemma RenderRoundTrip(t: Day)
    requires 100 <= t.year <= 9999 && t.month < 100 && t.day < 100
    ensures Matches(Date, Render(t))
    ensures Fields(Date, Render(t)) == [t.year, t.month, t.day]
  {
    var s := Render(t);
    ShowYearLength(t.year);
    NumberShow(t.year);
    ZeroPaddedTwoDigits(t.month);
    ZeroPaddedTwoDigits(t.day);
    var g := [Show(t.year), ZeroPadded(t.month), ZeroPadded(t.day)];
    assert Shape(Date, s, g);
    ExecShape(Date, s, g);
    var f := Fields(Date, s);
    assert f[0] == t.year && f[1] == t.month && f[2] == t.day;
  }
}
