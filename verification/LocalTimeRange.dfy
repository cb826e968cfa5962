/** `extractLocalTimeRange(type)`: the expander chosen by kind, applied to a `[start, end]` pair
    whose endpoints are both tokens of that kind. */
module LocalTimeRange {
  import opened Decimal
  import opened TimeTypes
  import TypicalRange
  import DateRange

  /** The year expander: `range(startYear, endYear + 1)` written out with `${year}`. */
  function YearRange(startYear: nat, endYear: int): (r: seq<string>)
    requires startYear <= endYear + 1
    ensures |r| == endYear - startYear + 1
    decreases endYear - startYear
  {
    if endYear < startYear then [] else YearRange(startYear, endYear - 1) + [Show(endYear)]
  }

  /** The `i`-th year token is the year `startYear + i` written out. */
  lemma {:induction false} YearRangeElements(startYear: nat, endYear: int)
    requires startYear <= endYear + 1
    ensures forall i :: 0 <= i < endYear - startYear + 1 ==>
      YearRange(startYear, endYear)[i] == Show(startYear + i)
    decreases endYear - startYear
  {
    if startYear <= endYear {
      YearRangeElements(startYear, endYear - 1);
    }
  }

  /** Reading the year tokens back with `Number` gives the years `a..b` in ascending order. */
  lemma YearRangeReadsBack(startYear: nat, endYear: int)
    requires startYear <= endYear + 1
    ensures var r := YearRange(startYear, endYear);
      forall i :: 0 <= i < |r| ==> AllDigits(r[i]) && Number(r[i]) == startYear + i
  {
    var r := YearRange(startYear, endYear);
    YearRangeElements(startYear, endYear);
    forall i | 0 <= i < |r| ensures AllDigits(r[i]) && Number(r[i]) == startYear + i {
      NumberShow(startYear + i);
    }
  }

  /** Every `range(a, b)` that the kind's expander calls counts upwards. */
  predicate CountsUpFor(k: TimeKind, start: string, end: string)
    requires Matches(k, start) && Matches(k, end)
  {
    match k
    case Year => Fields(Year, start)[0] <= Fields(Year, end)[0] + 1
    case Date => DateRange.CountsUp(DateRange.DateBoundsOf(start, end))
    case _ => TypicalRange.CountsUp(TypicalRange.SettingsFor(k), TypicalRange.BoundsOf(k, start, end))
  }

  /** A pair the kind's expander handles: both endpoints are tokens of the kind, and no range
      it builds counts downwards. */
  predicate Expandable(k: TimeKind, start: string, end: string) {
    Matches(k, start) && Matches(k, end) && CountsUpFor(k, start, end)
  }

  /** What `extractLocalTimeRange(k)([start, end])` returns. */
  function Expand(k: TimeKind, start: string, end: string): seq<string>
    requires Expandable(k, start, end)
  {
    match k
    case Year => YearRange(Fields(Year, start)[0], Fields(Year, end)[0])
    case Date =>
      DateRange.RenderAll(DateRange.Days(DateRange.DateBoundsOf(start, end)))
    case _ =>
      var st := TypicalRange.SettingsFor(k);
      TypicalRange.RenderAll(st, TypicalRange.Slots(st, TypicalRange.BoundsOf(k, start, end)))
  }

  /** No token of an expansion is the empty string, so `compact` keeps every one of them. */
  lemma ExpandNonEmpty(k: TimeKind, start: string, end: string)
    requires Expandable(k, start, end)
    ensures forall i :: 0 <= i < |Expand(k, start, end)| ==> Expand(k, start, end)[i] != []
  {
    if k == Year {
      YearRangeElements(Fields(Year, start)[0], Fields(Year, end)[0]);
    }
  }

  /** A start year one past the end year makes the outer `range(startYear, endYear + 1)` empty:
      every expander returns no token at all. */
  lemma ExpandEmptyWhenYearsCross(k: TimeKind, start: string, end: string)
    requires Matches(k, start) && Matches(k, end)
    requires Fields(k, start)[0] == Fields(k, end)[0] + 1
    ensures Expandable(k, start, end) && Expand(k, start, end) == []
  {
    match k
    case Year =>
    case Date =>
      var b := DateRange.DateBoundsOf(start, end);
      assert DateRange.Days(b) == [];
    case _ =>
      var st := TypicalRange.SettingsFor(k);
      var b := TypicalRange.BoundsOf(k, start, end);
      assert TypicalRange.Slots(st, b) == [];
  }

  /** `OPTIONS[type](option)`: the year option maps over a range, the quarter, month and week
      options call `getTypicalRange` with their settings, the date option runs its own loops. */
  method ExtractLocalTimeRange(k: TimeKind, start: string, end: string) returns (r: seq<string>)
    requires Expandable(k, start, end)
    ensures r == Expand(k, start, end)
  {
    match k
    case Year =>
      var startYear := Fields(Year, start)[0];
      var endYear := Fields(Year, end)[0];
      r := YearRange(startYear, endYear);
    case Date =>
      r := DateRange.GetDateRange(DateRange.DateBoundsOf(start, end));
    case _ =>
      r := TypicalRange.GetTypicalRange(k, start, end, TypicalRange.SettingsFor(k));
  }

  /** The token written for the endpoint `s` itself: its captured numbers rendered the way the
      expander renders every token of the kind. */
  function Canonical(k: TimeKind, s: string): string
    requires Matches(k, s)
  {
    var f := Fields(k, s);
    match k
    case Year => Show(f[0])
    case Date => DateRange.Render(DateRange.Day(f[0], f[1], f[2]))
    case _ => TypicalRange.Render(TypicalRange.SettingsFor(k), TypicalRange.Slot(f[0], f[1]))
  }

  /** Ordered endpoints whose secondary values lie within the kind's limits. */
  predicate ValidFor(k: TimeKind, start: string, end: string)
    requires Matches(k, start) && Matches(k, end)
  {
    match k
    case Year => Fields(Year, start)[0] <= Fields(Year, end)[0]
    case Date => DateRange.ValidDateBounds(DateRange.DateBoundsOf(start, end))
    case _ => TypicalRange.ValidBounds(TypicalRange.SettingsFor(k), TypicalRange.BoundsOf(k, start, end))
  }

  /** With valid endpoints the expansion is defined, starts with the start's canonical token
      and ends with the end's. */
  lemma ExpandEndpoints(k: TimeKind, start: string, end: string)
    requires Matches(k, start) && Matches(k, end) && ValidFor(k, start, end)
    ensures Expandable(k, start, end)
    ensures var r := Expand(k, start, end);
      0 < |r| && r[0] == Canonical(k, start) && r[|r| - 1] == Canonical(k, end)
  {
    match k
    case Year =>
      YearRangeElements(Fields(Year, start)[0], Fields(Year, end)[0]);
    case Date =>
      DateEndpoints(start, end);
    case _ =>
      TypicalEndpoints(k, start, end);
  }

  lemma DateEndpoints(start: string, end: string)
    requires Matches(Date, start) && Matches(Date, end)
    requires DateRange.ValidDateBounds(DateRange.DateBoundsOf(start, end))
    ensures DateRange.CountsUp(DateRange.DateBoundsOf(start, end))
    ensures var r := DateRange.RenderAll(DateRange.Days(DateRange.DateBoundsOf(start, end)));
      0 < |r| && r[0] == Canonical(Date, start) && r[|r| - 1] == Canonical(Date, end)
  {
    var b := DateRange.DateBoundsOf(start, end);
    DateRange.ValidCountsUp(b);
    DateRange.DaysEndpoints(b);
  }

  lemma TypicalEndpoints(k: TimeKind, start: string, end: string)
    requires k != Year && k != Date && Matches(k, start) && Matches(k, end)
    requires TypicalRange.ValidBounds(TypicalRange.SettingsFor(k), TypicalRange.BoundsOf(k, start, end))
    ensures TypicalRange.CountsUp(TypicalRange.SettingsFor(k), TypicalRange.BoundsOf(k, start, end))
    ensures var st := TypicalRange.SettingsFor(k);
      var r := TypicalRange.RenderAll(st, TypicalRange.Slots(st, TypicalRange.BoundsOf(k, start, end)));
      0 < |r| && r[0] == Canonical(k, start) && r[|r| - 1] == Canonical(k, end)
  {
    var st := TypicalRange.SettingsFor(k);
    var b := TypicalRange.BoundsOf(k, start, end);
    TypicalRange.SlotsEndpoints(st, b);
  }

  /** No expansion repeats a token. */
  lemma ExpandDistinct(k: TimeKind, start: string, end: string)
    requires Expandable(k, start, end)
    ensures var r := Expand(k, start, end);
      forall i, j :: 0 <= i < j < |r| ==> r[i] != r[j]
  {
    match k
    case Year =>
      var r := Expand(k, start, end);
      var a := Fields(Year, start)[0];
      YearRangeElements(a, Fields(Year, end)[0]);
      forall i, j | 0 <= i < j < |r| ensures r[i] != r[j] {
        NumberShow(a + i);
        NumberShow(a + j);
      }
    case Date =>
      DateRange.RenderedDistinct(DateRange.DateBoundsOf(start, end));
    case _ =>
      TypicalRange.RenderedDistinct(k, TypicalRange.BoundsOf(k, start, end));
  }

  /** With valid endpoints and a start year of at least three significant digits, every token
      of the expansion is itself a token of the same kind. */
  lemma ExpandMatchesKind(k: TimeKind, start: string, end: string)
    requires Matches(k, start) && Matches(k, end) && ValidFor(k, start, end)
    requires 100 <= Fields(k, start)[0]
    ensures Expandable(k, start, end)
    ensures forall t :: t in Expand(k, start, end) ==> Matches(k, t)
  {
    ExpandEndpoints(k, start, end);
    match k
    case Year => YearTokensMatch(Fields(Year, start)[0], Fields(Year, end)[0]);
    case Date => DateTokensMatch(DateRange.DateBoundsOf(start, end));
    case _ => TypicalTokensMatch(k, TypicalRange.BoundsOf(k, start, end));
  }

  lemma YearTokensMatch(a: nat, b: nat)
    requires 100 <= a && b < 10000 && a <= b + 1
    ensures forall t :: t in YearRange(a, b) ==> Matches(Year, t)
  {
    var r := YearRange(a, b);
    YearRangeElements(a, b);
    forall t | t in r ensures Matches(Year, t) {
      var i :| 0 <= i < |r| && r[i] == t;
      ShowYearLength(a + i);
      ExecShape(Year, t, [t]);
    }
  }

  lemma DateTokensMatch(b: DateRange.DateBounds)
    requires DateRange.ValidDateBounds(b) && 100 <= b.startYear && b.endYear < 10000
    ensures DateRange.CountsUp(b)
    ensures forall t :: t in DateRange.RenderAll(DateRange.Days(b)) ==> Matches(Date, t)
  {
    DateRange.ValidCountsUp(b);
    var ts := DateRange.Days(b);
    var r := DateRange.RenderAll(ts);
    forall t | t in r ensures Matches(Date, t) {
      var i :| 0 <= i < |r| && r[i] == t;
      DateRange.DaysMembership(b, ts[i]);
      DateRange.RenderRoundTrip(ts[i]);
    }
  }

  lemma TypicalTokensMatch(k: TimeKind, b: TypicalRange.Bounds)
    requires k != Year && k != Date
    requires TypicalRange.ValidBounds(TypicalRange.SettingsFor(k), b)
    requires 100 <= b.startYear && b.endYear < 10000
    ensures TypicalRange.CountsUp(TypicalRange.SettingsFor(k), b)
    ensures forall t ::
      t in TypicalRange.RenderAll(TypicalRange.SettingsFor(k), TypicalRange.Slots(TypicalRange.SettingsFor(k), b))
      ==> Matches(k, t)
  {
    var st := TypicalRange.SettingsFor(k);
    var ts := TypicalRange.Slots(st, b);
    var r := TypicalRange.RenderAll(st, ts);
    forall t | t in r ensures Matches(k, t) {
      var i :| 0 <= i < |r| && r[i] == t;
      TypicalRange.SlotsMembership(st, b, ts[i]);
      TypicalRange.RenderRoundTrip(k, ts[i]);
    }
  }
}
