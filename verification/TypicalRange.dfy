/** `getTypicalRange`: the expansion of a `[start, end]` pair of quarters, months or weeks into
    every token from the start to the end, year by year, with the secondary value running
    between the kind's limits. */
module TypicalRange {
  import opened Decimal
  import opened TimeTypes

  /** The per-kind settings handed to `getTypicalRange`. */
  datatype Settings = Settings(minLimit: nat, maxLimit: nat, divider: string, appendZero: bool)

  const QuarterSettings := Settings(1, 4, "q", false)
  const MonthSettings := Settings(1, 12, "", true)
  const WeekSettings := Settings(1, 53, "w", true)

  function SettingsFor(k: TimeKind): Settings
    requires k in {Quarter, Month, Week}
  {
    match k
    case Quarter => QuarterSettings
    case Month => MonthSettings
    case Week => WeekSettings
  }

  /** A (year, secondary value) pair: one token of the expansion before it is rendered. */
  datatype Slot = Slot(year: nat, value: nat)

  /** The numeric fields of the two endpoints. */
  datatype Bounds = Bounds(startYear: nat, startValue: nat, endYear: nat, endValue: nat)

  /** The years and secondary values of a start and an end token (`parse` and `Number`). */
  function BoundsOf(k: TimeKind, start: string, end: string): Bounds
    requires k != Year && Matches(k, start) && Matches(k, end)
  {
    Bounds(Fields(k, start)[0], Fields(k, start)[1], Fields(k, end)[0], Fields(k, end)[1])
  }

  /** Every `range(a, b)` the expansion calls counts upwards (`a <= b`); lodash counts down
      otherwise, which is not modelled. A start year one past the end year gives the empty
      `range(startYear, endYear + 1)` and no inner range at all. */
  predicate CountsUp(st: Settings, b: Bounds) {
    b.startYear <= b.endYear + 1 && st.minLimit <= st.maxLimit + 1 &&
    (b.startYear <= b.endYear ==>
      if b.startYear == b.endYear then b.startValue <= b.endValue + 1
      else b.startValue <= st.maxLimit + 1 && st.minLimit <= b.endValue + 1)
  }

  /** The first secondary value visited in year `y`. */
  function Lo(st: Settings, b: Bounds, y: int): nat {
    if y == b.startYear then b.startValue else st.minLimit
  }

  /** The last secondary value visited in year `y`. */
  function Hi(st: Settings, b: Bounds, y: int): nat {
    if y == b.endYear then b.endValue else st.maxLimit
  }

  /** The slots of year `y` with values `lo` to `hi`. */
  function YearSlots(y: nat, lo: nat, hi: int): seq<Slot>
    decreases hi - lo
  {
    if hi < lo then [] else YearSlots(y, lo, hi - 1) + [Slot(y, hi)]
  }

  /** The slots of the years from the start year up to `y`. */
  function SlotsThrough(st: Settings, b: Bounds, y: int): seq<Slot>
    decreases y - b.startYear
  {
    if y < b.startYear then []
    else SlotsThrough(st, b, y - 1) + YearSlots(y as nat, Lo(st, b, y), Hi(st, b, y))
  }

  /** The enumeration the nested loops produce, before rendering. */
  function Slots(st: Settings, b: Bounds): seq<Slot> {
    SlotsThrough(st, b, b.endYear)
  }

  /** `year + divider + value`, the value with a leading '0' when padding is on and it is below 10. */
  function Render(st: Settings, t: Slot): string {
    Show(t.year) + st.divider
    + (if st.appendZero && t.value < TwoDigitsMinNumber then "0" + Show(t.value) else Show(t.value))
  }

  /** The rendered tokens of a sequence of slots, in order. */
  function RenderAll(st: Settings, ts: seq<Slot>): (r: seq<string>)
    ensures |r| == |ts|
  {
    seq(|ts|, i requires 0 <= i < |ts| => Render(st, ts[i]))
  }

  /** `getTypicalRange(option, settings)`: for each year from the start year to the end year, for
      each value from `Lo` to `Hi`, push the rendered token. */
  method GetTypicalRange(k: TimeKind, start: string, end: string, st: Settings) returns (result: seq<string>)
    requires k != Year && Matches(k, start) && Matches(k, end)
    requires CountsUp(st, BoundsOf(k, start, end))
    ensures result == RenderAll(st, Slots(st, BoundsOf(k, start, end)))
  {
    var b := BoundsOf(k, start, end);
    var startYear, startSecondMatch, endYear, endSecondMatch := b.startYear, b.startValue, b.endYear, b.endValue;
    result := [];
    ghost var slots: seq<Slot> := [];
    assert RenderAll(st, slots) == [];
    var year: int := startYear;
    while year <= endYear
      invariant startYear <= year <= endYear + 1
      invariant slots == SlotsThrough(st, b, year - 1)
      invariant result == RenderAll(st, slots)
    {
      var startValue := if year == startYear then startSecondMatch else st.minLimit;
      var endValue := if year == endYear then endSecondMatch else st.maxLimit;
      result := PushYear(result, st, year, startValue, endValue, slots);
      slots := slots + YearSlots(year, startValue, endValue);
      year := year + 1;
    }
  }

  /** The inner loop: the values `lo..hi` of one year, rendered and appended to `result`. */
  method PushYear(prefix: seq<string>, st: Settings, year: nat, lo: nat, hi: int, ghost before: seq<Slot>)
    returns (result: seq<string>)
    requires lo <= hi + 1
    requires prefix == RenderAll(st, before)
    ensures result == RenderAll(st, before + YearSlots(year, lo, hi))
  {
    result := prefix;
    ghost var slots := before;
    var value: int := lo;
    while value <= hi
      invariant lo <= value <= hi + 1
      invariant slots == before + YearSlots(year, lo, value - 1)
      invariant result == RenderAll(st, slots)
    {
      RenderAllSnoc(st, slots, Slot(year, value));
      result := result + [Render(st, Slot(year, value))];
      slots := slots + [Slot(year, value)];
      value := value + 1;
    }
  }

  lemma RenderAllSnoc(st: Settings, ts: seq<Slot>, t: Slot)
    ensures RenderAll(st, ts + [t]) == RenderAll(st, ts) + [Render(st, t)]
  {
    assert RenderAll(st, ts + [t])[|ts|] == Render(st, t);
  }

  /** Strict (year, value) order. */
  predicate Before(a: Slot, c: Slot) {
    a.year < c.year || (a.year == c.year && a.value < c.value)
  }

  predicate Ascending(ts: seq<Slot>) {
    forall i, j :: 0 <= i < j < |ts| ==> Before(ts[i], ts[j])
  }

  lemma AscendingAppend(a: seq<Slot>, c: seq<Slot>)
    requires Ascending(a) && Ascending(c)
    requires forall x, z :: x in a && z in c ==> Before(x, z)
    ensures Ascending(a + c)
  {
    forall i, j | 0 <= i < j < |a + c| ensures Before((a + c)[i], (a + c)[j]) {
      if j < |a| {
        assert (a + c)[i] == a[i] && (a + c)[j] == a[j];
      } else if i >= |a| {
        assert (a + c)[i] == c[i - |a|] && (a + c)[j] == c[j - |a|];
      } else {
        assert (a + c)[i] == a[i] && (a + c)[j] == c[j - |a|];
      }
    }
  }

  lemma {:induction false} YearSlotsMembership(y: nat, lo: nat, hi: int, t: Slot)
    ensures t in YearSlots(y, lo, hi) <==> t.year == y && lo <= t.value <= hi
    decreases hi - lo
  {
    if lo <= hi {
      YearSlotsMembership(y, lo, hi - 1, t);
    }
  }

  lemma {:induction false} YearSlotsAscending(y: nat, lo: nat, hi: int)
    ensures Ascending(YearSlots(y, lo, hi))
    decreases hi - lo
  {
    if lo <= hi {
      YearSlotsAscending(y, lo, hi - 1);
      forall x | x in YearSlots(y, lo, hi - 1) ensures Before(x, Slot(y, hi)) {
        YearSlotsMembership(y, lo, hi - 1, x);
      }
      AscendingAppend(YearSlots(y, lo, hi - 1), [Slot(y, hi)]);
    }
  }

  lemma {:induction false} YearSlotsLength(y: nat, lo: nat, hi: int)
    ensures |YearSlots(y, lo, hi)| == if hi < lo then 0 else hi - lo + 1
    decreases hi - lo
  {
    if lo <= hi {
      YearSlotsLength(y, lo, hi - 1);
    }
  }

  /** The slots up to year `y` are exactly the (year, value) pairs with the year between the start
      year and `y` and the value between that year's `Lo` and `Hi`. */
  lemma {:induction false} SlotsThroughMembership(st: Settings, b: Bounds, y: int, t: Slot)
    ensures t in SlotsThrough(st, b, y) <==>
      b.startYear <= t.year <= y && Lo(st, b, t.year) <= t.value <= Hi(st, b, t.year)
    decreases y - b.startYear
  {
    if b.startYear <= y {
      SlotsThroughMembership(st, b, y - 1, t);
      YearSlotsMembership(y as nat, Lo(st, b, y), Hi(st, b, y), t);
    }
  }

  lemma {:induction false} SlotsThroughAscending(st: Settings, b: Bounds, y: int)
    ensures Ascending(SlotsThrough(st, b, y))
    decreases y - b.startYear
  {
    if b.startYear <= y {
      var done := SlotsThrough(st, b, y - 1);
      var current := YearSlots(y as nat, Lo(st, b, y), Hi(st, b, y));
      SlotsThroughAscending(st, b, y - 1);
      YearSlotsAscending(y as nat, Lo(st, b, y), Hi(st, b, y));
      forall x, z | x in done && z in current ensures Before(x, z) {
        SlotsThroughMembership(st, b, y - 1, x);
        YearSlotsMembership(y as nat, Lo(st, b, y), Hi(st, b, y), z);
      }
      AscendingAppend(done, current);
    }
  }

  /** The expansion is exactly the tokens from the start to the end: every year between the
      endpoints' years, the start year from the start value, the end year up to the end value,
      and every other year over the kind's full range. */
  lemma SlotsMembership(st: Settings, b: Bounds, t: Slot)
    ensures t in Slots(st, b) <==>
      b.startYear <= t.year <= b.endYear && Lo(st, b, t.year) <= t.value <= Hi(st, b, t.year)
  {
    SlotsThroughMembership(st, b, b.endYear, t);
  }

  /** The expansion is strictly ascending by (year, value), hence free of repeated slots. */
  lemma SlotsAscending(st: Settings, b: Bounds)
    ensures Ascending(Slots(st, b))
  {
    SlotsThroughAscending(st, b, b.endYear);
  }

  lemma {:induction false} SlotsThroughLength(st: Settings, b: Bounds, y: int)
    requires CountsUp(st, b) && b.startYear <= y < b.endYear
    ensures |SlotsThrough(st, b, y)| ==
      (st.maxLimit - b.startValue + 1) + (y - b.startYear) * (st.maxLimit - st.minLimit + 1)
    decreases y - b.startYear
  {
    YearSlotsLength(y as nat, Lo(st, b, y), Hi(st, b, y));
    if b.startYear < y {
      SlotsThroughLength(st, b, y - 1);
      var w := st.maxLimit - st.minLimit + 1;
      assert (y - 1 - b.startYear) * w + w == (y - b.startYear) * w;
    }
  }

  /** The length of the expansion: `e - s + 1` within one year, otherwise the rest of the start
      year, the full years between, and the beginning of the end year. */
  lemma SlotsLength(st: Settings, b: Bounds)
    requires CountsUp(st, b)
    ensures |Slots(st, b)| ==
      if b.endYear < b.startYear then 0
      else if b.startYear == b.endYear then b.endValue - b.startValue + 1
      else ((st.maxLimit - b.startValue + 1)
        + (b.endYear - b.startYear - 1) * (st.maxLimit - st.minLimit + 1)
        + (b.endValue - st.minLimit + 1))
  {
    var y: int := b.endYear;
    YearSlotsLength(b.endYear, Lo(st, b, y), Hi(st, b, y));
    if b.endYear < b.startYear {
    } else if b.startYear < b.endYear {
      SlotsThroughLength(st, b, y - 1);
    } else {
      assert SlotsThrough(st, b, y - 1) == [];
    }
  }

  /** Endpoints inside the kind's limits, the start not after the end. */
  predicate ValidBounds(st: Settings, b: Bounds) {
    st.minLimit <= b.startValue <= st.maxLimit && st.minLimit <= b.endValue <= st.maxLimit
    && !Before(Slot(b.endYear, b.endValue), Slot(b.startYear, b.startValue))
  }

  predicate AtMost(a: Slot, c: Slot) {
    a == c || Before(a, c)
  }

  /** With valid endpoints the expansion holds every in-limit slot between them, inclusive. */
  lemma SlotsBetween(st: Settings, b: Bounds, t: Slot)
    requires ValidBounds(st, b)
    ensures t in Slots(st, b) <==>
      AtMost(Slot(b.startYear, b.startValue), t) && AtMost(t, Slot(b.endYear, b.endValue))
      && st.minLimit <= t.value <= st.maxLimit
  {
    SlotsMembership(st, b, t);
  }

  /** With valid endpoints the first token is the start and the last is the end. */
  lemma SlotsEndpoints(st: Settings, b: Bounds)
    requires ValidBounds(st, b)
    ensures var ts := Slots(st, b);
      0 < |ts| && ts[0] == Slot(b.startYear, b.startValue) && ts[|ts| - 1] == Slot(b.endYear, b.endValue)
  {
    var ts := Slots(st, b);
    var first, last := Slot(b.startYear, b.startValue), Slot(b.endYear, b.endValue);
    SlotsAscending(st, b);
    SlotsBetween(st, b, first);
    SlotsBetween(st, b, last);
    SlotsBetween(st, b, ts[0]);
    SlotsBetween(st, b, ts[|ts| - 1]);
    var i :| 0 <= i < |ts| && ts[i] == first;
    var j :| 0 <= j < |ts| && ts[j] == last;
  }

  /** Month and week values are written through `ZeroPadded`; quarters are never padded. */
  lemma RenderForm(k: TimeKind, t: Slot)
    requires k in {Quarter, Month, Week}
    ensures k == Quarter ==> Render(SettingsFor(k), t) == Show(t.year) + "q" + Show(t.value)
    ensures k == Month ==> Render(SettingsFor(k), t) == Show(t.year) + ZeroPadded(t.value)
    ensures k == Week ==> Render(SettingsFor(k), t) == Show(t.year) + "w" + ZeroPadded(t.value)
  {
    assert Show(t.year) + "" == Show(t.year);
  }

  /** Below one hundred, distinct slots render as distinct tokens. */
  lemma RenderInjective(k: TimeKind, a: Slot, c: Slot)
    requires k in {Quarter, Month, Week} && a.value < 100 && c.value < 100
    requires Render(SettingsFor(k), a) == Render(SettingsFor(k), c)
    ensures a == c
  {
    RenderForm(k, a);
    RenderForm(k, c);
    ZeroPaddedTwoDigits(a.value);
    ZeroPaddedTwoDigits(c.value);
    match k
    case Quarter =>
      assert "q" == ['q'];
      SeparatorUnique('q', Show(a.year), Show(a.value), Show(c.year), Show(c.value));
      ShowInjective(a.year, c.year);
      ShowInjective(a.value, c.value);
    case Week =>
      assert "w" == ['w'];
      SeparatorUnique('w', Show(a.year), ZeroPadded(a.value), Show(c.year), ZeroPadded(c.value));
      ShowInjective(a.year, c.year);
      ZeroPaddedInjective(a.value, c.value);
    case Month =>
      var r := Render(SettingsFor(k), a);
      SplitAt(r, Show(a.year), ZeroPadded(a.value));
      SplitAt(r, Show(c.year), ZeroPadded(c.value));
      ShowInjective(a.year, c.year);
      ZeroPaddedInjective(a.value, c.value);
  }

  /** The expansion of endpoints whose values have at most two digits repeats no token. */
  lemma RenderedDistinct(k: TimeKind, b: Bounds)
    requires k in {Quarter, Month, Week} && b.startValue < 100 && b.endValue < 100
    ensures var r := RenderAll(SettingsFor(k), Slots(SettingsFor(k), b));
      forall i, j :: 0 <= i < j < |r| ==> r[i] != r[j]
  {
    var st := SettingsFor(k);
    var ts := Slots(st, b);
    SlotsAscending(st, b);
    forall i, j | 0 <= i < j < |ts| ensures Render(st, ts[i]) != Render(st, ts[j]) {
      SlotsMembership(st, b, ts[i]);
      SlotsMembership(st, b, ts[j]);
      if Render(st, ts[i]) == Render(st, ts[j]) {
        RenderInjective(k, ts[i], ts[j]);
      }
    }
  }

  /** A rendered token with a three- or four-digit year is again a token of its kind, and the
      pattern reads back its year and value. */
  lemma RenderRoundTrip(k: TimeKind, t: Slot)
    requires k in {Quarter, Month, Week} && 100 <= t.year <= 9999
    requires t.value < (if k == Quarter then 10 else 100)
    ensures Matches(k, Render(SettingsFor(k), t))
    ensures Fields(k, Render(SettingsFor(k), t)) == [t.year, t.value]
  {
    ShowYearLength(t.year);
    NumberShow(t.year);
    RenderForm(k, t);
    match k
    case Quarter => QuarterRoundTrip(t);
    case Month => MonthRoundTrip(t);
    case Week => WeekRoundTrip(t);
  }

  lemma QuarterRoundTrip(t: Slot)
    requires 3 <= |Show(t.year)| <= 4 && Number(Show(t.year)) == t.year && t.value < 10
    requires Render(SettingsFor(Quarter), t) == Show(t.year) + "q" + Show(t.value)
    ensures Matches(Quarter, Render(SettingsFor(Quarter), t))
    ensures Fields(Quarter, Render(SettingsFor(Quarter), t)) == [t.year, t.value]
  {
    var s := Render(SettingsFor(Quarter), t);
    NumberShow(t.value);
    ShowLengthBound(t.value, 1);
    assert Pow10(1) == 10;
    var g := [Show(t.year), Show(t.value)];
    assert Shape(Quarter, s, g);
    FieldsOfShape(Quarter, s, g);
  }

  lemma MonthRoundTrip(t: Slot)
    requires 3 <= |Show(t.year)| <= 4 && Number(Show(t.year)) == t.year && t.value < 100
    requires Render(SettingsFor(Month), t) == Show(t.year) + ZeroPadded(t.value)
    ensures Matches(Month, Render(SettingsFor(Month), t))
    ensures Fields(Month, Render(SettingsFor(Month), t)) == [t.year, t.value]
  {
    var s := Render(SettingsFor(Month), t);
    ZeroPaddedTwoDigits(t.value);
    var g := [Show(t.year), ZeroPadded(t.value)];
    assert Shape(Month, s, g);
    FieldsOfShape(Month, s, g);
  }

  lemma WeekRoundTrip(t: Slot)
    requires 3 <= |Show(t.year)| <= 4 && Number(Show(t.year)) == t.year && t.value < 100
    requires Render(SettingsFor(Week), t) == Show(t.year) + "w" + ZeroPadded(t.value)
    ensures Matches(Week, Render(SettingsFor(Week), t))
    ensures Fields(Week, Render(SettingsFor(Week), t)) == [t.year, t.value]
  {
    var s := Render(SettingsFor(Week), t);
    ZeroPaddedTwoDigits(t.value);
    var g := [Show(t.year), ZeroPadded(t.value)];
    assert Shape(Week, s, g);
    FieldsOfShape(Week, s, g);
  }
}
