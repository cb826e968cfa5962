# ddf-time-utils: time-token classifier, range expander and time-range query

This project models the core of ddf-time-utils, the DDF library that reads compact time tokens.
It covers four parts of that library.

- **Classifier.** `detectTimeType` tests every literal of a query against five anchored patterns:
  - year `^(\d{3,4})$`
  - quarter `^(\d{3,4})q(\d{1})$`
  - month `^(\d{3,4})(\d{2})$`
  - week `^(\d{3,4})w(\d{1,2})$`
  - date `^(\d{3,4})(\d{2})(\d{2})$`

  It returns the one kind matched, or null when the matches cover no kind or several.
- **Expander.** `extractLocalTimeRange` turns a `[start, end]` pair of one kind into every token from start to end.
  - `parse` supplies the captured numbers.
  - The year expander enumerates the years.
  - `getTypicalRange` runs nested loops for quarters (1–4, `q`, no padding), months (1–12, no divider, padded) and weeks (1–53, `w`, padded).
  - The date expander runs three nested loops with days fixed at 1–31.
- **Query.** `getTimeRange` keeps string elements, replaces each pair by its expansion, drops everything else, flattens and compacts.
- **`TIME_TYPES_DDF_COMPATIBLE`**: `'time'` followed by the lower-cased kind names without `_TYPE`.
- **`parseTime`**: its guard. The date library's strict UTC parse is a function parameter.

`src/index.ts` and its CommonJS copy `index.js` hold the same logic. The model follows `src/index.ts`, and the table below cites it. Here is where each piece is in `index.js`:

| piece | `index.js` |
|---|---|
| patterns | 22-26 |
| pattern table | 28-49 |
| `parse` | 52-60 |
| `getTypicalRange` | 62-86 |
| year expander | 89-96 |
| settings | 97-99 |
| date expander | 100-128 |
| `detectTimeType` | 134-143 |
| `getTimeRange` | 145-171 |
| `parseTime` | 182-201 |

## Modules

Each module is a `.dfy` file of the same name.

- **Optional**: the `Option` result type; `None` plays the role of the source's `null`.
- **Decimal**:
  - `Number` models JavaScript `Number` on digit strings.
  - `Show` models `${n}`.
  - `ZeroPadded` models the `0${v}` padding below `TWO_DIGITS_MIN_NUMBER`.
- **Regex**: an anchored backtracking matcher for the atoms the patterns use, which are digit runs `\d{m,n}` and literal characters. It is proved sound and complete against a declarative reading (`Decomposes`).
- **TimeTypes**:
  - the closed `TimeKind` datatype (the source's symbols) and the pattern table;
  - `Exec`/`Matches` (`regularExp.exec`/`test`), `Groups`/`Fields` (`parse`);
  - `TIME_TYPES_AS_STRINGS` and `TIME_TYPES_DDF_COMPATIBLE`.
- **TypicalRange**: `getTypicalRange` as a method with nested loops (`GetTypicalRange`, with the inner loop in `PushYear`). It is proved equal to a specification on `(year, value)` slots, and the enumeration's properties are proved.
- **DateRange**: the date expander as a method with three nested loops (`GetDateRange`, `PushMonths`, `PushDays`). It is proved equal to a specification on `(year, month, day)` triples, with the same kinds of properties.
- **LocalTimeRange**: `extractLocalTimeRange(type)` applied to a pair (`ExtractLocalTimeRange`, specified by `Expand`), with its endpoint, ordering, distinctness and kind-preservation lemmas.
- **Query**: `detectTimeType`, `getTimeRange` and the guard of `parseTime`, with their characterisations and the test suite's concrete cases.

### Behaviour a reader may not expect

**The expansion returns canonical endpoints, not the tokens themselves.** Every token of an expansion is rendered from its captured numbers, so the first and last tokens are the canonical renderings of the endpoints rather than the endpoint strings themselves:
- the week `2000w1` expands starting with `2000w01`;
- the year `0200` expands starting with `200`.

The model states this in `LocalTimeRange.Canonical` and `LocalTimeRange.ExpandEndpoints`.

**Captured groups follow the backtracking regex.** The greedy year group gives digits back, so the groups are not always what a reader expects:
- `19832` is a month token with year `198` and month `32`;
- `2010125` is a date token with year `201`, month `01` and day `25`.

The model states this in `TimeTypes.BacktrackingSplits`.

**A start year one past the end year gives an empty expansion.** `range(startYear, endYear + 1)` is then empty, so the pair `['2001q1', '2000q1']` expands to no token at all (`LocalTimeRange.ExpandEmptyWhenYearsCross`).

## Model

| member | source | states |
|---|---|---|
| Regex.MatchSound | src/index.ts:25-29 | a match the backtracking matcher reports is a decomposition of the string into the pattern's atoms |
| Regex.MatchComplete | src/index.ts:25-29 | if the string decomposes into the pattern's atoms, the backtracking matcher finds a match |
| Regex.MatchIffUnique | src/index.ts:25-29 | when the decomposition is unique, `exec` returns exactly those groups |
| TimeTypes.Exec | src/index.ts:68-69 | `regularExp.exec` of the kind's pattern: the backtracking matcher on the pattern's atoms; see `ExecShape` |
| TimeTypes.Matches | src/index.ts:154 | `regularExp.test`: `exec` finds a match; see `MatchesRecognized` and `PatternsExclusive` |
| TimeTypes.ExecShape | src/index.ts:25-29 | `exec` of a kind's pattern returns groups `g` exactly when `s` has that kind's concrete shape with groups `g` |
| TimeTypes.ShapeUnique | src/index.ts:25-29 | a string has at most one group split for each kind |
| TimeTypes.MatchesRecognized | src/index.ts:25-29 | `test` succeeds exactly when the string has the kind's shape: year 3–4 digits; quarter year, `q`, 1 digit; month 5–6 digits; week year, `w`, 1–2 digits; date 7–8 digits |
| TimeTypes.PatternsExclusive | src/index.ts:25-29 | no string matches two different kinds |
| TimeTypes.BacktrackingSplits | src/index.ts:25-29 | `19832` splits into year `198` and month `32`; `2010125` into `201`, `01`, `25` |
| TimeTypes.Groups | src/index.ts:67-75 | the captured groups of a matching token satisfy the kind's shape |
| TimeTypes.Fields | src/index.ts:67-75 | `parse` followed by `Number` gives one number per group; the year is below 10000, a quarter below 10, other secondary values and the day below 100 |
| TimeTypes.FieldsOfShape | src/index.ts:67-75 | for a token of a given shape, the parsed numbers are the decimal values of its groups |
| TimeTypes.ReplaceFirstAfter | src/index.ts:63 | `replace(/_TYPE/, '')` removes the first occurrence and keeps everything before and after it |
| TimeTypes.TimeTypesDdfCompatible | src/index.ts:61-64 | `'time'` followed by each kind name with `_TYPE` replaced and lower-cased; see `TimeTypesDdfCompatibleValue` |
| TimeTypes.TimeTypesDdfCompatibleValue | src/index.ts:59-64 | `TIME_TYPES_DDF_COMPATIBLE` is exactly `['time','year','quarter','month','week','date']` |
| Decimal.Show | src/index.ts:110 | `${n}`: a non-empty string of decimal digits; see `NumberShow` and `ShowInjective` |
| Decimal.Number | src/index.ts:79-82 | JavaScript `Number` on a captured digit string; see `NumberShow` and `NumberBound` |
| Decimal.ZeroPadded | src/index.ts:130 | `0${v}` below `TWO_DIGITS_MIN_NUMBER`, `${v}` otherwise; see `ZeroPaddedTwoDigits` and `ZeroPaddedInjective` |
| Decimal.NumberShow | src/index.ts:110 | reading back a year written with `${year}` gives the year |
| Decimal.ShowInjective | src/index.ts:110 | different numbers are written differently |
| Decimal.ShowYearLength | src/index.ts:25 | a number is written with 3–4 digits exactly when it lies in 100..9999 |
| Decimal.ZeroPaddedTwoDigits | src/index.ts:130 | a value below 100, padded below `TWO_DIGITS_MIN_NUMBER`, is two digits that read back as the value |
| Decimal.ZeroPaddedInjective | src/index.ts:135 | different values below 100 pad to different strings |
| TypicalRange.BoundsOf | src/index.ts:78-82 | the start and end years and secondary values that `parse` and `Number` give; see `TimeTypes.FieldsOfShape` |
| TypicalRange.Render | src/index.ts:94-96 | `year + settings.divider + value`, the value padded when `isAppendZero` holds and it is below 10; see `RenderForm` and `RenderRoundTrip` |
| TypicalRange.GetTypicalRange | src/index.ts:77-101 | the nested loops push exactly the rendering of the slot enumeration: start year from the start value, end year up to the end value, other years over the full `minLimit..maxLimit` |
| TypicalRange.PushYear | src/index.ts:93-97 | the inner loop appends the renderings of one year's values `lo..hi` |
| TypicalRange.SlotsMembership | src/index.ts:89-98 | a slot is enumerated exactly when its year is within the endpoints and its value within that year's bounds |
| TypicalRange.SlotsAscending | src/index.ts:89-98 | the enumeration is strictly ascending by (year, value) |
| TypicalRange.SlotsLength | src/index.ts:89-98 | the count is 0 when the start year is one past the end year, `e−s+1` in a single year, and otherwise `(max−s+1) + (ey−sy−1)·(max−min+1) + (e−min+1)` |
| TypicalRange.SlotsBetween | src/index.ts:89-98 | with valid endpoints, the enumeration holds exactly the in-limit slots between start and end inclusive |
| TypicalRange.SlotsEndpoints | src/index.ts:89-98 | with valid endpoints, the enumeration is non-empty, starts at the start slot and ends at the end slot |
| TypicalRange.RenderForm | src/index.ts:112-114 | quarters render `year + 'q' + value` unpadded; months `year + value` padded; weeks `year + 'w' + value` padded |
| TypicalRange.RenderInjective | src/index.ts:94-96 | two slots with values below 100 render differently unless equal |
| TypicalRange.RenderedDistinct | src/index.ts:89-98 | the expansion repeats no token |
| TypicalRange.RenderRoundTrip | src/index.ts:94-96 | every rendered slot with a 3–4 digit year matches its kind's pattern and parses back to its year and value |
| DateRange.DateBoundsOf | src/index.ts:117-123 | the start and end years, months and days that `parse` and `Number` give; see `TimeTypes.FieldsOfShape` |
| DateRange.Render | src/index.ts:130-137 | `${year}${monthStr}${dayStr}` with month and day padded below 10; see `RenderInjective` and `RenderRoundTrip` |
| DateRange.GetDateRange | src/index.ts:115-143 | the three nested loops push exactly the rendering of the day enumeration |
| DateRange.PushMonths | src/index.ts:129-139 | the month loop appends the days of one year's months `currentStartMonth..currentEndMonth` |
| DateRange.PushDays | src/index.ts:134-138 | the day loop appends the renderings of one month's days `lo..hi` |
| DateRange.DaysMembership | src/index.ts:125-140 | a day is enumerated exactly when its year is within the endpoints, its month within that year's bounds and its day within that month's bounds (start day only in the first month, end day only in the last, 1–31 elsewhere) |
| DateRange.DaysAscending | src/index.ts:125-140 | the enumeration is strictly ascending by (year, month, day) |
| DateRange.ValidCountsUp | src/index.ts:125-140 | ordered, in-range endpoints never make a loop count downwards |
| DateRange.DaysBetween | src/index.ts:125-140 | with valid endpoints, the enumeration holds exactly the days with month 1–12 and day 1–31 between start and end inclusive |
| DateRange.DaysEndpoints | src/index.ts:125-140 | with valid endpoints, the enumeration is non-empty, starts at the start day and ends at the end day |
| DateRange.RenderInjective | src/index.ts:130-137 | `${year}${monthStr}${dayStr}` is injective for months and days below 100 |
| DateRange.RenderedDistinct | src/index.ts:125-140 | the date expansion repeats no token |
| DateRange.RenderRoundTrip | src/index.ts:130-137 | every rendered day with a 3–4 digit year is a date token that parses back to its year, month and day |
| LocalTimeRange.YearRange | src/index.ts:104-111 | the year expansion of `a..b` has `b−a+1` tokens |
| LocalTimeRange.YearRangeElements | src/index.ts:104-111 | the `i`-th year token is `${a+i}` |
| LocalTimeRange.YearRangeReadsBack | src/index.ts:104-111 | the year tokens are digit strings reading back as `a, a+1, …, b` in ascending order |
| LocalTimeRange.ExtractLocalTimeRange | src/index.ts:103-146 | `OPTIONS[type]` applied to a pair: the year, typical or date expander, as chosen by the kind |
| LocalTimeRange.ExpandEmptyWhenYearsCross | src/index.ts:89 | a start year one past the end year is expandable, and every expander then returns no token |
| LocalTimeRange.ExpandNonEmpty | src/index.ts:103-146 | no expanded token is the empty string |
| LocalTimeRange.ExpandEndpoints | src/index.ts:103-146 | with valid ordered endpoints, the expansion is non-empty, its first token is the start's canonical rendering and its last the end's |
| LocalTimeRange.ExpandDistinct | src/index.ts:103-146 | no expansion repeats a token |
| LocalTimeRange.ExpandMatchesKind | src/index.ts:103-146 | with valid endpoints and a year of at least 100, every expanded token is itself a token of the kind |
| Query.FlattenElementsMembers | src/index.ts:150 | one-level `flatten` keeps exactly the literals of the elements, both endpoints of each pair included |
| Query.FilterMatchingMembers | src/index.ts:153-154 | the filter keeps exactly the kinds whose pattern the literal matches |
| Query.KindsOfAtMostOne | src/index.ts:153-154 | a literal matches at most one kind, and the kinds listed are exactly those it matches |
| Query.CollectKindsMembers | src/index.ts:151-155 | the flattened kinds are exactly the kinds some literal matches |
| Query.Uniq | src/index.ts:151 | lodash `uniq`, keeping first occurrences; see `UniqSpec` |
| Query.UniqSpec | src/index.ts:151 | `uniq` keeps exactly the same members and repeats none |
| Query.DetectTimeType | src/index.ts:149-158 | `detectTimeType`: the head of the unique matched kinds when there is exactly one, null otherwise; see `DetectTimeTypeIff` |
| Query.DetectTimeTypeIff | src/index.ts:149-158 | `detectTimeType` returns `k` exactly when the set of kinds matched by the flattened literals is `{k}` |
| Query.DetectSingleKind | src/index.ts:149-158 | a bare literal is classified as `k` exactly when it matches `k` |
| Query.DetectSingleNone | src/index.ts:149-158 | a bare literal gives null exactly when it matches no kind |
| Query.UnmatchedAddsNothing | src/index.ts:149-158 | appending an element whose literals match no kind leaves the classification unchanged |
| Query.SameLiteralsSameKind | src/index.ts:149-158 | queries with the same literals are classified alike |
| Query.MixedKindsUndetected | src/index.ts:157 | a query with literals of two different kinds gives null |
| Query.DetectYearExample | test/main.spec.ts:61-65 | `'2000'` is a year |
| Query.DetectQuarterExample | test/main.spec.ts:67-71 | `'2000q1'` is a quarter |
| Query.DetectMonthExample | test/main.spec.ts:73-77 | `'200001'` is a month |
| Query.DetectWeekExample | test/main.spec.ts:79-83 | `'2000w01'` is a week |
| Query.DetectDateExample | test/main.spec.ts:85-89 | `'2000102'` is a date |
| Query.DetectMalformedExample | test/main.spec.ts:91-95 | `'200x0102'` gives null |
| Query.DetectEmptyExample | test/fixtures/incorrect-queries.js:8 | the empty query gives null |
| Query.DetectForeignExample | test/fixtures/incorrect-queries.js:9 | `['foo']` gives null |
| Query.DetectMixedExample | test/fixtures/incorrect-queries.js:10 | `['2015', '2011q1']` gives null |
| Query.ByQueryType | src/index.ts:169-181 | `getTimeByQueryType`: a string stays, an array becomes its expansion, anything else is null; see `ElementCompact` |
| Query.MapFlatten | src/index.ts:183-185 | `flatten(query.map(getTimeByQueryType))`; see `MapFlattenCompact` |
| Query.Compact | src/index.ts:183 | `compact` keeps at most as many entries as it is given |
| Query.CompactMembers | src/index.ts:183 | `compact` keeps exactly the non-empty strings |
| Query.CompactAppend | src/index.ts:183 | `compact` distributes over concatenation |
| Query.CompactStrs | src/index.ts:183 | `compact` leaves a list of non-empty strings as it is |
| Query.MapFlattenCompact | src/index.ts:183-185 | compacting the mapped and flattened query gives, in input order, the element-by-element reference reading |
| Query.ElementCompact | src/index.ts:169-181 | one element: a non-empty string stays, a pair becomes its expansion, and anything else disappears |
| Query.GetTimeRange | src/index.ts:160-186 | `getTimeRange` is null exactly when detection is null |
| Query.GetTimeRangeSpec | src/index.ts:160-186 | null when no kind is detected; otherwise the concatenation, in input order, of each element's contribution under the detected kind |
| Query.ContributionsAppend | src/index.ts:183-185 | the result of a concatenated query is the concatenation of the parts' results |
| Query.PairsExpandableAppend | src/index.ts:184 | a concatenated query has expandable pairs exactly when both parts do |
| Query.GetTimeRangeSingleToken | test/main.spec.ts:15-19 | a query of one plain token returns that token |
| Query.GetTimeRangeSinglePair | src/index.ts:160-186 | a query of one expandable pair returns the pair's expansion |
| Query.GetTimeRangeUndetected | test/main.spec.ts:33-44 | a query with no detected kind returns null |
| Query.ParseTime | src/index.ts:197-216 | a parsed time's type is one of `TIME_TYPES_AS_STRINGS` |
| Query.ParseTimeSpec | src/index.ts:197-216 | a token of kind `k` is parsed with `k`'s `patternDate` and labelled with `k`'s name, or is null when the parse is invalid; a literal of no kind is null |

## Left out

- `formatTime`: it only calls the date library's formatter, which is not part of this model.
- `parseTime`'s strict UTC parse, calendar and ISO-week validity and epoch-millisecond values belong to the date library (moment). `Query.ParseTime` takes them as a function parameter `utc`.
- script.js, a console demo, is not part of this model.
- Lodash `range` counting downwards when start exceeds end. Every expander requires that its ranges count upwards (`TypicalRange.CountsUp`, `DateRange.CountsUp`, `LocalTimeRange.CountsUpFor`). These are exactly the conditions under which no `range` call counts down. They admit a start year one past the end year, where the outer range is empty. They also admit the structurally valid but calendrically invalid endpoints the source accepts (month `44`, day `48`).
- Pairs whose endpoints do not match the detected kind are left out, because `exec` returns null there and `parse` throws. `LocalTimeRange.Expandable` and `Query.WellFormedQuery` require that endpoints match.
- Arrays of other lengths are left out; a pair is exactly two strings. Nested arrays inside a pair are also left out.
- `getTimeRange` on a non-array query throws in the source (`query.map`). The model takes only an element list.
- Non-string elements: the JavaScript values themselves are not modelled. An `Other` element carries the string that `RegExp.prototype.test` coerces it to, and `getTimeRange` drops it.
- The Symbol registry is modelled as the closed datatype `TimeKind`, with `KindName` for `Symbol.keyFor`.
- Numbers are unbounded naturals. JavaScript's double-precision `Number` agrees with them on 3–4 digit years and 1–2 digit values.
- Memory and time for very large year spans are not modelled.
- TypicalRange.GetTypicalRange and DateRange.GetDateRange: the innermost loops are separate methods (`PushYear`, `PushMonths`, `PushDays`), and `result` is a local sequence rather than an array the closures push into. The order of pushes is the same.
- LocalTimeRange.Expand: has no `ensures` of its own. Its properties are the lemmas `ExpandNonEmpty`, `ExpandEndpoints`, `ExpandDistinct` and `ExpandMatchesKind`.
