/** `detectTimeType`, `getTimeRange` and the guard of `parseTime`: the functions that take a
    time query, classify its literals and expand its pairs. */
module Query {
  import opened Optional
  import opened Decimal
  import opened TimeTypes
  import LocalTimeRange

  /** One element of a query array. `Token` is a string element, `Pair` a two-element array
      (each endpoint as the string the regexes see), `Other` any other value, kept as the string
      `RegExp.prototype.test` coerces it to. */
  datatype Element = Token(text: string) | Pair(start: string, end: string) | Other(coerced: string)

  /** `detectTimeType` accepts a bare literal or an array. */
  datatype TimeQuery = Single(literal: string) | Many(elements: seq<Element>)

  /** What `flatten` puts in place of one element. */
  function ElementLiterals(e: Element): seq<string> {
    match e
    case Token(s) => [s]
    case Pair(a, b) => [a, b]
    case Other(s) => [s]
  }

  function FlattenElements(es: seq<Element>): seq<string> {
    if es == [] then [] else FlattenElements(es[..|es| - 1]) + ElementLiterals(es[|es| - 1])
  }

  /** Flattening keeps exactly the literals of the elements. */
  lemma {:induction false} FlattenElementsMembers(es: seq<Element>)
    ensures forall s :: s in FlattenElements(es) <==> exists e :: e in es && s in ElementLiterals(e)
    decreases |es|
  {
    if es != [] {
      var init := es[..|es| - 1];
      FlattenElementsMembers(init);
      assert forall e :: e in es <==> e in init || e == es[|es| - 1];
    }
  }

  /** `plainTimeQuery`: the query flattened one level, or the bare literal on its own. */
  function PlainTimeQuery(q: TimeQuery): seq<string> {
    match q
    case Single(s) => [s]
    case Many(es) => FlattenElements(es)
  }

  /** The kinds, in the pattern table's order, whose pattern `test`s true on `s`. */
  function FilterMatching(ks: seq<TimeKind>, s: string): seq<TimeKind> {
    if ks == [] then []
    else (if Matches(ks[0], s) then [ks[0]] else []) + FilterMatching(ks[1..], s)
  }

  /** `filter` keeps exactly the listed kinds whose pattern matches. */
  lemma {:induction false} FilterMatchingMembers(ks: seq<TimeKind>, s: string)
    ensures forall k :: k in FilterMatching(ks, s) <==> k in ks && Matches(k, s)
    decreases |ks|
  {
    if ks != [] {
      FilterMatchingMembers(ks[1..], s);
      assert forall k :: k in ks <==> k == ks[0] || k in ks[1..];
    }
  }

  function KindsOf(s: string): seq<TimeKind> {
    FilterMatching(TimeTypesInOrder, s)
  }

  /** Every kind is in the pattern table, so `getOwnPropertySymbols` visits it. */
  lemma EveryKindListed(k: TimeKind)
    ensures k in TimeTypesInOrder
  {
    match k
    case Year => assert TimeTypesInOrder[0] == k;
    case Quarter => assert TimeTypesInOrder[1] == k;
    case Month => assert TimeTypesInOrder[2] == k;
    case Week => assert TimeTypesInOrder[3] == k;
    case Date => assert TimeTypesInOrder[4] == k;
  }

  /** Since the patterns exclude each other, a literal contributes at most one kind. */
  lemma KindsOfAtMostOne(s: string)
    ensures |KindsOf(s)| <= 1
    ensures forall k :: k in KindsOf(s) <==> Matches(k, s)
  {
    var r := KindsOf(s);
    FilterMatchingMembers(TimeTypesInOrder, s);
    forall k ensures k in r <==> Matches(k, s) {
      EveryKindListed(k);
    }
    if 2 <= |r| {
      PatternsExclusive(r[0], r[1], s);
      FilterOrdered(TimeTypesInOrder, s);
    }
  }

  lemma {:induction false} FilterOrdered(ks: seq<TimeKind>, s: string)
    requires forall i, j :: 0 <= i < j < |ks| ==> ks[i] != ks[j]
    ensures forall i, j :: 0 <= i < j < |FilterMatching(ks, s)| ==>
      FilterMatching(ks, s)[i] != FilterMatching(ks, s)[j]
  {
    if ks != [] {
      FilterOrdered(ks[1..], s);
      FilterMatchingMembers(ks[1..], s);
      var rest := FilterMatching(ks[1..], s);
      forall j | 0 <= j < |ks| - 1 ensures ks[1..][j] != ks[0] {
        assert ks[1..][j] == ks[j + 1];
      }
      assert ks[0] !in ks[1..];
      if Matches(ks[0], s) {
        var r := [ks[0]] + rest;
        forall i, j | 0 <= i < j < |r| ensures r[i] != r[j] {
          assert r[j] == rest[j - 1];
          if i == 0 {
            assert rest[j - 1] in rest;
          } else {
            assert r[i] == rest[i - 1];
          }
        }
      } else {
        assert FilterMatching(ks, s) == rest;
      }
    }
  }

  /** The matched kinds of every literal, concatenated (`flatten` of the mapped filters). */
  function CollectKinds(ls: seq<string>): seq<TimeKind> {
    if ls == [] then [] else CollectKinds(ls[..|ls| - 1]) + KindsOf(ls[|ls| - 1])
  }

  /** The collected kinds are exactly those some literal matches. */
  lemma {:induction false} CollectKindsMembers(ls: seq<string>)
    ensures forall k :: k in CollectKinds(ls) <==> exists s :: s in ls && Matches(k, s)
    decreases |ls|
  {
    if ls != [] {
      var init := ls[..|ls| - 1];
      CollectKindsMembers(init);
      KindsOfAtMostOne(ls[|ls| - 1]);
      assert forall s :: s in ls <==> s in init || s == ls[|ls| - 1];
    }
  }

  /** lodash `uniq`: the first occurrence of every value, in order. */
  function Uniq(xs: seq<TimeKind>): seq<TimeKind> {
    if xs == [] then []
    else
      var u := Uniq(xs[..|xs| - 1]);
      if xs[|xs| - 1] in u then u else u + [xs[|xs| - 1]]
  }

  /** `uniq` keeps every value and repeats none. */
  lemma {:induction false} UniqSpec(xs: seq<TimeKind>)
    ensures forall x :: x in Uniq(xs) <==> x in xs
    ensures forall i, j :: 0 <= i < j < |Uniq(xs)| ==> Uniq(xs)[i] != Uniq(xs)[j]
    decreases |xs|
  {
    if xs != [] {
      var init, x := xs[..|xs| - 1], xs[|xs| - 1];
      UniqSpec(init);
      assert xs == init + [x];
      var u := Uniq(init);
      if x !in u {
        var r := u + [x];
        forall i, j | 0 <= i < j < |r| ensures r[i] != r[j] {
          if j == |u| {
            assert r[i] == u[i];
          } else {
            assert r[i] == u[i] && r[j] == u[j];
          }
        }
      }
    }
  }

  /** `detectTimeType(timeQuery)`: the single kind that the literals of the query match. */
  function DetectTimeType(q: TimeQuery): Option<TimeKind> {
    var u := Uniq(CollectKinds(PlainTimeQuery(q)));
    if |u| == 1 then Some(u[0]) else None
  }

  /** The reference reading: the set of kinds that some literal of the query matches. */
  function MatchedKinds(q: TimeQuery): set<TimeKind> {
    set k | k in TimeTypesInOrder && exists s :: s in PlainTimeQuery(q) && Matches(k, s)
  }

  /** Detection returns `k` exactly when `k` is the one kind matched, and null otherwise. */
  lemma DetectTimeTypeIff(q: TimeQuery, k: TimeKind)
    ensures DetectTimeType(q) == Some(k) <==> MatchedKinds(q) == {k}
  {
    var ls := PlainTimeQuery(q);
    var u := Uniq(CollectKinds(ls));
    CollectKindsMembers(ls);
    UniqSpec(CollectKinds(ls));
    forall k' ensures k' in u <==> k' in MatchedKinds(q) {
      EveryKindListed(k');
    }
    if DetectTimeType(q) == Some(k) {
      forall k' ensures k' in MatchedKinds(q) <==> k' == k {
        assert k' in u <==> k' == u[0];
      }
      assert MatchedKinds(q) == {k};
    }
    if MatchedKinds(q) == {k} {
      assert k in u;
      if 2 <= |u| {
        FirstTwo(u);
        assert false;
      }
    }
  }

  /** Names the first two entries as members, so that the solver sees two distinct kinds in
      `u` where only one is matched; written as a call because in the branch it serves the
      facts already contradict each other. */
  lemma FirstTwo(u: seq<TimeKind>)
    ensures 2 <= |u| ==> u[0] in u && u[1] in u
  {
  }

  /** A bare literal is classified as the kind whose pattern it matches... */
  lemma DetectSingleKind(s: string, k: TimeKind)
    ensures DetectTimeType(Single(s)) == Some(k) <==> Matches(k, s)
  {
    var q := Single(s);
    DetectTimeTypeIff(q, k);
    assert PlainTimeQuery(q) == [s];
    if Matches(k, s) {
      forall k' ensures k' in MatchedKinds(q) <==> k' == k {
        EveryKindListed(k');
        if Matches(k', s) {
          PatternsExclusive(k, k', s);
        }
      }
      assert MatchedKinds(q) == {k};
    }
    if DetectTimeType(q) == Some(k) {
      assert k in MatchedKinds(q);
    }
  }

  /** ... and as null when it matches none. */
  lemma DetectSingleNone(s: string)
    ensures DetectTimeType(Single(s)) == None <==> forall k :: !Matches(k, s)
  {
    if DetectTimeType(Single(s)).Some? {
      DetectSingleKind(s, DetectTimeType(Single(s)).value);
    } else {
      forall k ensures !Matches(k, s) {
        DetectSingleKind(s, k);
      }
    }
  }

  /** Literals that match no pattern add nothing to the union. */
  lemma UnmatchedAddsNothing(es: seq<Element>, e: Element)
    requires forall k, s :: s in ElementLiterals(e) ==> !Matches(k, s)
    ensures DetectTimeType(Many(es + [e])) == DetectTimeType(Many(es))
  {
    var a, b := Many(es + [e]), Many(es);
    assert (es + [e])[..|es|] == es;
    assert PlainTimeQuery(a) == PlainTimeQuery(b) + ElementLiterals(e);
    forall k ensures k in MatchedKinds(a) <==> k in MatchedKinds(b) {
      EveryKindListed(k);
      if k in MatchedKinds(a) {
        var t :| t in PlainTimeQuery(a) && Matches(k, t);
        assert t in PlainTimeQuery(b);
      }
    }
    assert MatchedKinds(a) == MatchedKinds(b);
    if DetectTimeType(a).Some? {
      DetectTimeTypeIff(a, DetectTimeType(a).value);
      DetectTimeTypeIff(b, DetectTimeType(a).value);
    } else if DetectTimeType(b).Some? {
      DetectTimeTypeIff(a, DetectTimeType(b).value);
      DetectTimeTypeIff(b, DetectTimeType(b).value);
    }
  }

  // The examples below take their literal as a parameter fixed by `requires s == "…"` rather
  // than writing it inside the `ensures`: a call on a literal argument would have the verifier
  // unfold the whole classification on that constant, which is far more costly than the
  // step-by-step proof in each body.

  /** The library's own example: "2000" is classified as a year. */
  lemma DetectYearExample(s: string)
    requires s == "2000"
    ensures DetectTimeType(Single(s)) == Some(Year)
  {
    assert Run(s, 3, 4);
    ExecShape(Year, s, [s]);
    DetectSingleKind(s, Year);
  }

  /** The library's own example: "2000q1" is classified as a quarter. */
  lemma DetectQuarterExample(s: string)
    requires s == "2000q1"
    ensures DetectTimeType(Single(s)) == Some(Quarter)
  {
    var g := ["2000", "1"];
    assert s == g[0] + "q" + g[1];
    ExecShape(Quarter, s, g);
    DetectSingleKind(s, Quarter);
  }

  /** The library's own example: "200001" is classified as a month. */
  lemma DetectMonthExample(s: string)
    requires s == "200001"
    ensures DetectTimeType(Single(s)) == Some(Month)
  {
    var g := ["2000", "01"];
    assert s == g[0] + g[1];
    ExecShape(Month, s, g);
    DetectSingleKind(s, Month);
  }

  /** The library's own example: "2000w01" is classified as a week. */
  lemma DetectWeekExample(s: string)
    requires s == "2000w01"
    ensures DetectTimeType(Single(s)) == Some(Week)
  {
    var g := ["2000", "01"];
    assert s == g[0] + "w" + g[1];
    ExecShape(Week, s, g);
    DetectSingleKind(s, Week);
  }

  /** The library's own example: "2000102" is classified as a date. */
  lemma DetectDateExample(s: string)
    requires s == "2000102"
    ensures DetectTimeType(Single(s)) == Some(Date)
  {
    var g := ["200", "01", "02"];
    assert s == g[0] + g[1] + g[2];
    ExecShape(Date, s, g);
    DetectSingleKind(s, Date);
  }

  /** A literal with a letter where a digit or separator is due is no time token. */
  lemma DetectMalformedExample(s: string)
    requires s == "200x0102"
    ensures DetectTimeType(Single(s)) == None
  {
    assert s == "200" + ['x'] + "0102";
    LeadingDigits("200", 'x', "0102");
    forall k ensures !Matches(k, s) {
      MatchesRecognized(k, s);
      assert !IsDigit(s[3]);
    }
    DetectSingleNone(s);
  }

  /** The library's rejected queries: an empty query is null, ... */
  lemma DetectEmptyExample()
    ensures DetectTimeType(Many([])) == None
  {
    var empty := Many([]);
    forall k ensures DetectTimeType(empty) != Some(k) {
      DetectTimeTypeIff(empty, k);
      assert k !in MatchedKinds(empty);
    }
  }

  lemma SingleTokenLiterals(s: string)
    ensures forall t :: t in PlainTimeQuery(Many([Token(s)])) <==> t == s
  {
    assert [Token(s)][..0] == [];
    assert FlattenElements([Token(s)]) == [s];
  }

  /** ... a query of no time literal is null, ... */
  lemma DetectForeignExample(s: string)
    requires s == "foo"
    ensures DetectTimeType(Many([Token(s)])) == None
  {
    var foo := Many([Token(s)]);
    SingleTokenLiterals(s);
    assert LeadingDigitCount(s) == 0;
    forall k ensures DetectTimeType(foo) != Some(k) {
      DetectTimeTypeIff(foo, k);
      MatchesRecognized(k, s);
      assert !IsDigit(s[0]);
      assert k !in MatchedKinds(foo);
    }
  }

  /** Two literals of different kinds make a query undetected. */
  lemma MixedKindsUndetected(q: TimeQuery, s1: string, k1: TimeKind, s2: string, k2: TimeKind)
    requires s1 in PlainTimeQuery(q) && s2 in PlainTimeQuery(q)
    requires k1 != k2 && Matches(k1, s1) && Matches(k2, s2)
    ensures DetectTimeType(q) == None
  {
    LiteralKindMatched(q, s1, k1);
    LiteralKindMatched(q, s2, k2);
    if DetectTimeType(q).Some? {
      DetectTimeTypeIff(q, DetectTimeType(q).value);
      assert false;
    }
  }

  lemma TwoTokenLiterals(s1: string, s2: string)
    ensures s1 in PlainTimeQuery(Many([Token(s1), Token(s2)]))
    ensures s2 in PlainTimeQuery(Many([Token(s1), Token(s2)]))
  {
    var es := [Token(s1), Token(s2)];
    assert es[..1] == [Token(s1)] && [Token(s1)][..0] == [];
    assert FlattenElements([Token(s1)]) == [s1];
    assert FlattenElements(es) == FlattenElements(es[..1]) + [s2];
  }

  lemma LiteralKindMatched(q: TimeQuery, s: string, k: TimeKind)
    requires s in PlainTimeQuery(q) && Matches(k, s)
    ensures k in MatchedKinds(q)
  {
    EveryKindListed(k);
  }

  /** ... and a query mixing a year with a quarter is null. */
  lemma DetectMixedExample(a: string, b: string)
    requires a == "2015" && b == "2011q1"
    ensures DetectTimeType(Many([Token(a), Token(b)])) == None
  {
    ExecShape(Year, a, [a]);
    assert b == "2011" + "q" + "1";
    ExecShape(Quarter, b, ["2011", "1"]);
    TwoTokenLiterals(a, b);
    MixedKindsUndetected(Many([Token(a), Token(b)]), a, Year, b, Quarter);
  }

  /** The value `getTimeByQueryType` yields, as `flatten` and `compact` then see it. */
  datatype Value = Str(s: string) | Null

  /** A pair element is expandable for kind `k`; other elements need nothing. */
  predicate ElementExpandable(k: TimeKind, e: Element) {
    e.Pair? ==> LocalTimeRange.Expandable(k, e.start, e.end)
  }

  /** Every pair of the query is expandable for kind `k`. */
  predicate PairsExpandable(k: TimeKind, es: seq<Element>) {
    forall i :: 0 <= i < |es| ==> ElementExpandable(k, es[i])
  }

  /** What `getTimeRange` demands: once a kind is detected, every pair of the query is
      expandable for it. */
  predicate WellFormedQuery(es: seq<Element>) {
    DetectTimeType(Many(es)).Some? ==> PairsExpandable(DetectTimeType(Many(es)).value, es)
  }

  function Strs(r: seq<string>): (vs: seq<Value>)
    ensures |vs| == |r| && forall i :: 0 <= i < |r| ==> vs[i] == Str(r[i])
  {
    seq(|r|, i requires 0 <= i < |r| => Str(r[i]))
  }

  /** `getTimeByQueryType(option)`, one level flattened: a string is kept, an array is replaced
      by its expansion, anything else becomes null. */
  function ByQueryType(k: TimeKind, e: Element): seq<Value>
    requires ElementExpandable(k, e)
  {
    match e
    case Token(s) => [Str(s)]
    case Pair(a, b) => Strs(LocalTimeRange.Expand(k, a, b))
    case Other(_) => [Null]
  }

  /** `flatten(query.map(getTimeByQueryType))`. */
  function MapFlatten(k: TimeKind, es: seq<Element>): seq<Value>
    requires PairsExpandable(k, es)
  {
    if es == [] then [] else MapFlatten(k, es[..|es| - 1]) + ByQueryType(k, es[|es| - 1])
  }

  /** lodash `compact`: drops the falsy values, here null and the empty string. */
  function Compact(vs: seq<Value>): (r: seq<string>)
    ensures |r| <= |vs|
  {
    if vs == [] then []
    else Compact(vs[..|vs| - 1]) + Kept(vs[|vs| - 1])
  }

  /** What `compact` keeps of one value. */
  function Kept(v: Value): seq<string> {
    match v
    case Str(s) => if s == [] then [] else [s]
    case Null => []
  }

  /** `compact` keeps exactly the non-empty strings. */
  lemma {:induction false} CompactMembers(vs: seq<Value>)
    ensures forall s :: s in Compact(vs) <==> Str(s) in vs && s != []
    decreases |vs|
  {
    if vs != [] {
      var init := vs[..|vs| - 1];
      CompactMembers(init);
      assert vs == init + [vs[|vs| - 1]];
    }
  }

  /** `getTimeRange(query)` on an array query: null when no single kind is detected, otherwise
      the compacted, flattened results of `getTimeByQueryType`. */
  function GetTimeRange(es: seq<Element>): (r: Option<seq<string>>)
    requires WellFormedQuery(es)
    ensures r.None? <==> DetectTimeType(Many(es)).None?
  {
    match DetectTimeType(Many(es))
    case None => None
    case Some(k) => Some(Compact(MapFlatten(k, es)))
  }

  /** The reference reading, element by element: a non-empty string stays, a pair becomes its
      expansion, everything else disappears. */
  function Contribution(k: TimeKind, e: Element): seq<string>
    requires ElementExpandable(k, e)
  {
    match e
    case Token(s) => if s == [] then [] else [s]
    case Pair(a, b) => LocalTimeRange.Expand(k, a, b)
    case Other(_) => []
  }

  function Contributions(k: TimeKind, es: seq<Element>): seq<string>
    requires PairsExpandable(k, es)
  {
    if es == [] then [] else Contributions(k, es[..|es| - 1]) + Contribution(k, es[|es| - 1])
  }

  lemma {:induction false} CompactAppend(a: seq<Value>, c: seq<Value>)
    ensures Compact(a + c) == Compact(a) + Compact(c)
    decreases |c|
  {
    if c != [] {
      var c' := c[..|c| - 1];
      assert (a + c)[..|a + c| - 1] == a + c';
      CompactAppend(a, c');
    } else {
      assert a + c == a;
    }
  }

  lemma {:induction false} CompactStrs(r: seq<string>)
    requires forall i :: 0 <= i < |r| ==> r[i] != []
    ensures Compact(Strs(r)) == r
    decreases |r|
  {
    if r != [] {
      var r' := r[..|r| - 1];
      assert Strs(r)[..|r| - 1] == Strs(r');
      CompactStrs(r');
    }
  }

  lemma {:induction false} MapFlattenCompact(k: TimeKind, es: seq<Element>)
    requires PairsExpandable(k, es)
    ensures Compact(MapFlatten(k, es)) == Contributions(k, es)
    decreases |es|
  {
    if es != [] {
      var init, e := es[..|es| - 1], es[|es| - 1];
      assert init + [e] == es;
      PairsExpandableAppend(k, init, [e]);
      MapFlattenCompact(k, init);
      CompactAppend(MapFlatten(k, init), ByQueryType(k, e));
      ElementCompact(k, e);
    }
  }

  /** What `compact` keeps of one element's values is that element's contribution. */
  lemma ElementCompact(k: TimeKind, e: Element)
    requires ElementExpandable(k, e)
    ensures Compact(ByQueryType(k, e)) == Contribution(k, e)
  {
    match e
    case Token(s) => assert [Str(s)][..0] == [];
    case Other(_) => assert [Null][..0] == [];
    case Pair(a, b) =>
      LocalTimeRange.ExpandNonEmpty(k, a, b);
      CompactStrs(LocalTimeRange.Expand(k, a, b));
  }

  /** Once a kind is detected, the result is each element's contribution in input order. */
  lemma GetTimeRangeSpec(es: seq<Element>)
    requires WellFormedQuery(es)
    ensures match DetectTimeType(Many(es))
      case None => GetTimeRange(es) == None
      case Some(k) => GetTimeRange(es) == Some(Contributions(k, es))
  {
    if DetectTimeType(Many(es)).Some? {
      MapFlattenCompact(DetectTimeType(Many(es)).value, es);
    }
  }

  /** Contributions concatenate in the order of the query's elements. */
  lemma {:induction false} ContributionsAppend(k: TimeKind, a: seq<Element>, c: seq<Element>)
    requires PairsExpandable(k, a) && PairsExpandable(k, c)
    ensures PairsExpandable(k, a + c)
    ensures Contributions(k, a + c) == Contributions(k, a) + Contributions(k, c)
    decreases |c|
  {
    PairsExpandableAppend(k, a, c);
    if c == [] {
      assert a + c == a;
    } else {
      var c', e := c[..|c| - 1], c[|c| - 1];
      assert c' + [e] == c;
      assert a + c' + [e] == a + c;
      PairsExpandableAppend(k, c', [e]);
      ContributionsAppend(k, a, c');
      ContributionsSnoc(k, a + c', e);
      ContributionsSnoc(k, c', e);
      AppendAssociative(Contributions(k, a), Contributions(k, c'), Contribution(k, e));
    }
  }

  /** Stated over abstract sequences so that the solver does not reason about their elements. */
  lemma AppendAssociative(x: seq<string>, y: seq<string>, z: seq<string>)
    ensures (x + y) + z == x + (y + z)
  {
  }

  lemma ContributionsSnoc(k: TimeKind, es: seq<Element>, e: Element)
    requires PairsExpandable(k, es) && ElementExpandable(k, e)
    ensures PairsExpandable(k, es + [e])
    ensures Contributions(k, es + [e]) == Contributions(k, es) + Contribution(k, e)
  {
    PairsExpandableAppend(k, es, [e]);
    assert (es + [e])[..|es|] == es;
  }

  lemma PairsExpandableAppend(k: TimeKind, a: seq<Element>, c: seq<Element>)
    ensures PairsExpandable(k, a + c) <==> PairsExpandable(k, a) && PairsExpandable(k, c)
  {
    if PairsExpandable(k, a + c) {
      forall i | 0 <= i < |a| ensures ElementExpandable(k, a[i]) {
        assert a[i] == (a + c)[i];
      }
      forall i | 0 <= i < |c| ensures ElementExpandable(k, c[i]) {
        assert c[i] == (a + c)[|a| + i];
      }
    }
    if PairsExpandable(k, a) && PairsExpandable(k, c) {
      forall i | 0 <= i < |a + c| ensures ElementExpandable(k, (a + c)[i]) {
        if i < |a| {
          assert (a + c)[i] == a[i];
        } else {
          assert (a + c)[i] == c[i - |a|];
        }
      }
    }
  }

  /** The literals of a query decide its kind: queries with the same literals get the same
      answer. */
  lemma SameLiteralsSameKind(q1: TimeQuery, q2: TimeQuery)
    requires forall t :: t in PlainTimeQuery(q1) <==> t in PlainTimeQuery(q2)
    ensures DetectTimeType(q1) == DetectTimeType(q2)
  {
    assert MatchedKinds(q1) == MatchedKinds(q2);
    if DetectTimeType(q1).Some? {
      DetectTimeTypeIff(q1, DetectTimeType(q1).value);
      DetectTimeTypeIff(q2, DetectTimeType(q1).value);
    } else if DetectTimeType(q2).Some? {
      DetectTimeTypeIff(q1, DetectTimeType(q2).value);
      DetectTimeTypeIff(q2, DetectTimeType(q2).value);
    }
  }

  lemma MatchesNonEmpty(k: TimeKind, s: string)
    requires Matches(k, s)
    ensures s != []
  {
    MatchesRecognized(k, s);
  }

  /** A query of one element contributes that element's share. */
  lemma ContributionsSingle(k: TimeKind, e: Element)
    requires ElementExpandable(k, e)
    ensures PairsExpandable(k, [e])
    ensures Contributions(k, [e]) == Contribution(k, e)
  {
    assert [e][..0] == [];
  }

  /** A query of one plain literal of some kind is detected as that kind. */
  lemma TokenDetected(s: string, k: TimeKind)
    requires Matches(k, s)
    ensures DetectTimeType(Many([Token(s)])) == Some(k)
  {
    SingleTokenLiterals(s);
    SameLiteralsSameKind(Many([Token(s)]), Single(s));
    DetectSingleKind(s, k);
  }

  /** A query of one pair of tokens of some kind is detected as that kind. */
  lemma PairDetected(k: TimeKind, a: string, b: string)
    requires Matches(k, a) && Matches(k, b)
    ensures DetectTimeType(Many([Pair(a, b)])) == Some(k)
  {
    var q := Many([Pair(a, b)]);
    PairLiterals(a, b);
    forall k' ensures k' in MatchedKinds(q) <==> k' == k {
      EveryKindListed(k');
      if k' in MatchedKinds(q) {
        var t :| t in PlainTimeQuery(q) && Matches(k', t);
        PatternsExclusive(k, k', t);
      }
    }
    assert MatchedKinds(q) == {k};
    DetectTimeTypeIff(q, k);
  }

  /** A query of one plain literal of some kind returns that literal unchanged. */
  lemma GetTimeRangeSingleToken(s: string, k: TimeKind)
    requires Matches(k, s)
    ensures WellFormedQuery([Token(s)])
    ensures GetTimeRange([Token(s)]) == Some([s])
  {
    TokenDetected(s, k);
    MatchesNonEmpty(k, s);
    ContributionsSingle(k, Token(s));
    GetTimeRangeSpec([Token(s)]);
  }

  /** A query of one pair of tokens of a kind returns that pair's expansion. */
  lemma GetTimeRangeSinglePair(k: TimeKind, a: string, b: string)
    requires LocalTimeRange.Expandable(k, a, b)
    ensures WellFormedQuery([Pair(a, b)])
    ensures GetTimeRange([Pair(a, b)]) == Some(LocalTimeRange.Expand(k, a, b))
  {
    PairDetected(k, a, b);
    ContributionsSingle(k, Pair(a, b));
    GetTimeRangeSpec([Pair(a, b)]);
  }

  lemma PairLiterals(a: string, b: string)
    ensures forall t :: t in PlainTimeQuery(Many([Pair(a, b)])) <==> t == a || t == b
  {
    assert [Pair(a, b)][..0] == [];
    assert FlattenElements([Pair(a, b)]) == [a, b];
  }

  /** A query whose kind is not detected is well formed and makes `getTimeRange` return null. */
  lemma GetTimeRangeUndetected(es: seq<Element>)
    requires DetectTimeType(Many(es)) == None
    ensures WellFormedQuery(es) && GetTimeRange(es) == None
  {
  }

  /** The result of `parseTime`: the kind's name and the instant. */
  datatype ParsedTime = ParsedTime(timeType: string, time: int)

  /** `parseTime(timeString)`: `utc(s, pattern)` stands for moment's strict UTC parse, `None`
      where the moment is invalid and the epoch milliseconds otherwise. */
  function ParseTime(timeString: string, utc: (string, string) -> Option<int>): (r: Option<ParsedTime>)
    ensures r.Some? ==> r.value.timeType in TimeTypesAsStrings()
  {
    match DetectTimeType(Single(timeString))
    case None => None
    case Some(k) =>
      var m := utc(timeString, PatternDate(k));
      assert TimeTypesAsStrings()[IndexOf(k)] == KindName(k);
      if m.None? then None else Some(ParsedTime(KindName(k), m.value))
  }

  function IndexOf(k: TimeKind): (i: nat)
    ensures i < |TimeTypesInOrder| && TimeTypesInOrder[i] == k
  {
    match k
    case Year => 0
    case Quarter => 1
    case Month => 2
    case Week => 3
    case Date => 4
  }

  /** A literal of kind `k` is parsed with that kind's `patternDate` and labelled with the kind's
      name, or is null when the parse is invalid; a literal of no kind is null. */
  lemma ParseTimeSpec(s: string, utc: (string, string) -> Option<int>, k: TimeKind)
    ensures Matches(k, s) ==>
      ParseTime(s, utc) == (if utc(s, PatternDate(k)).Some?
        then Some(ParsedTime(KindName(k), utc(s, PatternDate(k)).value)) else None)
    ensures (forall k' :: !Matches(k', s)) ==> ParseTime(s, utc) == None
  {
    DetectSingleKind(s, k);
    DetectSingleNone(s);
  }
}
