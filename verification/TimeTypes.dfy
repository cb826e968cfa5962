/** The table of time kinds: the five token patterns, the layouts handed to the date library,
    and the kind names exported as `TIME_TYPES_AS_STRINGS` and `TIME_TYPES_DDF_COMPATIBLE`. */
module TimeTypes {
  import opened Optional
  import opened Decimal
  import opened Regex

  /** The five kinds of time token. */
  datatype TimeKind = Year | Quarter | Month | Week | Date

  /** The kinds in the declaration order of the pattern table (`TIME_TYPES`). */
  const TimeTypesInOrder: seq<TimeKind> := [Year, Quarter, Month, Week, Date]

  /** The recognition pattern of each kind:
      year `^(\d{3,4})$`, quarter `^(\d{3,4})q(\d{1})$`, month `^(\d{3,4})(\d{2})$`,
      week `^(\d{3,4})w(\d{1,2})$`, date `^(\d{3,4})(\d{2})(\d{2})$`. */
  function Pattern(k: TimeKind): seq<Atom> {
    match k
    case Year => [Digits(3, 4)]
    case Quarter => [Digits(3, 4), Literal('q'), Digits(1, 1)]
    case Month => [Digits(3, 4), Digits(2, 2)]
    case Week => [Digits(3, 4), Literal('w'), Digits(1, 2)]
    case Date => [Digits(3, 4), Digits(2, 2), Digits(2, 2)]
  }

  /** The layout under which the date library parses a token of each kind (`patternDate`). */
  function PatternDate(k: TimeKind): string {
    match k
    case Year => "YYYY"
    case Quarter => "YYYY Q"
    case Month => "YYYYMM"
    case Week => "YYYY W"
    case Date => "YYYYMMDD"
  }

  /** `regularExp.exec(s)` for the pattern of kind `k`. */
  function Exec(k: TimeKind, s: string): Option<seq<string>> {
    MatchFrom(Pattern(k), s)
  }

  /** `regularExp.test(s)` for the pattern of kind `k`. */
  predicate Matches(k: TimeKind, s: string) {
    Exec(k, s).Some?
  }

  predicate Run(t: string, lo: nat, hi: nat) {
    lo <= |t| <= hi && AllDigits(t)
  }

  /** The hand-written reading of each pattern: how `s` splits into the captured groups `g`. */
  predicate Shape(k: TimeKind, s: string, g: seq<string>) {
    match k
    case Year => |g| == 1 && Run(g[0], 3, 4) && s == g[0]
    case Quarter => |g| == 2 && Run(g[0], 3, 4) && Run(g[1], 1, 1) && s == g[0] + "q" + g[1]
    case Month => |g| == 2 && Run(g[0], 3, 4) && Run(g[1], 2, 2) && s == g[0] + g[1]
    case Week => |g| == 2 && Run(g[0], 3, 4) && Run(g[1], 1, 2) && s == g[0] + "w" + g[1]
    case Date => |g| == 3 && Run(g[0], 3, 4) && Run(g[1], 2, 2) && Run(g[2], 2, 2) && s == g[0] + g[1] + g[2]
  }

  lemma DecomposesDigitsStep(lo: nat, hi: nat, rest: seq<Atom>, s: string, g: seq<string>)
    ensures Decomposes([Digits(lo, hi)] + rest, s, g) <==>
      0 < |g| && Run(g[0], lo, hi) && |g[0]| <= |s| && s[..|g[0]|] == g[0]
      && Decomposes(rest, s[|g[0]|..], g[1..])
  {
    assert ([Digits(lo, hi)] + rest)[1..] == rest;
  }

  lemma DecomposesLiteralStep(c: char, rest: seq<Atom>, s: string, g: seq<string>)
    ensures Decomposes([Literal(c)] + rest, s, g) <==> 0 < |s| && s[0] == c && Decomposes(rest, s[1..], g)
  {
    assert ([Literal(c)] + rest)[1..] == rest;
  }

  lemma DecomposesLast(lo: nat, hi: nat, s: string, g: seq<string>)
    ensures Decomposes([Digits(lo, hi)], s, g) <==> g == [s] && Run(s, lo, hi)
  {
    DecomposesDigitsStep(lo, hi, [], s, g);
    assert [Digits(lo, hi)] + [] == [Digits(lo, hi)];
    if 0 < |g| && |g[0]| <= |s| && s[..|g[0]|] == g[0] && s[|g[0]|..] == [] && g[1..] == [] {
      assert g == [g[0]];
      assert s == s[..|g[0]|];
    }
  }

  /** `s` is `t` followed by `u` exactly when `t` is a prefix of `s` and `u` what remains. */
  lemma SplitAt(s: string, t: string, u: string)
    ensures s == t + u <==> |t| <= |s| && s[..|t|] == t && s[|t|..] == u
  {
    if |t| <= |s| && s[..|t|] == t && s[|t|..] == u {
      assert s == s[..|t|] + s[|t|..];
    }
  }

  /** A year run, then a second run: the month pattern. */
  lemma DecomposesTwoRuns(s: string, g: seq<string>)
    ensures Decomposes([Digits(3, 4), Digits(2, 2)], s, g) <==>
      |g| == 2 && Run(g[0], 3, 4) && Run(g[1], 2, 2) && s == g[0] + g[1]
  {
    assert [Digits(3, 4), Digits(2, 2)] == [Digits(3, 4)] + [Digits(2, 2)];
    DecomposesDigitsStep(3, 4, [Digits(2, 2)], s, g);
    if 0 < |g| && |g[0]| <= |s| {
      DecomposesLast(2, 2, s[|g[0]|..], g[1..]);
      if |g| == 2 {
        assert g[1..] == [g[1]];
      }
    }
    if 0 < |g| {
      if |g| == 2 { assert g[1..] == [g[1]]; }
      SplitAt(s, g[0], if |g| == 2 then g[1] else []);
    }
  }

  /** A year run, then two two-digit runs: the date pattern. */
  lemma DecomposesThreeRuns(s: string, g: seq<string>)
    ensures Decomposes([Digits(3, 4), Digits(2, 2), Digits(2, 2)], s, g) <==>
      |g| == 3 && Run(g[0], 3, 4) && Run(g[1], 2, 2) && Run(g[2], 2, 2) && s == g[0] + g[1] + g[2]
  {
    assert [Digits(3, 4), Digits(2, 2), Digits(2, 2)] == [Digits(3, 4)] + [Digits(2, 2), Digits(2, 2)];
    DecomposesDigitsStep(3, 4, [Digits(2, 2), Digits(2, 2)], s, g);
    if 0 < |g| {
      if |g[0]| <= |s| {
        var s1 := s[|g[0]|..];
        assert [Digits(2, 2), Digits(2, 2)] == [Digits(2, 2)] + [Digits(2, 2)];
        DecomposesDigitsStep(2, 2, [Digits(2, 2)], s1, g[1..]);
        if 1 < |g| && |g[1]| <= |s1| {
          DecomposesLast(2, 2, s1[|g[1]|..], g[2..]);
          assert g[1..][1..] == g[2..];
          if |g| == 3 { assert g[2..] == [g[2]]; }
          SplitAt(s1, g[1], s1[|g[1]|..]);
        }
      }
      if |g| == 3 {
        assert g[0] + g[1] + g[2] == g[0] + (g[1] + g[2]);
        SplitAt(s, g[0], g[1] + g[2]);
        SplitAt(g[1] + g[2], g[1], g[2]);
      }
    }
  }

  /** A year run, the literal `c`, then a run of `lo` to `hi` digits: the quarter and week patterns. */
  lemma DecomposesSeparated(c: char, lo: nat, hi: nat, s: string, g: seq<string>)
    ensures Decomposes([Digits(3, 4), Literal(c), Digits(lo, hi)], s, g) <==>
      |g| == 2 && Run(g[0], 3, 4) && Run(g[1], lo, hi) && s == g[0] + [c] + g[1]
  {
    assert [Digits(3, 4), Literal(c), Digits(lo, hi)] == [Digits(3, 4)] + ([Literal(c)] + [Digits(lo, hi)]);
    DecomposesDigitsStep(3, 4, [Literal(c)] + [Digits(lo, hi)], s, g);
    if 0 < |g| {
      if |g[0]| <= |s| {
        var s1 := s[|g[0]|..];
        DecomposesLiteralStep(c, [Digits(lo, hi)], s1, g[1..]);
        if 0 < |s1| {
          DecomposesLast(lo, hi, s1[1..], g[1..]);
          if |g| == 2 { assert g[1..] == [g[1]]; }
          SplitAt(s1, [s1[0]], s1[1..]);
        }
      }
      if |g| == 2 {
        assert g[0] + [c] + g[1] == g[0] + ([c] + g[1]);
        SplitAt(s, g[0], [c] + g[1]);
        SplitAt([c] + g[1], [c], g[1]);
      }
    }
  }

  /** The backtracking matcher's language for each pattern is exactly the hand-written shape. */
  lemma DecomposesShape(k: TimeKind, s: string, g: seq<string>)
    ensures Decomposes(Pattern(k), s, g) <==> Shape(k, s, g)
  {
    match k
    case Year => DecomposesLast(3, 4, s, g);
    case Quarter => DecomposesSeparated('q', 1, 1, s, g); assert "q" == ['q'];
    case Month => DecomposesTwoRuns(s, g);
    case Week => DecomposesSeparated('w', 1, 2, s, g); assert "w" == ['w'];
    case Date => DecomposesThreeRuns(s, g);
  }

  /** The length of the run of digits `s` starts with. */
  function LeadingDigitCount(s: string): nat {
    if s == [] || !IsDigit(s[0]) then 0 else 1 + LeadingDigitCount(s[1..])
  }

  lemma {:induction false} LeadingDigits(a: string, c: char, b: string)
    requires AllDigits(a) && !IsDigit(c)
    ensures LeadingDigitCount(a + [c] + b) == |a|
  {
    if a != [] {
      assert (a + [c] + b)[1..] == a[1..] + [c] + b;
      LeadingDigits(a[1..], c, b);
    }
  }

  /** A non-digit separator after a run of digits fixes where the split falls. */
  lemma SeparatorUnique(c: char, a1: string, b1: string, a2: string, b2: string)
    requires !IsDigit(c) && AllDigits(a1) && AllDigits(a2)
    requires a1 + [c] + b1 == a2 + [c] + b2
    ensures a1 == a2 && b1 == b2
  {
    var s := a1 + [c] + b1;
    LeadingDigits(a1, c, b1);
    LeadingDigits(a2, c, b2);
    SplitAt(s, a1, [c] + b1);
    SplitAt(s, a2, [c] + b2);
    assert [c] + b1 == [c] + b2;
    assert b1 == ([c] + b1)[1..];
  }

  /** Every pattern splits a token in at most one way, whatever order backtracking tries. */
  lemma ShapeUnique(k: TimeKind, s: string, g1: seq<string>, g2: seq<string>)
    requires Shape(k, s, g1) && Shape(k, s, g2)
    ensures g1 == g2
  {
    match k
    case Year =>
    case Quarter =>
      SeparatorUnique('q', g1[0], g1[1], g2[0], g2[1]);
    case Week =>
      SeparatorUnique('w', g1[0], g1[1], g2[0], g2[1]);
    case Month =>
      SplitAt(s, g1[0], g1[1]);
      SplitAt(s, g2[0], g2[1]);
    case Date =>
      assert s == g1[0] + (g1[1] + g1[2]) == g2[0] + (g2[1] + g2[2]);
      SplitAt(s, g1[0], g1[1] + g1[2]);
      SplitAt(s, g2[0], g2[1] + g2[2]);
      SplitAt(g1[1] + g1[2], g1[1], g1[2]);
      SplitAt(g2[1] + g2[2], g2[1], g2[2]);
  }

  /** `exec` captures `g` from `s` exactly when `s` has the kind's shape with groups `g`. */
  lemma ExecShape(k: TimeKind, s: string, g: seq<string>)
    ensures Exec(k, s) == Some(g) <==> Shape(k, s, g)
  {
    forall h1, h2 | Decomposes(Pattern(k), s, h1) && Decomposes(Pattern(k), s, h2)
      ensures h1 == h2
    {
      DecomposesShape(k, s, h1);
      DecomposesShape(k, s, h2);
      ShapeUnique(k, s, h1, h2);
    }
    MatchIffUnique(Pattern(k), s, g);
    DecomposesShape(k, s, g);
  }

  /** The groups of a successful `exec`, with the shape they have. */
  function Groups(k: TimeKind, s: string): (g: seq<string>)
    requires Matches(k, s)
    ensures Shape(k, s, g)
  {
    var g := Exec(k, s).value;
    ExecShape(k, s, g);
    g
  }

  /** The number of captured groups of each pattern. */
  function GroupCount(k: TimeKind): nat {
    match k
    case Year => 1
    case Quarter => 2
    case Month => 2
    case Week => 2
    case Date => 3
  }

  /** `Number(...)` of each captured group: the year, then the secondary value, then the day. */
  function Fields(k: TimeKind, s: string): (f: seq<nat>)
    requires Matches(k, s)
    ensures |f| == GroupCount(k)
    ensures f[0] < 10000
    ensures k != Year ==> f[1] < 100
    ensures k == Quarter ==> f[1] < 10
    ensures k == Date ==> f[2] < 100
  {
    var g := Groups(k, s);
    forall i | 0 <= i < |g| ensures Number(g[i]) < Pow10(|g[i]|) {
      NumberBound(g[i]);
    }
    assert Pow10(1) == 10 && Pow10(2) == 100 && Pow10(3) == 1000 && Pow10(4) == 10000;
    seq(|g|, i requires 0 <= i < |g| => Number(g[i]))
  }

  /** A string of the kind's shape matches, and its fields are the numbers of its groups. */
  lemma FieldsOfShape(k: TimeKind, s: string, g: seq<string>)
    requires Shape(k, s, g)
    ensures Matches(k, s) && Groups(k, s) == g
    ensures |Fields(k, s)| == |g| && forall i :: 0 <= i < |g| ==> AllDigits(g[i]) && Fields(k, s)[i] == Number(g[i])
  {
    ExecShape(k, s, g);
  }

  /** The hand-written recognisers: year 3-4 digits, month 5-6 digits, date 7-8 digits; quarter
      and week a 3-4 digit run, the letter `q` or `w`, then one digit or one to two digits. */
  predicate Recognized(k: TimeKind, s: string) {
    match k
    case Year => Run(s, 3, 4)
    case Month => Run(s, 5, 6)
    case Date => Run(s, 7, 8)
    case Quarter => SeparatedRun(s, 'q', 1)
    case Week => SeparatedRun(s, 'w', 2)
  }

  predicate SeparatedRun(s: string, c: char, hi: nat) {
    var i := LeadingDigitCount(s);
    3 <= i <= 4 && i < |s| && s[i] == c && Run(s[i + 1..], 1, hi)
  }

  lemma {:induction false} LeadingDigitsPrefix(s: string)
    ensures LeadingDigitCount(s) <= |s| && AllDigits(s[..LeadingDigitCount(s)])
    ensures LeadingDigitCount(s) < |s| ==> !IsDigit(s[LeadingDigitCount(s)])
  {
    if s != [] && IsDigit(s[0]) {
      LeadingDigitsPrefix(s[1..]);
      var n := LeadingDigitCount(s);
      assert s[..n] == [s[0]] + s[1..][..n - 1];
      AllDigitsAppend([s[0]], s[1..][..n - 1]);
    }
  }

  lemma SeparatedShape(s: string, c: char, lo: nat, hi: nat, g: seq<string>)
    requires !IsDigit(c) && 1 <= lo
    requires |g| == 2 && Run(g[0], 3, 4) && Run(g[1], lo, hi) && s == g[0] + [c] + g[1]
    ensures LeadingDigitCount(s) == |g[0]| && s[|g[0]|] == c && s[|g[0]| + 1..] == g[1]
  {
    LeadingDigits(g[0], c, g[1]);
    assert s == g[0] + ([c] + g[1]);
  }

  /** `test` of each pattern agrees with the hand-written recogniser. */
  lemma MatchesRecognized(k: TimeKind, s: string)
    ensures Matches(k, s) <==> Recognized(k, s)
  {
    if Matches(k, s) {
      MatchedIsRecognized(k, s);
    }
    if Recognized(k, s) {
      RecognizedIsMatched(k, s);
    }
  }

  lemma MatchedIsRecognized(k: TimeKind, s: string)
    requires Matches(k, s)
    ensures Recognized(k, s)
  {
    var g := Groups(k, s);
    match k
    case Year =>
    case Month => AllDigitsAppend(g[0], g[1]);
    case Date => AllDigitsAppend(g[0], g[1]); AllDigitsAppend(g[0] + g[1], g[2]);
    case Quarter => SeparatedShape(s, 'q', 1, 1, g);
    case Week => SeparatedShape(s, 'w', 1, 2, g);
  }

  lemma RecognizedIsMatched(k: TimeKind, s: string)
    requires Recognized(k, s)
    ensures Matches(k, s)
  {
    var g: seq<string>;
    match k {
      case Year =>
        g := [s];
      case Month =>
        g := [s[..|s| - 2], s[|s| - 2..]];
        AllDigitsAppend(g[0], g[1]);
        assert s == g[0] + g[1];
      case Date =>
        g := [s[..|s| - 4], s[|s| - 4..|s| - 2], s[|s| - 2..]];
        assert s == g[0] + g[1] + g[2];
        AllDigitsAppend(g[0], g[1] + g[2]);
        AllDigitsAppend(g[1], g[2]);
      case Quarter =>
        var i := LeadingDigitCount(s);
        LeadingDigitsPrefix(s);
        g := [s[..i], s[i + 1..]];
        assert s == g[0] + [s[i]] + g[1];
      case Week =>
        var i := LeadingDigitCount(s);
        LeadingDigitsPrefix(s);
        g := [s[..i], s[i + 1..]];
        assert s == g[0] + [s[i]] + g[1];
    }
    assert Shape(k, s, g);
    ExecShape(k, s, g);
  }

  lemma AllDigitsLeading(s: string)
    requires AllDigits(s)
    ensures LeadingDigitCount(s) == |s|
  {
    LeadingDigitsPrefix(s);
  }

  /** The five patterns are mutually exclusive: a token matches at most one kind. */
  lemma PatternsExclusive(k1: TimeKind, k2: TimeKind, s: string)
    requires Matches(k1, s) && Matches(k2, s)
    ensures k1 == k2
  {
    MatchesRecognized(k1, s);
    MatchesRecognized(k2, s);
    if AllDigits(s) {
      AllDigitsLeading(s);
    }
  }

  /** Backtracking decides the split of a short token: "19832" is year 198 with month 32, and
      "2010125" is year 201, month 01, day 25. */
  lemma BacktrackingSplits()
    ensures Matches(Month, "19832") && Groups(Month, "19832") == ["198", "32"]
    ensures Matches(Date, "2010125") && Groups(Date, "2010125") == ["201", "01", "25"]
  {
    assert "19832" == "198" + "32";
    ExecShape(Month, "19832", ["198", "32"]);
    assert "2010125" == "201" + "01" + "25";
    ExecShape(Date, "2010125", ["201", "01", "25"]);
  }

  /** `Symbol.keyFor` of each kind's symbol. */
  function KindName(k: TimeKind): string {
    match k
    case Year => "YEAR_TYPE"
    case Quarter => "QUARTER_TYPE"
    case Month => "MONTH_TYPE"
    case Week => "WEEK_TYPE"
    case Date => "DATE_TYPE"
  }

  /** `String.prototype.replace` with a pattern without the global flag: the first occurrence of
      `pat` in `s` becomes `rep`. */
  function ReplaceFirst(s: string, pat: string, rep: string): string
    decreases |s|
  {
    if |pat| <= |s| && s[..|pat|] == pat then rep + s[|pat|..]
    else if s == [] then []
    else [s[0]] + ReplaceFirst(s[1..], pat, rep)
  }

  /** `toLowerCase` on the ASCII letters the kind names use. */
  function ToLower(s: string): string {
    seq(|s|, i requires 0 <= i < |s| => if 'A' <= s[i] <= 'Z' then (s[i] as int + 32) as char else s[i])
  }

  /** `TIME_TYPES_AS_STRINGS`: the kind names in table order. */
  function TimeTypesAsStrings(): seq<string> {
    seq(|TimeTypesInOrder|, i requires 0 <= i < |TimeTypesInOrder| => KindName(TimeTypesInOrder[i]))
  }

  /** `TIME_TYPES_DDF_COMPATIBLE`: "time", then each kind name without `_TYPE`, lower-cased. */
  function TimeTypesDdfCompatible(): seq<string> {
    var names := TimeTypesAsStrings();
    ["time"] + seq(|names|, i requires 0 <= i < |names| => ToLower(ReplaceFirst(names[i], "_TYPE", "")))
  }

  /** The first occurrence is the one replaced: nothing before it starts the pattern. */
  lemma {:induction false} ReplaceFirstAfter(w: string, pat: string, rep: string, t: string)
    requires 0 < |pat| && forall i :: 0 <= i < |w| ==> w[i] != pat[0]
    ensures ReplaceFirst(w + pat + t, pat, rep) == w + rep + t
  {
    var s := w + pat + t;
    if w == [] {
      assert s == pat + t;
      assert s[..|pat|] == pat && s[|pat|..] == t;
    } else {
      assert s[0] == w[0] != pat[0];
      assert s[..|pat|] != pat by {
        assert s[..|pat|][0] == s[0];
      }
      assert s[1..] == w[1..] + pat + t;
      ReplaceFirstAfter(w[1..], pat, rep, t);
      assert [s[0]] + (w[1..] + rep + t) == w + rep + t;
    }
  }

  /** A kind name `WORD_TYPE` becomes the lower-cased `word`. */
  lemma DdfName(name: string, word: string, lower: string)
    requires name == word + "_TYPE" && forall i :: 0 <= i < |word| ==> word[i] != '_'
    requires ToLower(word) == lower
    ensures ToLower(ReplaceFirst(name, "_TYPE", "")) == lower
  {
    assert name == word + "_TYPE" + "";
    ReplaceFirstAfter(word, "_TYPE", "", "");
    assert word + "" + "" == word;
  }

  lemma DdfWords(words: seq<string>, lowers: seq<string>)
    requires words == ["YEAR", "QUARTER", "MONTH", "WEEK", "DATE"]
    requires lowers == ["year", "quarter", "month", "week", "date"]
    ensures forall i :: 0 <= i < 5 ==>
      ToLower(words[i]) == lowers[i] && forall j :: 0 <= j < |words[i]| ==> words[i][j] != '_'
  {
  }

  /** The exported list is "time" followed by the rewritten names, in table order. */
  lemma DdfCompatibleFrom(names: seq<string>, lowers: seq<string>)
    requires names == TimeTypesAsStrings() && |lowers| == 5
    requires forall i :: 0 <= i < 5 ==> ToLower(ReplaceFirst(names[i], "_TYPE", "")) == lowers[i]
    ensures TimeTypesDdfCompatible() == ["time"] + lowers
  {
  }

  lemma TimeTypesDdfCompatibleValue()
    ensures TimeTypesDdfCompatible() == ["time", "year", "quarter", "month", "week", "date"]
  {
    var names := TimeTypesAsStrings();
    var words := ["YEAR", "QUARTER", "MONTH", "WEEK", "DATE"];
    var lowers := ["year", "quarter", "month", "week", "date"];
    assert names == ["YEAR_TYPE", "QUARTER_TYPE", "MONTH_TYPE", "WEEK_TYPE", "DATE_TYPE"];
    DdfWords(words, lowers);
    forall i | 0 <= i < 5
      ensures ToLower(ReplaceFirst(names[i], "_TYPE", "")) == lowers[i]
    {
      DdfName(names[i], words[i], lowers[i]);
    }
    DdfCompatibleFrom(names, lowers);
  }
}
