/** The small fragment of JavaScript regular expressions the time patterns use: an anchored
    (`^...$`) sequence of literal characters and captured digit runs `(\d{min,max})`, matched
    the way `RegExp.prototype.exec` does, by backtracking. */
module Regex {
  import opened Optional
  import opened Decimal

  /** One element of a pattern: a captured run of `min` to `max` digits, or a literal character. */
  datatype Atom = Digits(min: nat, max: nat) | Literal(c: char)

  /** `exec` of the anchored pattern `p` on `s`: the captured groups of the first match found,
      or `None`. A greedy group takes its longest run of digits first and gives them back one at
      a time while the rest of the pattern fails. */
  function MatchFrom(p: seq<Atom>, s: string): Option<seq<string>>
    decreases |p|, 0
  {
    if p == [] then (if s == [] then Some([]) else None)
    else match p[0]
      case Literal(c) => if 0 < |s| && s[0] == c then MatchFrom(p[1..], s[1..]) else None
      case Digits(lo, hi) => if hi < lo then None else TryRun(lo, hi, p[1..], s)
  }

  /** The backtracking loop of a group `\d{lo,..}` that has given back all but `n` digits. */
  function TryRun(lo: nat, n: nat, rest: seq<Atom>, s: string): Option<seq<string>>
    requires lo <= n
    decreases |rest|, n + 1
  {
    var tail := if n <= |s| && AllDigits(s[..n]) then MatchFrom(rest, s[n..]) else None;
    if tail.Some? then Some([s[..n]] + tail.value)
    else if n == lo then None
    else TryRun(lo, n - 1, rest, s)
  }

  /** The language of `p` with its captures: `s` splits along `p` and `g` holds the digit runs. */
  predicate Decomposes(p: seq<Atom>, s: string, g: seq<string>)
    decreases |p|
  {
    if p == [] then s == [] && g == []
    else match p[0]
      case Literal(c) => 0 < |s| && s[0] == c && Decomposes(p[1..], s[1..], g)
      case Digits(lo, hi) =>
        0 < |g| && lo <= |g[0]| <= hi && AllDigits(g[0]) && |g[0]| <= |s| && s[..|g[0]|] == g[0]
        && Decomposes(p[1..], s[|g[0]|..], g[1..])
  }

  /** Whatever the matcher returns is a decomposition of the input along the pattern. */
  lemma {:induction false} MatchSound(p: seq<Atom>, s: string)
    ensures MatchFrom(p, s).Some? ==> Decomposes(p, s, MatchFrom(p, s).value)
    decreases |p|, 0
  {
    if p != [] {
      match p[0]
      case Literal(c) =>
        if 0 < |s| && s[0] == c { MatchSound(p[1..], s[1..]); }
      case Digits(lo, hi) =>
        if lo <= hi { TryRunSound(lo, hi, p[1..], s); }
    }
  }

  lemma {:induction false} TryRunSound(lo: nat, n: nat, rest: seq<Atom>, s: string)
    requires lo <= n
    ensures var r := TryRun(lo, n, rest, s);
      r.Some? ==>
        var g := r.value;
        0 < |g| && lo <= |g[0]| <= n && AllDigits(g[0]) && |g[0]| <= |s| && s[..|g[0]|] == g[0]
        && Decomposes(rest, s[|g[0]|..], g[1..])
    decreases |rest|, n + 1
  {
    if n <= |s| && AllDigits(s[..n]) {
      MatchSound(rest, s[n..]);
    }
    if n > lo {
      TryRunSound(lo, n - 1, rest, s);
    }
  }

  /** Backtracking is exhaustive: if some decomposition exists, the matcher finds a match. */
  lemma {:induction false} MatchComplete(p: seq<Atom>, s: string, g: seq<string>)
    requires Decomposes(p, s, g)
    ensures MatchFrom(p, s).Some?
    decreases |p|
  {
    if p != [] {
      match p[0]
      case Literal(c) =>
        MatchComplete(p[1..], s[1..], g);
      case Digits(lo, hi) =>
        MatchComplete(p[1..], s[|g[0]|..], g[1..]);
        TryRunComplete(lo, hi, p[1..], s, |g[0]|);
    }
  }

  lemma {:induction false} TryRunComplete(lo: nat, n: nat, rest: seq<Atom>, s: string, m: nat)
    requires lo <= m <= n && m <= |s| && AllDigits(s[..m]) && MatchFrom(rest, s[m..]).Some?
    ensures TryRun(lo, n, rest, s).Some?
    decreases n
  {
    if n > m {
      TryRunComplete(lo, n - 1, rest, s, m);
    }
  }

  /** When a pattern admits at most one decomposition of `s`, the matcher returns exactly it. */
  lemma MatchIffUnique(p: seq<Atom>, s: string, g: seq<string>)
    requires forall h1, h2 :: Decomposes(p, s, h1) && Decomposes(p, s, h2) ==> h1 == h2
    ensures MatchFrom(p, s) == Some(g) <==> Decomposes(p, s, g)
  {
    MatchSound(p, s);
    if Decomposes(p, s, g) {
      MatchComplete(p, s, g);
    }
  }
}
