/** `findSafePathSuggestions`: the nearest allowed paths, and what "nearest" guarantees. */
module PathSuggestions {
  import opened Text
  import EditDistance

  const MAX_SUGGESTION_CANDIDATES := 5000
  const MAX_SUGGESTIONS := 5
  const DEFAULT_SUGGESTIONS := 3

  /** Trimming, slashing and lower-casing a path, and the order `localeCompare` puts on paths. */
  datatype Rules = Rules(normalize: string -> string, collate: (string, string) -> int)

  /** A candidate that is not a string is `None`. */
  datatype Request = Request(
    requestedPath: string, candidates: seq<Option<string>>, isAllowed: string -> bool,
    maxCandidates: Option<int>, maxSuggestions: Option<int>)

  /** The bound that is used, or `None` when a given one is not positive and the call throws. */
  function Bound(given: Option<int>, fallback: nat, maximum: nat): (n: Option<nat>)
    requires 1 <= fallback <= maximum
    ensures n.Some? ==> 1 <= n.value <= maximum
  {
    if given.None? then Some(fallback)
    else if given.value < 1 then None
    else if given.value > maximum then Some(maximum) else Some(given.value)
  }

  function Score(rules: Rules, requested: string, path: string): nat {
    EditDistance.PathMetric(rules.normalize(requested), rules.normalize(path))
  }

  /** `x` may stand before `y`: nearer, or as near and not later by name. */
  predicate Before(rules: Rules, requested: string, x: string, y: string) {
    || Score(rules, requested, x) < Score(rules, requested, y)
    || (Score(rules, requested, x) == Score(rules, requested, y) && rules.collate(x, y) <= 0)
  }

  ghost predicate Collates(rules: Rules) {
    && (forall x, y :: rules.collate(x, y) <= 0 || rules.collate(y, x) <= 0)
    && (forall x, y, z :: rules.collate(x, y) <= 0 && rules.collate(y, z) <= 0 ==> rules.collate(x, z) <= 0)
  }

  // ---------------------------------------------------------------------------
  // Filter, remove duplicates, sort, cut
  // ---------------------------------------------------------------------------

  function Allowed(candidates: seq<Option<string>>, isAllowed: string -> bool): seq<string> {
    if candidates == [] then []
    else
      (if candidates[0].Some? && isAllowed(candidates[0].value) then [candidates[0].value] else [])
      + Allowed(candidates[1..], isAllowed)
  }

  /** `new Set`: the first occurrence of each path, in order. */
  function Unique(paths: seq<string>, seen: set<string>): seq<string> {
    if paths == [] then []
    else if paths[0] in seen then Unique(paths[1..], seen)
    else [paths[0]] + Unique(paths[1..], seen + {paths[0]})
  }

  function Insert(rules: Rules, requested: string, x: string, paths: seq<string>): seq<string> {
    if paths == [] || Before(rules, requested, x, paths[0]) then [x] + paths
    else [paths[0]] + Insert(rules, requested, x, paths[1..])
  }

  /** The stable sort by distance, then by name. */
  function Sorted(rules: Rules, requested: string, paths: seq<string>): seq<string> {
    if paths == [] then [] else Insert(rules, requested, paths[0], Sorted(rules, requested, paths[1..]))
  }

  function Cut<T>(xs: seq<T>, n: nat): seq<T> {
    if |xs| <= n then xs else xs[..n]
  }

  function FindSafePathSuggestions(rules: Rules, r: Request): Option<seq<string>> {
    var candidates := Bound(r.maxCandidates, MAX_SUGGESTION_CANDIDATES, MAX_SUGGESTION_CANDIDATES);
    var suggestions := Bound(r.maxSuggestions, DEFAULT_SUGGESTIONS, MAX_SUGGESTIONS);
    if candidates.None? || suggestions.None? then None
    else
      var unique := Unique(Allowed(Cut(r.candidates, candidates.value), r.isAllowed), {});
      Some(Cut(Sorted(rules, r.requestedPath, unique), suggestions.value))
  }

  // ---------------------------------------------------------------------------
  // What comes out
  // ---------------------------------------------------------------------------

  predicate NoRepeats(paths: seq<string>) {
    forall i, j :: 0 <= i < j < |paths| ==> paths[i] != paths[j]
  }

  ghost predicate InOrder(rules: Rules, requested: string, paths: seq<string>) {
    forall i, j :: 0 <= i < j < |paths| ==> Before(rules, requested, paths[i], paths[j])
  }

  lemma {:induction false} AllowedHas(candidates: seq<Option<string>>, isAllowed: string -> bool, x: string)
    ensures x in Allowed(candidates, isAllowed) <==> Some(x) in candidates && isAllowed(x)
  {
    if candidates != [] {
      AllowedHas(candidates[1..], isAllowed, x);
      assert candidates == [candidates[0]] + candidates[1..];
    }
  }

  lemma {:induction false} UniqueHas(paths: seq<string>, seen: set<string>)
    ensures NoRepeats(Unique(paths, seen))
    ensures forall x :: x in Unique(paths, seen) <==> x in paths && x !in seen
  {
    if paths != [] {
      assert paths == [paths[0]] + paths[1..];
      UniqueHas(paths[1..], if paths[0] in seen then seen else seen + {paths[0]});
    }
  }

  lemma {:induction false} BeforeIsTransitive(rules: Rules, requested: string, x: string, y: string, z: string)
    requires Collates(rules) && Before(rules, requested, x, y) && Before(rules, requested, y, z)
    ensures Before(rules, requested, x, z)
  {
  }

  lemma {:induction false} InsertKeeps(rules: Rules, requested: string, x: string, paths: seq<string>)
    requires Collates(rules) && InOrder(rules, requested, paths)
    ensures InOrder(rules, requested, Insert(rules, requested, x, paths))
    ensures multiset(Insert(rules, requested, x, paths)) == multiset(paths) + multiset{x}
  {
    if paths != [] {
      assert paths == [paths[0]] + paths[1..];
      if Before(rules, requested, x, paths[0]) {
        forall j | 0 <= j < |paths|
          ensures Before(rules, requested, x, paths[j])
        {
          if j > 0 { BeforeIsTransitive(rules, requested, x, paths[0], paths[j]); }
        }
      } else {
        InsertKeeps(rules, requested, x, paths[1..]);
        InsertBehind(rules, requested, x, paths);
      }
    }
  }

  lemma {:induction false} InsertBehind(rules: Rules, requested: string, x: string, paths: seq<string>)
    requires Collates(rules) && paths != [] && InOrder(rules, requested, paths) && !Before(rules, requested, x, paths[0])
    requires multiset(Insert(rules, requested, x, paths[1..])) == multiset(paths[1..]) + multiset{x}
    ensures forall y :: y in Insert(rules, requested, x, paths[1..]) ==> Before(rules, requested, paths[0], y)
  {
    var rest := Insert(rules, requested, x, paths[1..]);
    forall y | y in rest
      ensures Before(rules, requested, paths[0], y)
    {
      assert y in multiset(rest);
      if y != x {
        assert y in multiset(paths[1..]);
        var j :| 0 <= j < |paths[1..]| && paths[1..][j] == y;
        assert paths[j + 1] == y;
      }
    }
  }

  lemma {:induction false} SortedIsOrdered(rules: Rules, requested: string, paths: seq<string>)
    requires Collates(rules)
    ensures InOrder(rules, requested, Sorted(rules, requested, paths))
    ensures multiset(Sorted(rules, requested, paths)) == multiset(paths)
  {
    if paths != [] {
      var x, rest := paths[0], paths[1..];
      assert multiset(paths) == multiset(rest) + multiset{x} by { assert paths == [x] + rest; }
      SortedIsOrdered(rules, requested, rest);
      InsertKeeps(rules, requested, x, Sorted(rules, requested, rest));
    }
  }

  lemma {:induction false} SamePaths(a: seq<string>, b: seq<string>)
    requires multiset(a) == multiset(b) && NoRepeats(a)
    ensures NoRepeats(b) && |a| == |b| && forall x :: x in a <==> x in b
  {
    assert |multiset(a)| == |a| && |multiset(b)| == |b|;
    forall x
      ensures x in a <==> x in b
    {
      assert x in a <==> x in multiset(a);
      assert x in b <==> x in multiset(b);
    }
    forall i, j | 0 <= i < j < |b|
      ensures b[i] != b[j]
    {
      if b[i] == b[j] {
        TwiceInMultiset(b, i, j);
        OnceInMultiset(a, b[i]);
      }
    }
  }

  lemma {:induction false} TwiceInMultiset(b: seq<string>, i: nat, j: nat)
    requires i < j < |b| && b[i] == b[j]
    ensures multiset(b)[b[i]] >= 2
  {
    assert b == b[..j] + b[j..];
    assert b[..j][i] == b[i] && b[j..][0] == b[i];
    assert multiset(b) == multiset(b[..j]) + multiset(b[j..]);
    assert b[i] in multiset(b[..j]) && b[i] in multiset(b[j..]);
  }

  lemma {:induction false} OnceInMultiset(a: seq<string>, x: string)
    requires NoRepeats(a)
    ensures multiset(a)[x] <= 1
  {
    if a != [] {
      assert a == [a[0]] + a[1..];
      OnceInMultiset(a[1..], x);
      if x == a[0] { assert x !in a[1..]; assert x !in multiset(a[1..]); }
    }
  }

  predicate GoodBounds(r: Request) {
    (r.maxCandidates.Some? ==> r.maxCandidates.value >= 1) && (r.maxSuggestions.Some? ==> r.maxSuggestions.value >= 1)
  }

  /** A path that may be suggested: among the first candidates, at most 5000, and allowed. */
  predicate Eligible(r: Request, path: string) {
    && r.isAllowed(path)
    && exists i :: 0 <= i < |r.candidates| && i < 5000 && (r.maxCandidates.Some? ==> i < r.maxCandidates.value)
                   && r.candidates[i] == Some(path)
  }

  /** `n` is the number of suggestions asked for: 3 by default, and at most 5. */
  predicate Asked(r: Request, n: nat) {
    if r.maxSuggestions.None? then n == 3 else if r.maxSuggestions.value > 5 then n == 5 else n == r.maxSuggestions.value
  }

  /** `x` is nearer than `y`, or as near and not later by name. */
  predicate NoFarther(rules: Rules, requested: string, x: string, y: string) {
    var near, far := EditDistance.PathMetric(rules.normalize(requested), rules.normalize(x)),
                     EditDistance.PathMetric(rules.normalize(requested), rules.normalize(y));
    near <= far && (near == far ==> rules.collate(x, y) <= 0)
  }

  lemma {:induction false} BeforeIsNoFarther(rules: Rules, requested: string, x: string, y: string)
    ensures Before(rules, requested, x, y) <==> NoFarther(rules, requested, x, y)
  {
  }

  ghost predicate NoneFarther(rules: Rules, requested: string, paths: seq<string>) {
    forall i, j :: 0 <= i < j < |paths| ==> NoFarther(rules, requested, paths[i], paths[j])
  }

  lemma {:induction false} FirstCandidates(r: Request, n: nat, path: string)
    requires GoodBounds(r) && Bound(r.maxCandidates, MAX_SUGGESTION_CANDIDATES, MAX_SUGGESTION_CANDIDATES) == Some(n)
    ensures Some(path) in Cut(r.candidates, n) && r.isAllowed(path) <==> Eligible(r, path)
  {
    if Some(path) in Cut(r.candidates, n) {
      var i :| 0 <= i < |Cut(r.candidates, n)| && Cut(r.candidates, n)[i] == Some(path);
      assert r.candidates[i] == Some(path);
    }
    if Eligible(r, path) {
      var i :| 0 <= i < |r.candidates| && i < 5000 && (r.maxCandidates.Some? ==> i < r.maxCandidates.value)
               && r.candidates[i] == Some(path);
      assert Cut(r.candidates, n)[i] == Some(path);
    }
  }

  /** There are suggestions exactly when the bounds given are positive. */
  lemma {:induction false} SuggestsExactly(rules: Rules, r: Request)
    ensures FindSafePathSuggestions(rules, r).Some? <==> GoodBounds(r)
  {
  }

  /**
   * The suggestions are eligible paths, each once, in order of distance and then of name; no eligible path left out
   * comes before one of them; and one is left out only when as many as asked for are there.
   */
  lemma {:induction false} SuggestionsAreNearest(rules: Rules, r: Request, n: nat)
    requires Collates(rules) && GoodBounds(r) && Asked(r, n)
    ensures FindSafePathSuggestions(rules, r).Some?
    ensures var out := FindSafePathSuggestions(rules, r).value;
            && NoRepeats(out) && NoneFarther(rules, r.requestedPath, out) && |out| <= n
            && (forall x :: x in out ==> Eligible(r, x))
            && (forall y :: Eligible(r, y) && y !in out ==>
                  |out| == n && forall x :: x in out ==> NoFarther(rules, r.requestedPath, x, y))
  {
    SuggestsExactly(rules, r);
    AskedIsBound(r, n);
    var most := Bound(r.maxCandidates, MAX_SUGGESTION_CANDIDATES, MAX_SUGGESTION_CANDIDATES).value;
    var some := Cut(r.candidates, most);
    var unique := Unique(Allowed(some, r.isAllowed), {});
    UniqueHas(Allowed(some, r.isAllowed), {});
    SortedIsOrdered(rules, r.requestedPath, unique);
    var all := Sorted(rules, r.requestedPath, unique);
    SamePaths(unique, all);
    forall x
      ensures x in all <==> Eligible(r, x)
    {
      AllowedHas(some, r.isAllowed, x);
      FirstCandidates(r, most, x);
    }
    CutIsNearest(rules, r.requestedPath, all, n);
    forall x, y
      ensures Before(rules, r.requestedPath, x, y) <==> NoFarther(rules, r.requestedPath, x, y)
    {
      BeforeIsNoFarther(rules, r.requestedPath, x, y);
    }
  }

  lemma {:induction false} AskedIsBound(r: Request, n: nat)
    requires GoodBounds(r) && Asked(r, n)
    ensures Bound(r.maxSuggestions, DEFAULT_SUGGESTIONS, MAX_SUGGESTIONS) == Some(n)
  {
  }

  lemma {:induction false} CutIsNearest(rules: Rules, requested: string, all: seq<string>, n: nat)
    requires NoRepeats(all) && InOrder(rules, requested, all)
    ensures var out := Cut(all, n);
            && NoRepeats(out) && InOrder(rules, requested, out) && |out| <= n && (forall x :: x in out ==> x in all)
            && (forall y :: y in all && y !in out ==> |out| == n && forall x :: x in out ==> Before(rules, requested, x, y))
  {
    var out := Cut(all, n);
    forall y, x | y in all && y !in out && x in out
      ensures Before(rules, requested, x, y)
    {
      var i :| 0 <= i < |out| && out[i] == x;
      var j :| 0 <= j < |all| && all[j] == y;
      assert all[i] == x && j >= |out|;
    }
  }
}
