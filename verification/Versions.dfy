/** `compareAutomationVersions` and `versionInRange`: where the order is one, and where it is not. */
module Versions {
  import opened Text
  import RecoveryCode

  /** Four numeric segments and the dot-separated prerelease identifiers, if any. */
  datatype Version = Version(numeric: seq<nat>, prerelease: Option<seq<string>>)

  /** `localeCompare`. */
  type Collate = (string, string) -> int

  /** The one assumption on it: a strict total order of distinct identifiers, with mirrored signs. */
  ghost predicate TotalOrder(collate: Collate) {
    && (forall x, y :: x != y ==> collate(x, y) != 0)
    && (forall x, y :: collate(x, y) < 0 <==> collate(y, x) > 0)
    && (forall x, y, z :: collate(x, y) < 0 && collate(y, z) < 0 ==> collate(x, z) < 0)
  }

  // ---------------------------------------------------------------------------
  // Parsing
  // ---------------------------------------------------------------------------

  predicate PrereleaseChar(c: char) {
    IsDigit(c) || 'A' <= c <= 'Z' || 'a' <= c <= 'z' || c == '.' || c == '-'
  }

  function TrimStart(s: string): string {
    if s != "" && RecoveryCode.IsSpace(s[0]) then TrimStart(s[1..]) else s
  }

  function TrimEnd(s: string): string {
    if s != "" && RecoveryCode.IsSpace(s[|s| - 1]) then TrimEnd(s[..|s| - 1]) else s
  }

  function ParseSegments(segments: seq<string>): seq<nat>
    requires forall i :: 0 <= i < |segments| ==> AllDigits(segments[i])
  {
    seq(|segments|, i requires 0 <= i < |segments| => assert AllDigits(segments[i]); NatOf(segments[i]))
  }

  function Padded(numeric: seq<nat>): (r: seq<nat>)
    requires |numeric| <= 4
    ensures |r| == 4 && numeric <= r
    decreases 4 - |numeric|
  {
    if |numeric| == 4 then numeric else Padded(numeric + [0])
  }

  function Bare(text: string): string {
    var trimmed := TrimEnd(TrimStart(text));
    if trimmed != "" && trimmed[0] == 'v' then trimmed[1..] else trimmed
  }

  predicate SafeSegments(segments: seq<string>) {
    |segments| <= 4 && forall i :: 0 <= i < |segments| ==> AllDigits(segments[i])
  }

  predicate SafePrerelease(rest: string) {
    rest != "" && forall i :: 0 <= i < |rest| ==> PrereleaseChar(rest[i])
  }

  /** `split("-", 2)` keeps only the part up to the second dash, and an empty part means no prerelease. */
  function ParseParts(parts: seq<string>): (v: Option<Version>)
    requires |parts| >= 1
    ensures v.Some? ==> |v.value.numeric| == 4
  {
    var segments := Split(parts[0], '.');
    if !SafeSegments(segments) || (|parts| > 1 && !SafePrerelease(Join(parts[1..], '-'))) then None
    else
      Some(Version(Padded(ParseSegments(segments)),
                   if |parts| > 1 && parts[1] != "" then Some(Split(parts[1], '.')) else None))
  }

  function ParseVersion(text: string): (v: Option<Version>)
    ensures v.Some? ==> |v.value.numeric| == 4
  {
    ParseParts(Split(Bare(text), '-'))
  }

  // ---------------------------------------------------------------------------
  // Comparison
  // ---------------------------------------------------------------------------

  function CompareNumeric(a: seq<nat>, b: seq<nat>): int
    requires |a| == |b|
  {
    if a == [] then 0 else if a[0] != b[0] then a[0] - b[0] else CompareNumeric(a[1..], b[1..])
  }

  /** Two different identifiers: numbers by value, below words; equal values compare equal. */
  function CompareIdentifiers(collate: Collate, x: string, y: string): int {
    if AllDigits(x) && AllDigits(y) then NatOf(x) - NatOf(y)
    else if AllDigits(x) then -1
    else if AllDigits(y) then 1
    else collate(x, y)
  }

  /** The first pair of identifiers that differ as text decides, even when it compares equal. */
  function ComparePrereleases(collate: Collate, a: seq<string>, b: seq<string>): int {
    if a == [] && b == [] then 0
    else if a == [] then -1
    else if b == [] then 1
    else if a[0] == b[0] then ComparePrereleases(collate, a[1..], b[1..])
    else CompareIdentifiers(collate, a[0], b[0])
  }

  function Compare(collate: Collate, a: Version, b: Version): int
    requires |a.numeric| == |b.numeric|
  {
    if CompareNumeric(a.numeric, b.numeric) != 0 then CompareNumeric(a.numeric, b.numeric)
    else if a.prerelease.None? && b.prerelease.None? then 0
    else if a.prerelease.None? then 1
    else if b.prerelease.None? then -1
    else ComparePrereleases(collate, a.prerelease.value, b.prerelease.value)
  }

  method CompareAutomationVersions(collate: Collate, a: string, b: string) returns (r: Option<int>)
    ensures r == if ParseVersion(a).None? || ParseVersion(b).None? then None
                 else Some(Compare(collate, ParseVersion(a).value, ParseVersion(b).value))
  {
    var left, right := ParseVersion(a), ParseVersion(b);
    if left.None? || right.None? {
      return None;
    }
    var l, q := left.value, right.value;
    assert l.numeric[0..] == l.numeric && q.numeric[0..] == q.numeric;
    for index := 0 to 4
      invariant CompareNumeric(l.numeric, q.numeric) == CompareNumeric(l.numeric[index..], q.numeric[index..])
    {
      var li: int, qi: int := l.numeric[index], q.numeric[index];
      var difference := li - qi;
      if difference != 0 {
        return Some(difference);
      }
    }
    if l.prerelease.None? && q.prerelease.None? {
      return Some(0);
    }
    if l.prerelease.None? {
      return Some(1);
    }
    if q.prerelease.None? {
      return Some(-1);
    }
    var lp, qp := l.prerelease.value, q.prerelease.value;
    assert lp[0..] == lp && qp[0..] == qp;
    var index := 0;
    while index < |lp| || index < |qp|
      invariant index <= |lp| && index <= |qp|
      invariant ComparePrereleases(collate, lp, qp) == ComparePrereleases(collate, lp[index..], qp[index..])
      decreases |lp| + |qp| - index
    {
      if index >= |lp| {
        return Some(-1);
      }
      if index >= |qp| {
        return Some(1);
      }
      if lp[index] != qp[index] {
        return Some(CompareIdentifiers(collate, lp[index], qp[index]));
      }
      index := index + 1;
    }
    r := Some(0);
  }

  // ---------------------------------------------------------------------------
  // Where it is a total preorder
  // ---------------------------------------------------------------------------

  /** A numeric identifier without leading zeros, or a word. */
  predicate CanonicalIdentifier(x: string) {
    AllDigits(x) ==> |x| == 1 || x[0] != '0'
  }

  predicate CanonicalList(a: seq<string>) {
    forall i :: 0 <= i < |a| ==> CanonicalIdentifier(a[i])
  }

  predicate Canonical(v: Version) {
    |v.numeric| == 4 && (v.prerelease.Some? ==> CanonicalList(v.prerelease.value))
  }

  lemma {:induction false} LeadingDigitCounts(x: string)
    requires AllDigits(x) && x[0] != '0'
    ensures NatOf(x) > 0
  {
    if |x| > 1 {
      LeadingDigitCounts(x[..|x| - 1]);
    } else {
      assert x[..0] == "";
    }
  }

  lemma {:induction false} SameNumberSameDigits(x: string, y: string)
    requires AllDigits(x) && AllDigits(y) && CanonicalIdentifier(x) && CanonicalIdentifier(y)
    requires NatOf(x) == NatOf(y)
    ensures x == y
  {
    var x', y' := x[..|x| - 1], y[..|y| - 1];
    assert x == x' + [x[|x| - 1]] && y == y' + [y[|y| - 1]];
    if x' != "" { LeadingDigitCounts(x'); }
    if y' != "" { LeadingDigitCounts(y'); }
    if x' != "" && y' != "" {
      SameNumberSameDigits(x', y');
    }
  }

  /** On different canonical identifiers the comparison is never zero. */
  lemma {:induction false} IdentifiersDiffer(collate: Collate, x: string, y: string)
    requires TotalOrder(collate) && CanonicalIdentifier(x) && CanonicalIdentifier(y) && x != y
    ensures CompareIdentifiers(collate, x, y) != 0
  {
    if AllDigits(x) && AllDigits(y) && NatOf(x) == NatOf(y) {
      SameNumberSameDigits(x, y);
    }
  }

  lemma {:induction false} NumericOrder(a: seq<nat>, b: seq<nat>, c: seq<nat>)
    requires |a| == |b| == |c|
    ensures CompareNumeric(a, b) < 0 <==> CompareNumeric(b, a) > 0
    ensures CompareNumeric(a, b) == 0 <==> a == b
    ensures CompareNumeric(a, b) < 0 && CompareNumeric(b, c) < 0 ==> CompareNumeric(a, c) < 0
  {
    if a != [] {
      NumericOrder(a[1..], b[1..], c[1..]);
      assert a == [a[0]] + a[1..] && b == [b[0]] + b[1..];
    }
  }

  lemma {:induction false} PrereleaseSigns(collate: Collate, a: seq<string>, b: seq<string>)
    requires TotalOrder(collate)
    ensures ComparePrereleases(collate, a, b) < 0 <==> ComparePrereleases(collate, b, a) > 0
    decreases |a|
  {
    if a != [] && b != [] && a[0] == b[0] {
      PrereleaseSigns(collate, a[1..], b[1..]);
    }
  }

  /** Antisymmetry of signs holds for all versions, leading zeros included. */
  lemma {:induction false} SignsMirror(collate: Collate, a: Version, b: Version)
    requires TotalOrder(collate) && |a.numeric| == |b.numeric| == 4
    ensures Compare(collate, a, b) < 0 <==> Compare(collate, b, a) > 0
    ensures Compare(collate, a, b) == 0 <==> Compare(collate, b, a) == 0
  {
    NumericOrder(a.numeric, b.numeric, a.numeric);
    NumericOrder(b.numeric, a.numeric, b.numeric);
    if a.prerelease.Some? && b.prerelease.Some? {
      PrereleaseSigns(collate, a.prerelease.value, b.prerelease.value);
      PrereleaseSigns(collate, b.prerelease.value, a.prerelease.value);
    }
  }

  lemma {:induction false} PrereleaseEqual(collate: Collate, a: seq<string>, b: seq<string>)
    requires TotalOrder(collate) && CanonicalList(a) && CanonicalList(b)
    ensures ComparePrereleases(collate, a, b) == 0 <==> a == b
    decreases |a|
  {
    if a != [] && b != [] {
      assert a == [a[0]] + a[1..] && b == [b[0]] + b[1..];
      if a[0] == b[0] {
        PrereleaseEqual(collate, a[1..], b[1..]);
      } else {
        assert CanonicalIdentifier(a[0]) && CanonicalIdentifier(b[0]);
        IdentifiersDiffer(collate, a[0], b[0]);
      }
    }
  }

  /** On canonical versions zero means the same version. */
  lemma {:induction false} ZeroMeansEqual(collate: Collate, a: Version, b: Version)
    requires TotalOrder(collate) && Canonical(a) && Canonical(b)
    ensures Compare(collate, a, b) == 0 <==> a == b
  {
    NumericOrder(a.numeric, b.numeric, a.numeric);
    if a.prerelease.Some? && b.prerelease.Some? {
      PrereleaseEqual(collate, a.prerelease.value, b.prerelease.value);
    }
  }

  lemma {:induction false} PrereleaseTransitive(collate: Collate, a: seq<string>, b: seq<string>, c: seq<string>)
    requires TotalOrder(collate) && CanonicalList(a) && CanonicalList(b) && CanonicalList(c)
    requires ComparePrereleases(collate, a, b) < 0 && ComparePrereleases(collate, b, c) < 0
    ensures ComparePrereleases(collate, a, c) < 0
    decreases |a|
  {
    if a != [] {
      assert CanonicalIdentifier(a[0]) && CanonicalIdentifier(b[0]) && CanonicalIdentifier(c[0]);
      if a[0] == b[0] && b[0] == c[0] {
        PrereleaseTransitive(collate, a[1..], b[1..], c[1..]);
      }
    }
  }

  lemma {:induction false} Transitive(collate: Collate, a: Version, b: Version, c: Version)
    requires TotalOrder(collate) && Canonical(a) && Canonical(b) && Canonical(c)
    requires Compare(collate, a, b) <= 0 && Compare(collate, b, c) <= 0
    ensures Compare(collate, a, c) <= 0
  {
    ZeroMeansEqual(collate, a, b);
    ZeroMeansEqual(collate, b, c);
    if a != b && b != c {
      NumericOrder(a.numeric, b.numeric, c.numeric);
      NumericOrder(b.numeric, c.numeric, a.numeric);
      NumericOrder(a.numeric, c.numeric, b.numeric);
      if a.prerelease.Some? && b.prerelease.Some? && c.prerelease.Some? && a.numeric == b.numeric == c.numeric {
        PrereleaseTransitive(collate, a.prerelease.value, b.prerelease.value, c.prerelease.value);
      }
    }
  }

  // ---------------------------------------------------------------------------
  // Exactly there
  // ---------------------------------------------------------------------------

  /** Comparisons through `b` are transitive. */
  ghost predicate SafePivot(collate: Collate, b: Version)
    requires |b.numeric| == 4
  {
    forall a, c :: Canonical(a) && Canonical(c) && Compare(collate, a, b) <= 0 && Compare(collate, b, c) <= 0 ==>
      Compare(collate, a, c) <= 0
  }

  lemma {:induction false} AfterCommonPrefix(collate: Collate, p: seq<string>, a: seq<string>, b: seq<string>)
    ensures ComparePrereleases(collate, p + a, p + b) == ComparePrereleases(collate, a, b)
  {
    if p == [] {
      assert p + a == a && p + b == b;
    } else {
      AfterCommonPrefix(collate, p[1..], a, b);
      assert (p + a)[1..] == p[1..] + a && (p + b)[1..] == p[1..] + b;
    }
  }

  lemma {:induction false} FirstBad(a: seq<string>) returns (i: nat)
    requires !CanonicalList(a)
    ensures i < |a| && !CanonicalIdentifier(a[i]) && CanonicalList(a[..i])
  {
    if !CanonicalIdentifier(a[0]) {
      i := 0;
    } else {
      i := FirstBad(a[1..]);
      i := i + 1;
      assert forall k :: 0 < k < i ==> a[k] == a[1..][..i - 1][k - 1];
    }
  }

  /** Lists that agree up to a numeric identifier written two ways tie there. */
  lemma {:induction false} TiedAt(collate: Collate, p: seq<string>, x: string, y: string, u: seq<string>, v: seq<string>)
    requires AllDigits(x) && AllDigits(y) && x != y && NatOf(x) == NatOf(y)
    ensures ComparePrereleases(collate, p + ([x] + u), p + ([y] + v)) == 0
  {
    AfterCommonPrefix(collate, p, [x] + u, [y] + v);
    assert ([x] + u)[0] == x && ([y] + v)[0] == y;
  }

  lemma {:induction false} ListTies(collate: Collate, list: seq<string>) returns (la: seq<string>, lc: seq<string>)
    requires !CanonicalList(list)
    ensures CanonicalList(la) && CanonicalList(lc)
    ensures ComparePrereleases(collate, la, list) == 0 && ComparePrereleases(collate, list, lc) == 0
    ensures ComparePrereleases(collate, la, lc) > 0
  {
    var i := FirstBad(list);
    var p, bad, rest := list[..i], list[i], list[i + 1..];
    var twin := Decimal(NatOf(bad));
    NatOfDecimal(NatOf(bad));
    assert list == p + ([bad] + rest);
    la, lc := p + ([twin] + ["1"]), p + ([twin] + ["0"]);
    TiedAt(collate, p, twin, bad, ["1"], rest);
    TiedAt(collate, p, bad, twin, rest, ["0"]);
    OneAboveNought(collate, p, twin);
    CanonicalWith(p, twin, "1");
    CanonicalWith(p, twin, "0");
  }

  lemma {:induction false} CanonicalWith(p: seq<string>, x: string, last: string)
    requires CanonicalList(p) && CanonicalIdentifier(x) && CanonicalIdentifier(last)
    ensures CanonicalList(p + ([x] + [last]))
  {
  }

  lemma {:induction false} OneAboveNought(collate: Collate, p: seq<string>, x: string)
    ensures ComparePrereleases(collate, p + ([x] + ["1"]), p + ([x] + ["0"])) > 0
  {
    AfterCommonPrefix(collate, p, [x] + ["1"], [x] + ["0"]);
    assert [x] + ["1"] == [x, "1"] && [x] + ["0"] == [x, "0"];
    ComparePairs(collate, x, "1", x, "0");
    NatOfDigit('1');
    NatOfDigit('0');
  }

  lemma {:induction false} SameNumeric(collate: Collate, v: Version, x: seq<string>, y: seq<string>)
    requires |v.numeric| == 4
    ensures Compare(collate, v.(prerelease := Some(x)), v.(prerelease := Some(y))) == ComparePrereleases(collate, x, y)
  {
    SelfCompare(v.numeric);
  }

  /** Around an identifier with a leading zero there are canonical versions it wrongly ties together. */
  lemma {:induction false} LeadingZeroTies(collate: Collate, b: Version) returns (a: Version, c: Version)
    requires |b.numeric| == 4 && !Canonical(b)
    ensures Canonical(a) && Canonical(c)
    ensures Compare(collate, a, b) == 0 && Compare(collate, b, c) == 0 && Compare(collate, a, c) > 0
  {
    var list := b.prerelease.value;
    var la, lc := ListTies(collate, list);
    a, c := b.(prerelease := Some(la)), b.(prerelease := Some(lc));
    assert b == b.(prerelease := Some(list));
    SameNumeric(collate, b, la, list);
    SameNumeric(collate, b, list, lc);
    SameNumeric(collate, b, la, lc);
  }

  lemma {:induction false} SelfCompare(a: seq<nat>)
    ensures CompareNumeric(a, a) == 0
  {
    if a != [] {
      SelfCompare(a[1..]);
    }
  }

  /** Transitivity through a version holds exactly when its numeric identifiers have no leading zeros. */
  lemma {:induction false} SafePivotIffCanonical(collate: Collate, b: Version)
    requires TotalOrder(collate) && |b.numeric| == 4
    ensures SafePivot(collate, b) <==> Canonical(b)
  {
    if Canonical(b) {
      forall a, c | Canonical(a) && Canonical(c) && Compare(collate, a, b) <= 0 && Compare(collate, b, c) <= 0
        ensures Compare(collate, a, c) <= 0
      {
        Transitive(collate, a, b, c);
      }
    } else {
      var a, c := LeadingZeroTies(collate, b);
    }
  }

  // ---------------------------------------------------------------------------
  // Ranges
  // ---------------------------------------------------------------------------

  function VersionInRange(collate: Collate, installed: Option<string>, minimum: Option<string>, maximumExclusive: Option<string>)
    : bool
  {
    if minimum.None? && maximumExclusive.None? then true
    else if installed.None? || installed.value == "" then false
    else
      && (minimum.Some? ==>
            && ParseVersion(installed.value).Some? && ParseVersion(minimum.value).Some?
            && Compare(collate, ParseVersion(installed.value).value, ParseVersion(minimum.value).value) >= 0)
      && (maximumExclusive.Some? ==>
            && ParseVersion(installed.value).Some? && ParseVersion(maximumExclusive.value).Some?
            && Compare(collate, ParseVersion(installed.value).value, ParseVersion(maximumExclusive.value).value) < 0)
  }

  predicate CanonicalText(text: string) {
    ParseVersion(text).Some? && Canonical(ParseVersion(text).value)
  }

  /** An accepted range is convex: what lies between two accepted versions is accepted. */
  lemma {:induction false} RangesAreConvex(
      collate: Collate, a: string, b: string, c: string, minimum: Option<string>, maximumExclusive: Option<string>)
    requires TotalOrder(collate) && CanonicalText(a) && CanonicalText(b) && CanonicalText(c) && b != ""
    requires minimum.Some? ==> CanonicalText(minimum.value)
    requires maximumExclusive.Some? ==> CanonicalText(maximumExclusive.value)
    requires Compare(collate, ParseVersion(a).value, ParseVersion(b).value) <= 0
    requires Compare(collate, ParseVersion(b).value, ParseVersion(c).value) <= 0
    requires VersionInRange(collate, Some(a), minimum, maximumExclusive)
    requires VersionInRange(collate, Some(c), minimum, maximumExclusive)
    ensures VersionInRange(collate, Some(b), minimum, maximumExclusive)
  {
    var va, vb, vc := ParseVersion(a).value, ParseVersion(b).value, ParseVersion(c).value;
    if minimum.Some? {
      var low := ParseVersion(minimum.value).value;
      SignsMirror(collate, va, low);
      SignsMirror(collate, vb, low);
      Transitive(collate, low, va, vb);
    }
    if maximumExclusive.Some? {
      var high := ParseVersion(maximumExclusive.value).value;
      Transitive(collate, vb, vc, high);
      ZeroMeansEqual(collate, vb, high);
      if vb == high {
        SignsMirror(collate, vb, vc);
        SignsMirror(collate, vc, high);
      }
    }
  }

  // ---------------------------------------------------------------------------
  // A failing triple
  // ---------------------------------------------------------------------------

  /** A version text of one digit and two one- or two-digit prerelease numbers parses as written. */
  lemma {:induction false} NothingToTrim(text: string)
    requires text != "" && IsDigit(text[0]) && IsDigit(text[|text| - 1])
    ensures TrimEnd(TrimStart(text)) == text
  {
  }

  lemma {:induction false} PartsSmall(x: string, y: string)
    requires AllDigits(x) && AllDigits(y)
    ensures Free(x + ['.'] + y, '-')
    ensures ParseParts(["1", x + ['.'] + y]) == Some(Version([1, 0, 0, 0], Some([x, y])))
  {
    var tail := x + ['.'] + y;
    forall i | 0 <= i < |tail|
      ensures tail[i] != '-' && PrereleaseChar(tail[i])
    {
      assert i < |x| ==> tail[i] == x[i];
      assert i > |x| ==> tail[i] == y[i - |x| - 1];
    }
    SplitFree("1", '.');
    SplitPair(x, y);
    assert ["1", tail][1..] == [tail] && Join([tail], '-') == tail;
    NatOfDigit('1');
    assert ParseSegments(["1"]) == [1];
    PaddedOne();
  }

  lemma {:induction false} PaddedOne()
    ensures Padded([1]) == [1, 0, 0, 0]
  {
    assert [1] + [0] == [1, 0] && [1, 0] + [0] == [1, 0, 0] && [1, 0, 0] + [0] == [1, 0, 0, 0];
    assert Padded([1, 0, 0, 0]) == [1, 0, 0, 0];
    assert Padded([1, 0, 0]) == [1, 0, 0, 0];
  }

  lemma {:induction false} ParseSmall(x: string, y: string)
    requires AllDigits(x) && AllDigits(y)
    ensures ParseVersion("1" + ['-'] + (x + ['.'] + y)) == Some(Version([1, 0, 0, 0], Some([x, y])))
  {
    var tail := x + ['.'] + y;
    var text := "1" + ['-'] + tail;
    assert text[|text| - 1] == y[|y| - 1] && IsDigit(y[|y| - 1]);
    NothingToTrim(text);
    PartsSmall(x, y);
    SplitCons("1", tail, '-');
    SplitFree(tail, '-');
    assert ["1"] + [tail] == ["1", tail];
  }

  lemma {:induction false} SplitPair(x: string, y: string)
    requires AllDigits(x) && AllDigits(y)
    ensures Split(x + ['.'] + y, '.') == [x, y]
  {
    SplitCons(x, y, '.');
    SplitFree(y, '.');
    assert [x] + [y] == [x, y];
  }

  lemma {:induction false} ComparePairs(collate: Collate, a0: string, a1: string, b0: string, b1: string)
    ensures ComparePrereleases(collate, [a0, a1], [b0, b1])
            == if a0 != b0 then CompareIdentifiers(collate, a0, b0)
               else if a1 != b1 then CompareIdentifiers(collate, a1, b1) else 0
  {
    var none: seq<string> := [];
    assert ComparePrereleases(collate, none, none) == 0;
    assert [a1][1..] == none && [b1][1..] == none;
    assert [a0, a1][1..] == [a1] && [b0, b1][1..] == [b1];
    assert ComparePrereleases(collate, [a1], [b1]) == if a1 != b1 then CompareIdentifiers(collate, a1, b1) else 0;
  }

  lemma {:induction false} NatOfDigit(c: char)
    requires IsDigit(c)
    ensures NatOf([c]) == (c - '0') as nat
  {
    assert [c][..0] == "";
  }

  lemma {:induction false} SmallTexts()
    ensures ParseVersion("1-1.5") == Some(Version([1, 0, 0, 0], Some(["1", "5"])))
    ensures ParseVersion("1-01.5") == Some(Version([1, 0, 0, 0], Some(["01", "5"])))
    ensures ParseVersion("1-1.3") == Some(Version([1, 0, 0, 0], Some(["1", "3"])))
  {
    assert "1" + ['-'] + ("1" + ['.'] + "5") == "1-1.5";
    assert "1" + ['-'] + ("01" + ['.'] + "5") == "1-01.5";
    assert "1" + ['-'] + ("1" + ['.'] + "3") == "1-1.3";
    ParseSmall("1", "5");
    ParseSmall("01", "5");
    ParseSmall("1", "3");
  }

  lemma {:induction false} SmallLists(collate: Collate)
    ensures ComparePrereleases(collate, ["1", "5"], ["01", "5"]) == 0
    ensures ComparePrereleases(collate, ["01", "5"], ["1", "3"]) == 0
    ensures ComparePrereleases(collate, ["1", "5"], ["1", "3"]) > 0
  {
    NatOfDigit('1');
    NatOfDigit('5');
    NatOfDigit('3');
    NatOfDigit('0');
    assert NatOf("01") == 1 by { assert "01"[..1] == "0"; }
    ComparePairs(collate, "1", "5", "01", "5");
    ComparePairs(collate, "01", "5", "1", "3");
    ComparePairs(collate, "1", "5", "1", "3");
  }

  /** `1-1.3` and `1-1.5` both compare equal to `1-01.5`, but not to each other. */
  lemma {:induction false} LeadingZeroBreaksTransitivity(collate: Collate)
    ensures var a, b, c := ParseVersion("1-1.5"), ParseVersion("1-01.5"), ParseVersion("1-1.3");
            && a.Some? && b.Some? && c.Some?
            && Compare(collate, a.value, b.value) == 0 && Compare(collate, b.value, c.value) == 0
            && Compare(collate, a.value, c.value) > 0
  {
    SmallTexts();
    SmallLists(collate);
    var one := Version([1, 0, 0, 0], None);
    SameNumeric(collate, one, ["1", "5"], ["01", "5"]);
    SameNumeric(collate, one, ["01", "5"], ["1", "3"]);
    SameNumeric(collate, one, ["1", "5"], ["1", "3"]);
  }
}
