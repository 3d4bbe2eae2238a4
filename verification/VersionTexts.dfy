/** The texts of versions: which texts are read as one, and as which. */
module VersionTexts {
  import opened Text
  import opened Versions
  import RecoveryCode

  predicate AllSpaces(s: string) {
    forall i :: 0 <= i < |s| ==> RecoveryCode.IsSpace(s[i])
  }

  predicate NumberTexts(segments: seq<string>) {
    1 <= |segments| <= 4 && forall i :: 0 <= i < |segments| ==> AllDigits(segments[i])
  }

  predicate PrereleaseText(p: string) {
    p != "" && forall i :: 0 <= i < |p| ==> PrereleaseChar(p[i])
  }

  /** Numbers with dots between, and a dash and a prerelease. */
  function BodyText(segments: seq<string>, prerelease: Option<string>): string {
    Join(segments, '.') + if prerelease.Some? then ['-'] + prerelease.value else ""
  }

  /** White space, maybe a `v`, a body, white space. */
  predicate Written(text: string, lead: string, mark: string, segments: seq<string>, prerelease: Option<string>, trail: string) {
    && AllSpaces(lead) && AllSpaces(trail) && (mark == "" || mark == "v") && NumberTexts(segments)
    && (prerelease.Some? ==> PrereleaseText(prerelease.value))
    && text == lead + ((mark + BodyText(segments, prerelease)) + trail)
  }

  /** The identifiers of a prerelease: what stands before its first dash, cut at the dots. */
  function Identifiers(prerelease: Option<string>): Option<seq<string>> {
    if prerelease.None? || Split(prerelease.value, '-')[0] == "" then None
    else Some(Split(Split(prerelease.value, '-')[0], '.'))
  }

  /** Missing numbers are zero. */
  function Numbers(segments: seq<string>): seq<nat>
    requires NumberTexts(segments)
  {
    seq(4, i requires 0 <= i < 4 => if i < |segments| then assert AllDigits(segments[i]); NatOf(segments[i]) else 0)
  }

  // ---------------------------------------------------------------------------
  // White space
  // ---------------------------------------------------------------------------

  lemma {:induction false} TrimsLead(lead: string, rest: string)
    requires AllSpaces(lead) && rest != "" && !RecoveryCode.IsSpace(rest[0])
    ensures TrimStart(lead + rest) == rest
  {
    if lead == "" {
      assert lead + rest == rest;
    } else {
      TrimsLead(lead[1..], rest);
      assert (lead + rest)[1..] == lead[1..] + rest;
    }
  }

  lemma {:induction false} TrimsTrail(rest: string, trail: string)
    requires AllSpaces(trail) && rest != "" && !RecoveryCode.IsSpace(rest[|rest| - 1])
    ensures TrimEnd(rest + trail) == rest
  {
    if trail == "" {
      assert rest + trail == rest;
    } else {
      var all := rest + trail;
      TrimsTrail(rest, trail[..|trail| - 1]);
      assert all[..|all| - 1] == rest + trail[..|trail| - 1] && all[|all| - 1] == trail[|trail| - 1];
    }
  }

  lemma {:induction false} LeadTrimmed(s: string) returns (lead: string)
    ensures AllSpaces(lead) && s == lead + TrimStart(s)
  {
    if s != "" && RecoveryCode.IsSpace(s[0]) {
      var rest := LeadTrimmed(s[1..]);
      lead := [s[0]] + rest;
      assert s == [s[0]] + s[1..];
    } else {
      lead := "";
      assert lead + s == s;
    }
  }

  lemma {:induction false} TrailTrimmed(s: string) returns (trail: string)
    ensures AllSpaces(trail) && s == TrimEnd(s) + trail
    decreases |s|
  {
    if s != "" && RecoveryCode.IsSpace(s[|s| - 1]) {
      var rest := TrailTrimmed(s[..|s| - 1]);
      trail := rest + [s[|s| - 1]];
      assert s == s[..|s| - 1] + [s[|s| - 1]];
    } else {
      trail := "";
      assert s + trail == s;
    }
  }

  // ---------------------------------------------------------------------------
  // Bodies
  // ---------------------------------------------------------------------------

  predicate BodyChar(c: char) {
    IsDigit(c) || c == '.'
  }

  lemma {:induction false} NumbersText(segments: seq<string>)
    requires segments != [] && forall i :: 0 <= i < |segments| ==> AllDigits(segments[i])
    ensures var main := Join(segments, '.');
            && main != "" && IsDigit(main[0]) && IsDigit(main[|main| - 1])
            && (forall i :: 0 <= i < |main| ==> BodyChar(main[i])) && Free(main, '-')
  {
    assert AllDigits(segments[0]);
    if |segments| > 1 {
      NumbersText(segments[1..]);
      var rest := Join(segments[1..], '.');
      assert Join(segments, '.') == segments[0] + ['.'] + rest;
    }
  }

  lemma {:induction false} SegmentsSplit(segments: seq<string>)
    requires NumberTexts(segments)
    ensures Split(Join(segments, '.'), '.') == segments
  {
    forall i | 0 <= i < |segments|
      ensures Free(segments[i], '.')
    {
      assert AllDigits(segments[i]);
    }
    SplitJoin(segments, '.');
  }

  lemma {:induction false} PaddedNumbers(numeric: seq<nat>)
    requires |numeric| <= 4
    ensures forall i :: |numeric| <= i < 4 ==> Padded(numeric)[i] == 0
    decreases 4 - |numeric|
  {
    if |numeric| < 4 {
      PaddedNumbers(numeric + [0]);
      assert (numeric + [0])[|numeric|] == 0;
    }
  }

  lemma {:induction false} NumbersParse(segments: seq<string>)
    requires NumberTexts(segments)
    ensures Padded(ParseSegments(segments)) == Numbers(segments)
  {
    PaddedNumbers(ParseSegments(segments));
  }

  lemma {:induction false} BodyParses(segments: seq<string>, prerelease: Option<string>)
    requires NumberTexts(segments) && (prerelease.Some? ==> PrereleaseText(prerelease.value))
    ensures ParseParts(Split(BodyText(segments, prerelease), '-')) == Some(Version(Numbers(segments), Identifiers(prerelease)))
  {
    var main := Join(segments, '.');
    NumbersText(segments);
    SegmentsSplit(segments);
    NumbersParse(segments);
    if prerelease.None? {
      assert main + "" == main;
      SplitFree(main, '-');
    } else {
      var p := prerelease.value;
      assert main + (['-'] + p) == main + ['-'] + p;
      SplitCons(main, p, '-');
      JoinSplit(p, '-');
      assert ([main] + Split(p, '-'))[1..] == Split(p, '-');
    }
  }

  lemma {:induction false} BodyEnds(segments: seq<string>, prerelease: Option<string>)
    requires NumberTexts(segments) && (prerelease.Some? ==> PrereleaseText(prerelease.value))
    ensures var body := BodyText(segments, prerelease);
            body != "" && IsDigit(body[0]) && PrereleaseChar(body[|body| - 1])
  {
    NumbersText(segments);
    if prerelease.Some? { assert PrereleaseChar(prerelease.value[|prerelease.value| - 1]); }
  }

  /** A written version is read as its numbers and identifiers. */
  lemma {:induction false} WrittenParses(
      text: string, lead: string, mark: string, segments: seq<string>, prerelease: Option<string>, trail: string)
    requires Written(text, lead, mark, segments, prerelease, trail)
    ensures ParseVersion(text) == Some(Version(Numbers(segments), Identifiers(prerelease)))
  {
    var body := BodyText(segments, prerelease);
    var marked := mark + body;
    BodyEnds(segments, prerelease);
    assert marked[|marked| - 1] == body[|body| - 1] && !RecoveryCode.IsSpace(marked[|marked| - 1]);
    assert marked[0] == (if mark == "" then body[0] else 'v');
    assert (marked + trail)[0] == marked[0];
    TrimsLead(lead, marked + trail);
    TrimsTrail(marked, trail);
    assert Bare(text) == body by {
      if mark == "" { assert marked == body; } else { assert marked[1..] == body; }
    }
    BodyParses(segments, prerelease);
  }

  lemma {:induction false} ParsedParts(bare: string) returns (segments: seq<string>, prerelease: Option<string>)
    requires ParseParts(Split(bare, '-')).Some?
    ensures NumberTexts(segments) && (prerelease.Some? ==> PrereleaseText(prerelease.value))
    ensures bare == BodyText(segments, prerelease)
  {
    var parts := Split(bare, '-');
    JoinSplit(bare, '-');
    segments := Split(parts[0], '.');
    JoinSplit(parts[0], '.');
    if |parts| == 1 {
      prerelease := None;
      assert parts[0] + "" == parts[0];
    } else {
      prerelease := Some(Join(parts[1..], '-'));
      assert parts[0] + ['-'] + Join(parts[1..], '-') == parts[0] + (['-'] + Join(parts[1..], '-'));
    }
  }

  ghost predicate IsWritten(text: string, segments: seq<string>, prerelease: Option<string>) {
    exists lead, mark, trail :: Written(text, lead, mark, segments, prerelease, trail)
  }

  lemma {:induction false} ParsedIsWritten(text: string) returns (segments: seq<string>, prerelease: Option<string>)
    requires ParseVersion(text).Some?
    ensures IsWritten(text, segments, prerelease)
  {
    var lead := LeadTrimmed(text);
    var trail := TrailTrimmed(TrimStart(text));
    var trimmed := TrimEnd(TrimStart(text));
    segments, prerelease := ParsedParts(Bare(text));
    var mark := MarkOf(trimmed, Bare(text));
    assert Written(text, lead, mark, segments, prerelease, trail);
  }

  lemma {:induction false} MarkOf(trimmed: string, bare: string) returns (mark: string)
    requires bare == if trimmed != "" && trimmed[0] == 'v' then trimmed[1..] else trimmed
    ensures (mark == "" || mark == "v") && trimmed == mark + bare
  {
    mark := if trimmed != "" && trimmed[0] == 'v' then "v" else "";
  }

  /** Exactly the written versions are read, each as its numbers, missing ones zero, and its identifiers. */
  lemma {:induction false} ReadsExactly(text: string, v: Version)
    ensures ParseVersion(text) == Some(v)
            <==> exists segments, prerelease ::
                   IsWritten(text, segments, prerelease) && v == Version(Numbers(segments), Identifiers(prerelease))
  {
    if ParseVersion(text) == Some(v) {
      var segments, prerelease := ParsedIsWritten(text);
      var lead, mark, trail :| Written(text, lead, mark, segments, prerelease, trail);
      WrittenParses(text, lead, mark, segments, prerelease, trail);
    }
    if segments, prerelease :| IsWritten(text, segments, prerelease) && v == Version(Numbers(segments), Identifiers(prerelease)) {
      var lead, mark, trail :| Written(text, lead, mark, segments, prerelease, trail);
      WrittenParses(text, lead, mark, segments, prerelease, trail);
    }
  }

  /** What follows a dash inside a prerelease does not count: `1-a-b` is read as `1-a`. */
  lemma {:induction false} DashCutsOff(segments: seq<string>, p: string, q: string)
    requires NumberTexts(segments) && PrereleaseText(p) && PrereleaseText(q) && Free(p, '-')
    ensures ParseVersion(BodyText(segments, Some(p + (['-'] + q)))) == ParseVersion(BodyText(segments, Some(p)))
    ensures ParseVersion(BodyText(segments, Some(p))).Some?
  {
    var longer := p + (['-'] + q);
    var a, b := BodyText(segments, Some(longer)), BodyText(segments, Some(p));
    assert p + ['-'] + q == longer;
    SplitCons(p, q, '-');
    SplitFree(p, '-');
    assert PrereleaseText(longer);
    Alone(a);
    Alone(b);
    assert Written(a, "", "", segments, Some(longer), "") && Written(b, "", "", segments, Some(p), "");
    WrittenParses(a, "", "", segments, Some(longer), "");
    WrittenParses(b, "", "", segments, Some(p), "");
  }

  /** Exactly: the identifiers are those of the whole prerelease if and only if it has no dash. */
  lemma {:induction false} DashIsLostExactly(p: string)
    requires PrereleaseText(p)
    ensures Identifiers(Some(p)) == Some(Split(p, '.')) <==> Free(p, '-')
  {
    var first := Split(p, '-')[0];
    if Free(p, '-') {
      SplitFree(p, '-');
    } else {
      assert first != p;
      JoinSplit(first, '.');
      JoinSplit(p, '.');
    }
  }

  lemma {:induction false} Alone(s: string)
    ensures s == "" + (("" + s) + "")
  {
  }

  // ---------------------------------------------------------------------------
  // Longer prereleases
  // ---------------------------------------------------------------------------

  /** Identifiers that go on where the others end come later. */
  lemma {:induction false} LongerComesLater(collate: Collate, a: seq<string>, more: seq<string>)
    requires more != []
    ensures ComparePrereleases(collate, a, a + more) == -1 && ComparePrereleases(collate, a + more, a) == 1
  {
    if a == [] {
      assert a + more == more;
    } else {
      LongerComesLater(collate, a[1..], more);
      assert (a + more)[1..] == a[1..] + more;
    }
  }

  // ---------------------------------------------------------------------------
  // Ranges
  // ---------------------------------------------------------------------------

  lemma {:induction false} SameNumbers(a: seq<nat>)
    ensures CompareNumeric(a, a) == 0
  {
    if a != [] { SameNumbers(a[1..]); }
  }

  lemma {:induction false} SameIdentifiers(collate: Collate, a: seq<string>)
    ensures ComparePrereleases(collate, a, a) == 0
  {
    if a != [] { SameIdentifiers(collate, a[1..]); }
  }

  lemma {:induction false} SameVersion(collate: Collate, v: Version)
    ensures Compare(collate, v, v) == 0
  {
    SameNumbers(v.numeric);
    if v.prerelease.Some? { SameIdentifiers(collate, v.prerelease.value); }
  }

  /** A range takes in its minimum and leaves out its maximum, however they are written. */
  lemma {:induction false} RangeEnds(collate: Collate, text: string, minimum: Option<string>, maximumExclusive: Option<string>)
    requires text != ""
    ensures ParseVersion(text).Some? ==> VersionInRange(collate, Some(text), Some(text), None)
    ensures !VersionInRange(collate, Some(text), minimum, Some(text))
    ensures minimum.Some? || maximumExclusive.Some? ==>
              !VersionInRange(collate, None, minimum, maximumExclusive) && !VersionInRange(collate, Some(""), minimum, maximumExclusive)
    ensures VersionInRange(collate, Some(text), None, None) && VersionInRange(collate, None, None, None)
  {
    if ParseVersion(text).Some? { SameVersion(collate, ParseVersion(text).value); }
  }
}
