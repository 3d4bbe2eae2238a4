/** The unified-diff engine: `applyUnifiedDiff` and the algebra of the patches it accepts. */
module UnifiedDiff {
  import opened Text

  datatype Error = NoHunks | OutOfRange | DoesNotApply | UnsupportedPrefix
  datatype Result<+T> = Ok(value: T) | Err(error: Error)

  /** A parsed hunk: the old start line of its header, and its raw body lines. */
  datatype Hunk = Hunk(oldStart: nat, lines: seq<string>)

  // ---------------------------------------------------------------------------
  // Reading the diff text
  // ---------------------------------------------------------------------------

  /** Every CR LF pair becomes one LF. */
  function NormalizeNewlines(s: string): string {
    if s == "" then ""
    else if |s| >= 2 && s[0] == '\r' && s[1] == '\n' then ['\n'] + NormalizeNewlines(s[2..])
    else [s[0]] + NormalizeNewlines(s[1..])
  }

  predicate StartsWith(s: string, p: string) {
    |p| <= |s| && s[..|p|] == p
  }

  /** How many digits `s` begins with. */
  function LeadingDigits(s: string): (n: nat)
    ensures n <= |s|
    ensures forall i :: 0 <= i < n ==> IsDigit(s[i])
    ensures n < |s| ==> !IsDigit(s[n])
  {
    if s == "" || !IsDigit(s[0]) then 0 else 1 + LeadingDigits(s[1..])
  }

  /** What is left of `s` after the optional `,count` of a hunk range. */
  function SkipCount(s: string): string {
    if StartsWith(s, ",") && LeadingDigits(s[1..]) > 0 then s[1 + LeadingDigits(s[1..])..] else s
  }

  /** What is left of `s` after a hunk range `k[,n]`, if it begins with one. */
  function SkipRange(s: string): Option<string> {
    var d := LeadingDigits(s);
    if d == 0 then None else Some(SkipCount(s[d..]))
  }

  /** The old start line of a hunk header `@@ -k[,n] +k[,n] @@`, if the line is one. */
  function HeaderStart(line: string): Option<nat> {
    if !StartsWith(line, "@@ -") then None
    else
      var range := line[4..];
      match SkipRange(range)
      case None => None
      case Some(afterOld) =>
        if !StartsWith(afterOld, " +") then None
        else match SkipRange(afterOld[2..])
          case None => None
          case Some(afterNew) =>
            if StartsWith(afterNew, " @@") then Some(NatOf(range[..LeadingDigits(range)])) else None
  }

  const NO_NEWLINE_MARK := "\\ No newline at end of file"

  /** The body lines from index `i` on, and the index where reading resumes. */
  function HunkBody(lines: seq<string>, i: nat): (r: (seq<string>, nat))
    requires i <= |lines|
    ensures i <= r.1 <= |lines|
    decreases |lines| - i
  {
    if i == |lines| || StartsWith(lines[i], "@@ ") then ([], i)
    else if StartsWith(lines[i], NO_NEWLINE_MARK) then HunkBody(lines, i + 1)
    else if lines[i] == "" && i == |lines| - 1 then ([], i)
    else
      var rest := HunkBody(lines, i + 1);
      ([lines[i]] + rest.0, rest.1)
  }

  function ParseHunks(lines: seq<string>, i: nat): seq<Hunk>
    requires i <= |lines|
    decreases |lines| - i
  {
    if i == |lines| then []
    else match HeaderStart(lines[i])
      case None => ParseHunks(lines, i + 1)
      case Some(k) =>
        var body := HunkBody(lines, i + 1);
        [Hunk(k, body.0)] + ParseHunks(lines, body.1)
  }

  // ---------------------------------------------------------------------------
  // What a hunk means
  // ---------------------------------------------------------------------------

  predicate KnownPrefix(line: string) {
    line == "" || line[0] in [' ', '-', '+']
  }

  predicate Keeps(line: string) { line == "" || line[0] == ' ' }
  predicate Removes(line: string) { line != "" && line[0] == '-' }
  predicate Adds(line: string) { line != "" && line[0] == '+' }

  function Body(line: string): string { if line == "" then "" else line[1..] }

  /** The lines a hunk expects to find. */
  function Old(lines: seq<string>): seq<string> {
    if lines == [] then []
    else (if Keeps(lines[0]) || Removes(lines[0]) then [Body(lines[0])] else []) + Old(lines[1..])
  }

  /** The lines a hunk leaves in their place. */
  function New(lines: seq<string>): seq<string> {
    if lines == [] then []
    else (if Keeps(lines[0]) || Adds(lines[0]) then [Body(lines[0])] else []) + New(lines[1..])
  }

  predicate WellFormed(h: Hunk) {
    forall i :: 0 <= i < |h.lines| ==> KnownPrefix(h.lines[i])
  }

  // ---------------------------------------------------------------------------
  // Applying hunks to lines
  // ---------------------------------------------------------------------------

  /** One hunk body against `orig` from `cursor`: the emitted lines and the cursor reached. */
  function ApplyBody(orig: seq<string>, cursor: nat, lines: seq<string>): (r: Result<(seq<string>, nat)>)
    ensures r.Ok? && cursor <= |orig| ==> cursor <= r.value.1 <= |orig|
    decreases lines
  {
    if lines == [] then Ok(([], cursor))
    else if !KnownPrefix(lines[0]) then Err(UnsupportedPrefix)
    else if Adds(lines[0]) then
      match ApplyBody(orig, cursor, lines[1..])
      case Err(e) => Err(e)
      case Ok(r) => Ok(([Body(lines[0])] + r.0, r.1))
    else if cursor >= |orig| || orig[cursor] != Body(lines[0]) then Err(DoesNotApply)
    else
      match ApplyBody(orig, cursor + 1, lines[1..])
      case Err(e) => Err(e)
      case Ok(r) => Ok(((if Keeps(lines[0]) then [Body(lines[0])] else []) + r.0, r.1))
  }

  function ApplyFrom(orig: seq<string>, cursor: nat, hunks: seq<Hunk>): Result<seq<string>>
    requires cursor <= |orig|
    decreases hunks
  {
    if hunks == [] then Ok(orig[cursor..])
    else
      var start := hunks[0].oldStart - 1;
      if start < cursor || start > |orig| then Err(OutOfRange)
      else match ApplyBody(orig, start, hunks[0].lines)
        case Err(e) => Err(e)
        case Ok(b) =>
          match ApplyFrom(orig, b.1, hunks[1..])
          case Err(e) => Err(e)
          case Ok(rest) => Ok(orig[cursor..start] + b.0 + rest)
  }

  lemma {:induction false} HeadAndTail(orig: Lines, cursor: nat, head: string, rest: Lines)
    ensures (cursor + |[head] + rest| <= |orig| && orig[cursor..cursor + |[head] + rest|] == [head] + rest)
            <==> (&& cursor < |orig| && orig[cursor] == head
                  && cursor + 1 + |rest| <= |orig| && orig[cursor + 1..cursor + 1 + |rest|] == rest)
  {
    var n := 1 + |rest|;
    if cursor + n <= |orig| {
      var found := orig[cursor..cursor + n];
      assert found[0] == orig[cursor] && found[1..] == orig[cursor + 1..cursor + n];
      assert found == [found[0]] + found[1..];
      assert ([head] + rest)[0] == head && ([head] + rest)[1..] == rest;
    }
  }

  /** A body applies exactly when its prefixes are known and its old lines stand at the cursor. */
  lemma {:induction false} ApplyBodyMeaning(orig: seq<string>, cursor: nat, lines: seq<string>)
    requires cursor <= |orig|
    ensures ApplyBody(orig, cursor, lines).Ok? <==>
              && (forall i :: 0 <= i < |lines| ==> KnownPrefix(lines[i]))
              && cursor + |Old(lines)| <= |orig|
              && orig[cursor..cursor + |Old(lines)|] == Old(lines)
    ensures ApplyBody(orig, cursor, lines).Ok? ==>
              ApplyBody(orig, cursor, lines).value == (New(lines), cursor + |Old(lines)|)
    decreases lines
  {
    if lines != [] {
      var l, rest := lines[0], lines[1..];
      assert lines == [l] + rest;
      if KnownPrefix(l) && Adds(l) {
        ApplyBodyMeaning(orig, cursor, rest);
      } else if KnownPrefix(l) {
        HeadAndTail(orig, cursor, Body(l), Old(rest));
        if cursor < |orig| {
          ApplyBodyMeaning(orig, cursor + 1, rest);
        }
      }
    }
  }

  // ---------------------------------------------------------------------------
  // The declarative reading: texts as gaps woven with parts
  // ---------------------------------------------------------------------------

  type Lines = seq<string>

  function Olds(hunks: seq<Hunk>): (r: seq<Lines>)
    ensures |r| == |hunks|
  {
    seq(|hunks|, i requires 0 <= i < |hunks| => Old(hunks[i].lines))
  }

  function News(hunks: seq<Hunk>): (r: seq<Lines>)
    ensures |r| == |hunks|
  {
    seq(|hunks|, i requires 0 <= i < |hunks| => New(hunks[i].lines))
  }

  /** gap0 + part0 + gap1 + part1 + ... + last gap. */
  function Weave(gaps: seq<Lines>, parts: seq<Lines>): Lines
    requires |gaps| == |parts| + 1
  {
    if parts == [] then gaps[0] else gaps[0] + parts[0] + Weave(gaps[1..], parts[1..])
  }

  /** Where part `i` begins in the weave. */
  function Position(gaps: seq<Lines>, parts: seq<Lines>, i: nat): nat
    requires |gaps| == |parts| + 1 && i < |parts|
  {
    if i == 0 then |gaps[0]| else |gaps[0]| + |parts[0]| + Position(gaps[1..], parts[1..], i - 1)
  }

  /** The hunks are ordered and in range, and their old lines stand where their headers say. */
  ghost predicate Fits(orig: Lines, hunks: seq<Hunk>, gaps: seq<Lines>) {
    && |gaps| == |hunks| + 1
    && (forall i :: 0 <= i < |hunks| ==> WellFormed(hunks[i]))
    && orig == Weave(gaps, Olds(hunks))
    && (forall i :: 0 <= i < |hunks| ==> hunks[i].oldStart - 1 == Position(gaps, Olds(hunks), i))
  }

  /** `Fits` with the positions counted from `base`, for hunks that follow others. */
  ghost predicate FitsFrom(orig: Lines, base: nat, hunks: seq<Hunk>, gaps: seq<Lines>) {
    && |gaps| == |hunks| + 1
    && base <= |orig|
    && (forall i :: 0 <= i < |hunks| ==> WellFormed(hunks[i]))
    && orig[base..] == Weave(gaps, Olds(hunks))
    && (forall i :: 0 <= i < |hunks| ==> hunks[i].oldStart - 1 == base + Position(gaps, Olds(hunks), i))
  }

  lemma {:induction false} OldsTail(hunks: seq<Hunk>)
    requires hunks != []
    ensures Olds(hunks)[1..] == Olds(hunks[1..]) && News(hunks)[1..] == News(hunks[1..])
  {
  }

  lemma {:induction false} SplitWoven(orig: Lines, base: nat, gap: Lines, part: Lines, rest: Lines)
    requires base <= |orig| && orig[base..] == gap + part + rest
    ensures base + |gap| + |part| <= |orig|
    ensures orig[base..base + |gap|] == gap
    ensures orig[base + |gap|..base + |gap| + |part|] == part
    ensures orig[base + |gap| + |part|..] == rest
  {
    var woven := orig[base..];
    assert woven[..|gap|] == gap;
    assert woven[|gap|..|gap| + |part|] == part;
    assert woven[|gap| + |part|..] == rest;
  }

  lemma {:induction false} TailPositions(base: nat, hunks: seq<Hunk>, gaps: seq<Lines>)
    requires hunks != [] && |gaps| == |hunks| + 1
    requires forall i :: 0 <= i < |hunks| ==> hunks[i].oldStart - 1 == base + Position(gaps, Olds(hunks), i)
    ensures forall i :: 0 <= i < |hunks[1..]| ==>
              hunks[1..][i].oldStart - 1
                == base + |gaps[0]| + |Old(hunks[0].lines)| + Position(gaps[1..], Olds(hunks[1..]), i)
  {
    OldsTail(hunks);
    forall i | 0 <= i < |hunks[1..]|
      ensures hunks[1..][i].oldStart - 1
        == base + |gaps[0]| + |Old(hunks[0].lines)| + Position(gaps[1..], Olds(hunks[1..]), i)
    {
      assert hunks[i + 1].oldStart - 1 == base + Position(gaps, Olds(hunks), i + 1);
    }
  }

  /** A hunk whose old lines stand at its start applies, and the rest goes on behind them. */
  lemma {:induction false} ApplyStep(orig: Lines, base: nat, hunks: seq<Hunk>)
    requires base <= |orig| && hunks != [] && WellFormed(hunks[0])
    requires base <= hunks[0].oldStart - 1
    requires hunks[0].oldStart - 1 + |Old(hunks[0].lines)| <= |orig|
    requires orig[hunks[0].oldStart - 1..hunks[0].oldStart - 1 + |Old(hunks[0].lines)|] == Old(hunks[0].lines)
    ensures var after := hunks[0].oldStart - 1 + |Old(hunks[0].lines)|;
            ApplyFrom(orig, after, hunks[1..]).Ok? ==>
              ApplyFrom(orig, base, hunks)
              == Ok(orig[base..hunks[0].oldStart - 1] + New(hunks[0].lines) + ApplyFrom(orig, after, hunks[1..]).value)
  {
    ApplyBodyMeaning(orig, hunks[0].oldStart - 1, hunks[0].lines);
  }

  lemma {:induction false} WovenNews(hunks: seq<Hunk>, gaps: seq<Lines>)
    requires hunks != [] && |gaps| == |hunks| + 1
    ensures Weave(gaps, News(hunks)) == gaps[0] + New(hunks[0].lines) + Weave(gaps[1..], News(hunks[1..]))
  {
    OldsTail(hunks);
  }

  lemma {:induction false} FitsApplies(orig: Lines, base: nat, hunks: seq<Hunk>, gaps: seq<Lines>)
    requires FitsFrom(orig, base, hunks, gaps)
    ensures ApplyFrom(orig, base, hunks) == Ok(Weave(gaps, News(hunks)))
    decreases hunks
  {
    if hunks == [] {
      FitsNothing(orig, base, hunks, gaps);
    } else {
      var after := base + |gaps[0]| + |Old(hunks[0].lines)|;
      FitsTail(orig, base, hunks, gaps);
      FitsApplies(orig, after, hunks[1..], gaps[1..]);
      ApplyStep(orig, base, hunks);
      WovenNews(hunks, gaps);
      assert hunks[0].oldStart - 1 == base + |gaps[0]|;
    }
  }

  lemma {:induction false} FitsNothing(orig: Lines, base: nat, hunks: seq<Hunk>, gaps: seq<Lines>)
    requires FitsFrom(orig, base, hunks, gaps) && hunks == []
    ensures ApplyFrom(orig, base, hunks) == Ok(Weave(gaps, News(hunks)))
  {
  }

  /** The first hunk's old lines stand behind the first gap, and the other hunks fit what is behind them. */
  lemma {:induction false} FitsTail(orig: Lines, base: nat, hunks: seq<Hunk>, gaps: seq<Lines>)
    requires FitsFrom(orig, base, hunks, gaps) && hunks != []
    ensures var start, prior := base + |gaps[0]|, Old(hunks[0].lines);
            && WellFormed(hunks[0]) && hunks[0].oldStart - 1 == start && start + |prior| <= |orig|
            && orig[base..start] == gaps[0] && orig[start..start + |prior|] == prior
            && FitsFrom(orig, start + |prior|, hunks[1..], gaps[1..])
  {
    OldsTail(hunks);
    var prior := Old(hunks[0].lines);
    SplitWoven(orig, base, gaps[0], prior, Weave(gaps[1..], Olds(hunks[1..])));
    assert Position(gaps, Olds(hunks), 0) == |gaps[0]|;
    TailPositions(base, hunks, gaps);
  }

  /** The gaps of a patch that applies: the untouched stretches of the original. */
  ghost function GapsOf(orig: Lines, base: nat, hunks: seq<Hunk>): (gaps: seq<Lines>)
    requires base <= |orig| && ApplyFrom(orig, base, hunks).Ok?
    ensures |gaps| == |hunks| + 1
    decreases hunks
  {
    if hunks == [] then [orig[base..]]
    else
      var start := hunks[0].oldStart - 1;
      ApplyBodyMeaning(orig, start, hunks[0].lines);
      [orig[base..start]] + GapsOf(orig, start + |Old(hunks[0].lines)|, hunks[1..])
  }

  lemma {:induction false} AppliesFits(orig: Lines, base: nat, hunks: seq<Hunk>)
    requires base <= |orig| && ApplyFrom(orig, base, hunks).Ok?
    ensures FitsFrom(orig, base, hunks, GapsOf(orig, base, hunks))
    decreases hunks
  {
    if hunks != [] {
      var start := hunks[0].oldStart - 1;
      AppliedParts(orig, base, hunks);
      var after := start + |Old(hunks[0].lines)|;
      AppliesFits(orig, after, hunks[1..]);
      FitsCons(orig, base, hunks, GapsOf(orig, after, hunks[1..]));
      assert GapsOf(orig, base, hunks) == [orig[base..start]] + GapsOf(orig, after, hunks[1..]);
    }
  }

  /** What a first hunk that applied says: where it stands, what was found there, and that the rest applied behind it. */
  lemma {:induction false} AppliedParts(orig: Lines, base: nat, hunks: seq<Hunk>)
    requires base <= |orig| && hunks != [] && ApplyFrom(orig, base, hunks).Ok?
    ensures var start, prior := hunks[0].oldStart - 1, Old(hunks[0].lines);
            && base <= start && start + |prior| <= |orig| && orig[start..start + |prior|] == prior && WellFormed(hunks[0])
            && ApplyFrom(orig, start + |prior|, hunks[1..]).Ok?
            && ApplyFrom(orig, base, hunks).value
               == orig[base..start] + New(hunks[0].lines) + ApplyFrom(orig, start + |prior|, hunks[1..]).value
  {
    ApplyBodyMeaning(orig, hunks[0].oldStart - 1, hunks[0].lines);
  }

  /** A hunk in front of hunks that fit behind it. */
  lemma {:induction false} FitsCons(orig: Lines, base: nat, hunks: seq<Hunk>, tail: seq<Lines>)
    requires hunks != [] && base <= hunks[0].oldStart - 1 && WellFormed(hunks[0])
    requires var start, prior := hunks[0].oldStart - 1, Old(hunks[0].lines);
             && start + |prior| <= |orig| && orig[start..start + |prior|] == prior
             && FitsFrom(orig, start + |prior|, hunks[1..], tail)
    ensures FitsFrom(orig, base, hunks, [orig[base..hunks[0].oldStart - 1]] + tail)
  {
    OldsTail(hunks);
    var start, prior := hunks[0].oldStart - 1, Old(hunks[0].lines);
    var after, gaps := start + |prior|, [orig[base..start]] + tail;
    assert gaps[1..] == tail;
    assert orig[base..] == orig[base..start] + prior + orig[after..];
    forall i | 0 <= i < |hunks|
      ensures hunks[i].oldStart - 1 == base + Position(gaps, Olds(hunks), i) && WellFormed(hunks[i])
    {
      if i > 0 { assert hunks[i] == hunks[1..][i - 1]; }
    }
  }

  /**
   * Patch theorem. Hunks apply to `orig` exactly when `orig` is gaps woven with their old lines at
   * the announced positions, and the result is the same gaps woven with their new lines.
   */
  lemma {:induction false} PatchMeaning(orig: Lines, hunks: seq<Hunk>)
    ensures ApplyFrom(orig, 0, hunks).Ok? <==> exists gaps :: Fits(orig, hunks, gaps)
    ensures forall gaps :: Fits(orig, hunks, gaps) ==> ApplyFrom(orig, 0, hunks) == Ok(Weave(gaps, News(hunks)))
  {
    assert orig[0..] == orig;
    if ApplyFrom(orig, 0, hunks).Ok? {
      AppliesFits(orig, 0, hunks);
      assert Fits(orig, hunks, GapsOf(orig, 0, hunks));
    }
    forall gaps | Fits(orig, hunks, gaps)
      ensures ApplyFrom(orig, 0, hunks) == Ok(Weave(gaps, News(hunks)))
    {
      FitsApplies(orig, 0, hunks, gaps);
    }
  }

  // ---------------------------------------------------------------------------
  // Back to front
  // ---------------------------------------------------------------------------

  lemma {:induction false} WeaveSnoc(gaps: seq<Lines>, parts: seq<Lines>, part: Lines, gap: Lines)
    requires |gaps| == |parts| + 1
    ensures Weave(gaps + [gap], parts + [part]) == Weave(gaps, parts) + part + gap
    ensures Position(gaps + [gap], parts + [part], |parts|) == |Weave(gaps, parts)|
    ensures forall i :: 0 <= i < |parts| ==>
              Position(gaps + [gap], parts + [part], i) == Position(gaps, parts, i)
  {
    if parts == [] {
    } else {
      WeaveSnoc(gaps[1..], parts[1..], part, gap);
      assert (gaps + [gap])[1..] == gaps[1..] + [gap];
      assert (parts + [part])[1..] == parts[1..] + [part];
    }
  }

  /** The last gap can take in everything that follows it. */
  lemma {:induction false} WeaveLastGap(gaps: seq<Lines>, parts: seq<Lines>, suffix: Lines)
    requires |gaps| == |parts| + 1
    ensures Weave(gaps[|parts| := gaps[|parts|] + suffix], parts) == Weave(gaps, parts) + suffix
    ensures forall i :: 0 <= i < |parts| ==>
              Position(gaps[|parts| := gaps[|parts|] + suffix], parts, i) == Position(gaps, parts, i)
  {
    var gaps' := gaps[|parts| := gaps[|parts|] + suffix];
    if parts != [] {
      WeaveLastGap(gaps[1..], parts[1..], suffix);
      assert gaps'[1..] == gaps[1..][|parts| - 1 := gaps[1..][|parts| - 1] + suffix];
    }
  }

  /** The hunks one at a time, last first, each as a patch of its own. */
  function ApplyBackwards(orig: Lines, hunks: seq<Hunk>): Result<Lines>
    decreases hunks
  {
    if hunks == [] then Ok(orig)
    else
      match ApplyFrom(orig, 0, [hunks[|hunks| - 1]])
      case Err(e) => Err(e)
      case Ok(next) => ApplyBackwards(next, hunks[..|hunks| - 1])
  }

  /** A fitting patch seen as its front and its last hunk. */
  lemma {:induction false} FitsLast(orig: Lines, front: seq<Hunk>, last: Hunk, gaps: seq<Lines>, gap: Lines)
    requires Fits(orig, front + [last], gaps + [gap])
    ensures |gaps| == |front| + 1
    ensures WellFormed(last) && last.oldStart - 1 == |Weave(gaps, Olds(front))|
    ensures orig == Weave(gaps, Olds(front)) + Old(last.lines) + gap
    ensures forall i :: 0 <= i < |front| ==>
              WellFormed(front[i]) && front[i].oldStart - 1 == Position(gaps, Olds(front), i)
  {
    var hunks := front + [last];
    assert hunks[|front|] == last;
    assert Olds(hunks) == Olds(front) + [Old(last.lines)];
    WeaveSnoc(gaps, Olds(front), Old(last.lines), gap);
    forall i | 0 <= i < |front|
      ensures WellFormed(front[i]) && front[i].oldStart - 1 == Position(gaps, Olds(front), i)
    {
      assert front[i] == hunks[i];
    }
  }

  /** The last hunk alone, with everything before it as one gap. */
  lemma {:induction false} LastAlone(orig: Lines, last: Hunk, prefix: Lines, gap: Lines)
    requires WellFormed(last) && last.oldStart - 1 == |prefix|
    requires orig == prefix + Old(last.lines) + gap
    ensures ApplyFrom(orig, 0, [last]) == Ok(prefix + New(last.lines) + gap)
  {
    var single := [prefix, gap];
    assert single[1..] == [gap] && Olds([last]) == [Old(last.lines)] && News([last]) == [New(last.lines)];
    assert Weave(single, [Old(last.lines)]) == orig;
    assert Weave(single, [New(last.lines)]) == prefix + New(last.lines) + gap;
    assert orig[0..] == orig;
    FitsApplies(orig, 0, [last], single);
  }

  /** Hunks that fit go on fitting when the last gap grows. */
  lemma {:induction false} FitsLonger(front: seq<Hunk>, gaps: seq<Lines>, tail: Lines)
    requires |gaps| == |front| + 1
    requires forall i :: 0 <= i < |front| ==>
               WellFormed(front[i]) && front[i].oldStart - 1 == Position(gaps, Olds(front), i)
    ensures ApplyFrom(Weave(gaps, Olds(front)) + tail, 0, front) == Ok(Weave(gaps, News(front)) + tail)
  {
    var mid := Weave(gaps, Olds(front)) + tail;
    WeaveLastGap(gaps, Olds(front), tail);
    WeaveLastGap(gaps, News(front), tail);
    assert mid[0..] == mid;
    FitsApplies(mid, 0, front, gaps[|front| := gaps[|front|] + tail]);
  }

  lemma {:induction false} Associates(a: Lines, b: Lines, c: Lines)
    ensures a + b + c == a + (b + c)
  {
  }

  lemma {:induction false} NewsSnoc(front: seq<Hunk>, last: Hunk)
    ensures News(front + [last]) == News(front) + [New(last.lines)]
  {
  }

  lemma {:induction false} LastThenFront(orig: Lines, front: seq<Hunk>, last: Hunk, gaps: seq<Lines>, gap: Lines) returns (mid: Lines)
    requires Fits(orig, front + [last], gaps + [gap])
    ensures ApplyFrom(orig, 0, [last]) == Ok(mid)
    ensures ApplyFrom(mid, 0, front) == Ok(Weave(gaps + [gap], News(front + [last])))
  {
    FitsLast(orig, front, last, gaps, gap);
    LastAlone(orig, last, Weave(gaps, Olds(front)), gap);
    FitsLonger(front, gaps, New(last.lines) + gap);
    mid := Weave(gaps, Olds(front)) + (New(last.lines) + gap);
    Associates(Weave(gaps, Olds(front)), New(last.lines), gap);
    NewsSnoc(front, last);
    WeaveSnoc(gaps, News(front), New(last.lines), gap);
    Associates(Weave(gaps, News(front)), New(last.lines), gap);
  }

  /** A patch that applies can be applied hunk by hunk from the last to the first. */
  lemma {:induction false} BackToFront(orig: Lines, hunks: seq<Hunk>)
    requires ApplyFrom(orig, 0, hunks).Ok?
    ensures ApplyBackwards(orig, hunks) == ApplyFrom(orig, 0, hunks)
    decreases hunks
  {
    assert orig[0..] == orig;
    if hunks != [] {
      AppliesFits(orig, 0, hunks);
      var all := GapsOf(orig, 0, hunks);
      FitsApplies(orig, 0, hunks, all);
      var n := |hunks| - 1;
      assert all == all[..n + 1] + [all[n + 1]] && hunks == hunks[..n] + [hunks[n]];
      var mid := LastThenFront(orig, hunks[..n], hunks[n], all[..n + 1], all[n + 1]);
      BackToFront(mid, hunks[..n]);
    }
  }

  // ---------------------------------------------------------------------------
  // Reversal
  // ---------------------------------------------------------------------------

  function FlipLine(line: string): string {
    if Removes(line) then ['+'] + line[1..] else if Adds(line) then ['-'] + line[1..] else line
  }

  function FlipLines(lines: seq<string>): (r: seq<string>)
    ensures |r| == |lines|
    ensures forall i :: 0 <= i < |lines| ==> r[i] == FlipLine(lines[i])
  {
    if lines == [] then [] else [FlipLine(lines[0])] + FlipLines(lines[1..])
  }

  /** Insertions and deletions swapped, each start shifted by the size changes of the hunks before it. */
  function Reverse(hunks: seq<Hunk>, shift: int): (r: seq<Hunk>)
    ensures |r| == |hunks|
  {
    if hunks == [] then []
    else
      var h := hunks[0];
      var start := h.oldStart + shift;
      [Hunk(if start < 0 then 0 else start, FlipLines(h.lines))]
      + Reverse(hunks[1..], shift + |New(h.lines)| - |Old(h.lines)|)
  }

  lemma {:induction false} FlipSwaps(lines: seq<string>)
    ensures Old(FlipLines(lines)) == New(lines) && New(FlipLines(lines)) == Old(lines)
  {
    if lines != [] {
      FlipSwaps(lines[1..]);
      assert FlipLines(lines)[1..] == FlipLines(lines[1..]);
    }
  }

  lemma {:induction false} ReverseSwaps(hunks: seq<Hunk>, shift: int)
    ensures Olds(Reverse(hunks, shift)) == News(hunks)
    ensures News(Reverse(hunks, shift)) == Olds(hunks)
  {
    if hunks != [] {
      var r := Reverse(hunks, shift);
      var tailShift := shift + |New(hunks[0].lines)| - |Old(hunks[0].lines)|;
      ReverseSwaps(hunks[1..], tailShift);
      FlipSwaps(hunks[0].lines);
      OldsTail(hunks);
      OldsTail(r);
      assert r[1..] == Reverse(hunks[1..], tailShift);
      assert Olds(r) == [Olds(r)[0]] + Olds(r)[1..] && News(r) == [News(r)[0]] + News(r)[1..];
      assert Olds(hunks) == [Olds(hunks)[0]] + Olds(hunks)[1..] && News(hunks) == [News(hunks)[0]] + News(hunks)[1..];
    }
  }

  lemma {:induction false} FlipWellFormed(lines: seq<string>)
    requires forall i :: 0 <= i < |lines| ==> KnownPrefix(lines[i])
    ensures forall i :: 0 <= i < |lines| ==> KnownPrefix(FlipLines(lines)[i])
  {
    forall i | 0 <= i < |lines|
      ensures KnownPrefix(FlipLines(lines)[i])
    {
      assert KnownPrefix(lines[i]);
    }
  }

  lemma {:induction false} ReverseWellFormed(hunks: seq<Hunk>, shift: int)
    requires forall i :: 0 <= i < |hunks| ==> WellFormed(hunks[i])
    ensures forall i :: 0 <= i < |hunks| ==> WellFormed(Reverse(hunks, shift)[i])
  {
    if hunks != [] {
      assert WellFormed(hunks[0]);
      FlipWellFormed(hunks[0].lines);
      ReverseWellFormed(hunks[1..], shift + |New(hunks[0].lines)| - |Old(hunks[0].lines)|);
    }
  }

  /** Reversed hunks announce where the new lines stand in the result. */
  lemma {:induction false} ReversePositions(hunks: seq<Hunk>, gaps: seq<Lines>, base: nat, base': nat)
    requires |gaps| == |hunks| + 1
    requires forall i :: 0 <= i < |hunks| ==> hunks[i].oldStart - 1 == base + Position(gaps, Olds(hunks), i)
    ensures forall i :: 0 <= i < |hunks| ==>
              Reverse(hunks, base' - base)[i].oldStart - 1 == base' + Position(gaps, News(hunks), i)
  {
    if hunks != [] {
      OldsTail(hunks);
      var r := Reverse(hunks, base' - base);
      var b, b' := base + |gaps[0]| + |Old(hunks[0].lines)|, base' + |gaps[0]| + |New(hunks[0].lines)|;
      assert Position(gaps, Olds(hunks), 0) == |gaps[0]| == Position(gaps, News(hunks), 0);
      assert r[0].oldStart - 1 == base' + |gaps[0]|;
      TailPositions(base, hunks, gaps);
      ReversePositions(hunks[1..], gaps[1..], b, b');
      var tail := Reverse(hunks[1..], b' - b);
      assert r == [r[0]] + tail;
      forall i | 0 < i < |r|
        ensures r[i].oldStart - 1 == base' + Position(gaps, News(hunks), i)
      {
        assert r[i] == tail[i - 1];
        assert Position(gaps, News(hunks), i) == |gaps[0]| + |New(hunks[0].lines)| + Position(gaps[1..], News(hunks[1..]), i - 1);
      }
    }
  }

  /** The reversed hunks take the result back to the original lines. */
  lemma {:induction false} ReverseUndoes(orig: Lines, hunks: seq<Hunk>)
    requires ApplyFrom(orig, 0, hunks).Ok?
    ensures ApplyFrom(ApplyFrom(orig, 0, hunks).value, 0, Reverse(hunks, 0)) == Ok(orig)
  {
    PatchMeaning(orig, hunks);
    var gaps :| Fits(orig, hunks, gaps);
    var result := ApplyFrom(orig, 0, hunks).value;
    ReverseSwaps(hunks, 0);
    ReversePositions(hunks, gaps, 0, 0);
    ReverseWellFormed(hunks, 0);
    assert Fits(result, Reverse(hunks, 0), gaps);
    PatchMeaning(result, Reverse(hunks, 0));
  }

  // ---------------------------------------------------------------------------
  // Whole texts: the final newline is set aside and put back
  // ---------------------------------------------------------------------------

  function ToLines(text: string): (r: (Lines, bool))
    ensures r.0 != []
    ensures forall i :: 0 <= i < |r.0| ==> Free(r.0[i], '\n')
  {
    var parts := Split(text, '\n');
    EndsWithSplit(text, '\n');
    if EndsWith(text, '\n') then (parts[..|parts| - 1], true) else (parts, false)
  }

  function FromLines(lines: Lines, finalNewline: bool): string {
    Join(lines, '\n') + (if finalNewline then "\n" else "")
  }

  function ApplyText(original: string, hunks: seq<Hunk>): Result<string> {
    if hunks == [] then Err(NoHunks)
    else match ApplyFrom(ToLines(original).0, 0, hunks)
      case Err(e) => Err(e)
      case Ok(lines) => Ok(FromLines(lines, ToLines(original).1))
  }

  function DiffLines(diff: string): seq<string> {
    Split(NormalizeNewlines(diff), '\n')
  }

  /** What `applyUnifiedDiff` gives. */
  function Applied(original: string, diff: string): Result<string> {
    ApplyText(original, ParseHunks(DiffLines(diff), 0))
  }

  lemma {:induction false} JoinSnocEmpty(lines: Lines)
    requires lines != []
    ensures Join(lines + [""], '\n') == Join(lines, '\n') + "\n"
  {
    if |lines| > 1 {
      JoinSnocEmpty(lines[1..]);
      assert (lines + [""])[1..] == lines[1..] + [""];
    } else {
      assert (lines + [""])[1..] == [""];
    }
  }

  lemma {:induction false} FromToLines(text: string)
    ensures FromLines(ToLines(text).0, ToLines(text).1) == text
  {
    JoinSplit(text, '\n');
    EndsWithSplit(text, '\n');
    if EndsWith(text, '\n') {
      var parts := Split(text, '\n');
      JoinSnocEmpty(parts[..|parts| - 1]);
      assert parts == parts[..|parts| - 1] + [""];
    }
  }

  predicate NewlineFree(lines: Lines) {
    forall i :: 0 <= i < |lines| ==> Free(lines[i], '\n')
  }

  /** The lines a text can show: at least one, and no trailing empty line it would read as a final newline. */
  predicate Representable(lines: Lines, finalNewline: bool) {
    lines != [] && (finalNewline || |lines| == 1 || lines[|lines| - 1] != "")
  }

  lemma {:induction false} ToFromLines(lines: Lines, finalNewline: bool)
    requires NewlineFree(lines) && Representable(lines, finalNewline)
    ensures ToLines(FromLines(lines, finalNewline)) == (lines, finalNewline)
  {
    var text := FromLines(lines, finalNewline);
    if finalNewline {
      JoinSnocEmpty(lines);
      assert NewlineFree(lines + [""]);
      SplitJoin(lines + [""], '\n');
      EndsWithSplit(text, '\n');
      assert (lines + [""])[..|lines|] == lines;
    } else {
      SplitJoin(lines, '\n');
      EndsWithSplit(text, '\n');
      assert text == Join(lines, '\n');
    }
  }

  function Newlines(s: string): nat {
    if s == "" then 0 else (if s[0] == '\n' then 1 else 0) + Newlines(s[1..])
  }

  lemma {:induction false} NewlinesConcat(a: string, b: string)
    ensures Newlines(a + b) == Newlines(a) + Newlines(b)
  {
    if a == "" {
      assert a + b == b;
    } else {
      NewlinesConcat(a[1..], b);
      assert (a + b)[1..] == a[1..] + b;
    }
  }

  lemma {:induction false} NewlinesFree(s: string)
    requires Free(s, '\n')
    ensures Newlines(s) == 0
  {
    if s != "" {
      NewlinesFree(s[1..]);
    }
  }

  lemma {:induction false} NewlinesOfJoin(lines: Lines)
    requires NewlineFree(lines) && lines != []
    ensures Newlines(Join(lines, '\n')) == |lines| - 1
  {
    NewlinesFree(lines[0]);
    if |lines| > 1 {
      NewlinesOfJoin(lines[1..]);
      NewlinesConcat(lines[0] + ['\n'], Join(lines[1..], '\n'));
      NewlinesConcat(lines[0], ['\n']);
    }
  }

  /** How many lines the hunks add, less those they remove. */
  function Growth(hunks: seq<Hunk>): int {
    if hunks == [] then 0 else |New(hunks[0].lines)| - |Old(hunks[0].lines)| + Growth(hunks[1..])
  }

  lemma {:induction false} AppliedLength(orig: Lines, cursor: nat, hunks: seq<Hunk>)
    requires cursor <= |orig| && ApplyFrom(orig, cursor, hunks).Ok?
    ensures |ApplyFrom(orig, cursor, hunks).value| == |orig| - cursor + Growth(hunks)
    decreases hunks
  {
    if hunks != [] {
      var start := hunks[0].oldStart - 1;
      ApplyBodyMeaning(orig, start, hunks[0].lines);
      AppliedLength(orig, start + |Old(hunks[0].lines)|, hunks[1..]);
    }
  }

  lemma {:induction false} ReverseGrowth(hunks: seq<Hunk>, shift: int)
    ensures Growth(Reverse(hunks, shift)) == -Growth(hunks)
  {
    if hunks != [] {
      var tailShift := shift + |New(hunks[0].lines)| - |Old(hunks[0].lines)|;
      ReverseGrowth(hunks[1..], tailShift);
      FlipSwaps(hunks[0].lines);
      assert Reverse(hunks, shift)[1..] == Reverse(hunks[1..], tailShift);
    }
  }

  predicate NewlineFreeHunks(hunks: seq<Hunk>) {
    forall i :: 0 <= i < |hunks| ==> NewlineFree(hunks[i].lines)
  }

  lemma {:induction false} NewIsNewlineFree(lines: seq<string>)
    requires NewlineFree(lines)
    ensures NewlineFree(New(lines)) && NewlineFree(Old(lines)) && NewlineFree(FlipLines(lines))
  {
    if lines != [] {
      NewIsNewlineFree(lines[1..]);
      assert Free(lines[0], '\n');
    }
  }

  lemma {:induction false} AppliedNewlineFree(orig: Lines, cursor: nat, hunks: seq<Hunk>)
    requires cursor <= |orig| && ApplyFrom(orig, cursor, hunks).Ok?
    requires NewlineFree(orig) && NewlineFreeHunks(hunks)
    ensures NewlineFree(ApplyFrom(orig, cursor, hunks).value)
    decreases hunks
  {
    if hunks != [] {
      var start := hunks[0].oldStart - 1;
      AppliedParts(orig, cursor, hunks);
      NewIsNewlineFree(hunks[0].lines);
      var after := start + |Old(hunks[0].lines)|;
      HunksTailFree(hunks);
      AppliedNewlineFree(orig, after, hunks[1..]);
      JoinNewlineFree(orig, cursor, start, New(hunks[0].lines), ApplyFrom(orig, after, hunks[1..]).value);
    }
  }

  lemma {:induction false} HunksTailFree(hunks: seq<Hunk>)
    requires hunks != [] && NewlineFreeHunks(hunks)
    ensures NewlineFree(hunks[0].lines) && NewlineFreeHunks(hunks[1..])
  {
  }

  lemma {:induction false} JoinNewlineFree(orig: Lines, from: nat, to: nat, added: Lines, rest: Lines)
    requires from <= to <= |orig| && NewlineFree(orig) && NewlineFree(added) && NewlineFree(rest)
    ensures NewlineFree(orig[from..to] + added + rest)
  {
  }

  lemma {:induction false} ReverseNewlineFree(hunks: seq<Hunk>, shift: int)
    requires NewlineFreeHunks(hunks)
    ensures NewlineFreeHunks(Reverse(hunks, shift))
  {
    if hunks != [] {
      NewIsNewlineFree(hunks[0].lines);
      ReverseNewlineFree(hunks[1..], shift + |New(hunks[0].lines)| - |Old(hunks[0].lines)|);
    }
  }

  /**
   * On texts, reversal undoes a patch exactly when the patched lines can be shown as a text. It fails
   * after a patch that deletes every line, and after one that leaves an empty last line in a text
   * without a final newline.
   */
  lemma {:induction false} TextReversal(original: string, hunks: seq<Hunk>)
    requires ApplyText(original, hunks).Ok? && NewlineFreeHunks(hunks)
    ensures ApplyText(ApplyText(original, hunks).value, Reverse(hunks, 0)) == Ok(original)
            <==> Representable(ApplyFrom(ToLines(original).0, 0, hunks).value, ToLines(original).1)
  {
    var (lines, nl) := ToLines(original);
    var patched := ApplyFrom(lines, 0, hunks).value;
    var text := FromLines(patched, nl);
    var back := Reverse(hunks, 0);
    FromToLines(original);
    AppliedNewlineFree(lines, 0, hunks);
    if Representable(patched, nl) {
      ToFromLines(patched, nl);
      ReverseUndoes(lines, hunks);
    } else if ApplyText(text, back).Ok? {
      assert ToLines(text).1 == EndsWith(text, '\n');
      var again := ApplyFrom(ToLines(text).0, 0, back).value;
      ReverseNewlineFree(hunks, 0);
      AppliedNewlineFree(ToLines(text).0, 0, back);
      if patched == [] {
        assert ToLines("\n") == ([""], true) by { assert "\n"[1..] == ""; }
        assert ToLines(text) == ([""], nl) by { assert text == if nl then "\n" else ""; }
        AppliedLength(lines, 0, hunks);
        ReverseGrowth(hunks, 0);
        AppliedLength([""], 0, back);
        assert |again| == |lines| + 1;
        NewlinesOfJoin(again);
        NewlinesOfJoin(lines);
        NewlinesConcat(Join(again, '\n'), if nl then "\n" else "");
        NewlinesConcat(Join(lines, '\n'), if nl then "\n" else "");
      } else {
        SplitJoin(patched, '\n');
        EndsWithSplit(text, '\n');
        assert text == Join(patched, '\n');
        assert EndsWith(FromLines(again, true), '\n');
      }
    }
  }

  /** The last line the hunks leave, read off the original and the hunks: `None` when they leave no line. */
  function LastLeft(orig: Lines, cursor: nat, hunks: seq<Hunk>): Option<string>
    requires cursor <= |orig|
    decreases hunks
  {
    if hunks == [] then (if cursor < |orig| then Some(orig[|orig| - 1]) else None)
    else
      var start, added := hunks[0].oldStart - 1, New(hunks[0].lines);
      var after := start + |Old(hunks[0].lines)|;
      var later := if 0 <= after <= |orig| then LastLeft(orig, after, hunks[1..]) else None;
      if later.Some? then later
      else if added != [] then Some(added[|added| - 1])
      else if cursor < start <= |orig| then Some(orig[start - 1]) else None
  }

  function LastOf(lines: Lines): Option<string> {
    if lines == [] then None else Some(lines[|lines| - 1])
  }

  lemma {:induction false} LastOfThree(a: Lines, b: Lines, c: Lines)
    ensures LastOf(a + b + c) == if c != [] then LastOf(c) else if b != [] then LastOf(b) else LastOf(a)
  {
  }

  lemma {:induction false} LastLeftIsLast(orig: Lines, cursor: nat, hunks: seq<Hunk>)
    requires cursor <= |orig| && ApplyFrom(orig, cursor, hunks).Ok?
    ensures LastLeft(orig, cursor, hunks) == LastOf(ApplyFrom(orig, cursor, hunks).value)
    decreases hunks
  {
    if hunks != [] {
      AppliedParts(orig, cursor, hunks);
      var start := hunks[0].oldStart - 1;
      var after := start + |Old(hunks[0].lines)|;
      LastLeftIsLast(orig, after, hunks[1..]);
      LastLeftCons(orig, cursor, hunks, ApplyFrom(orig, after, hunks[1..]).value);
    } else {
      assert ApplyFrom(orig, cursor, hunks).value == orig[cursor..];
    }
  }

  lemma {:induction false} LastLeftCons(orig: Lines, cursor: nat, hunks: seq<Hunk>, rest: Lines)
    requires hunks != [] && cursor <= hunks[0].oldStart - 1 && hunks[0].oldStart - 1 + |Old(hunks[0].lines)| <= |orig|
    requires LastOf(rest) == LastLeft(orig, hunks[0].oldStart - 1 + |Old(hunks[0].lines)|, hunks[1..])
    ensures LastLeft(orig, cursor, hunks) == LastOf(orig[cursor..hunks[0].oldStart - 1] + New(hunks[0].lines) + rest)
  {
    LastOfThree(orig[cursor..hunks[0].oldStart - 1], New(hunks[0].lines), rest);
    LastLeftStep(orig, cursor, hunks, LastOf(rest));
  }

  lemma {:induction false} LastLeftStep(orig: Lines, cursor: nat, hunks: seq<Hunk>, later: Option<string>)
    requires hunks != [] && cursor <= hunks[0].oldStart - 1 && hunks[0].oldStart - 1 + |Old(hunks[0].lines)| <= |orig|
    requires later == LastLeft(orig, hunks[0].oldStart - 1 + |Old(hunks[0].lines)|, hunks[1..])
    ensures LastLeft(orig, cursor, hunks)
            == if later.Some? then later
               else if New(hunks[0].lines) != [] then LastOf(New(hunks[0].lines))
               else LastOf(orig[cursor..hunks[0].oldStart - 1])
  {
  }

  lemma {:induction false} RepresentableByLast(lines: Lines, nl: bool)
    ensures Representable(lines, nl) <==> |lines| > 0 && (nl || |lines| == 1 || LastOf(lines) != Some(""))
  {
  }

  /**
   * The same on the input: reversal undoes a patch exactly when the hunks leave a line, and without a final newline the
   * last one they leave is not empty, or is the only one.
   */
  lemma {:induction false} TextReversalOnInput(original: string, hunks: seq<Hunk>)
    requires ApplyText(original, hunks).Ok? && NewlineFreeHunks(hunks)
    ensures var (lines, nl) := ToLines(original);
            var size := |lines| + Growth(hunks);
            ApplyText(ApplyText(original, hunks).value, Reverse(hunks, 0)) == Ok(original)
            <==> size > 0 && (nl || size == 1 || LastLeft(lines, 0, hunks) != Some(""))
  {
    var lines := ToLines(original).0;
    TextReversal(original, hunks);
    AppliedLength(lines, 0, hunks);
    LastLeftIsLast(lines, 0, hunks);
    RepresentableByLast(ApplyFrom(lines, 0, hunks).value, ToLines(original).1);
  }

  /** The patch `-a` on the text `a` with a final newline: it leaves one newline, from which there is no way back. */
  lemma {:induction false} DeletingEveryLineSticks()
    ensures var hunks := [Hunk(1, ["-a"])];
            && ApplyText("a\n", hunks) == Ok("\n")
            && ApplyText("\n", Reverse(hunks, 0)) != Ok("a\n")
  {
    var hunks := [Hunk(1, ["-a"])];
    var text := ['a'] + ['\n'] + "";
    assert text == "a\n";
    SplitCons(['a'], "", '\n');
    assert [['a']] + [""] == ["a", ""] && ["a", ""][..1] == ["a"];
    assert ToLines("a\n") == (["a"], true);
    OneDeletion();
    var none: Lines := [];
    assert ApplyFrom(["a"], 0, hunks) == Ok(none);
    assert NewlineFreeHunks(hunks);
    TextReversal("a\n", hunks);
    assert "" + "\n" == "\n";
    assert FromLines(none, true) == "\n";
    assert ApplyText("a\n", hunks) == Ok(FromLines(none, true));
  }

  lemma {:induction false} OneDeletion()
    ensures ApplyFrom(["a"], 0, [Hunk(1, ["-a"])]) == Ok([])
  {
    var h := Hunk(1, ["-a"]);
    assert ["-a"][1..] == [] && "-a"[1..] == "a";
    var none: Lines := [];
    assert Old(h.lines) == ["a"] && New(h.lines) == none;
    LastAlone(["a"], h, [], []);
  }

  // ---------------------------------------------------------------------------
  // The loops
  // ---------------------------------------------------------------------------

  method ReadBody(diffLines: seq<string>, first: nat) returns (hunkLines: seq<string>, i: nat)
    requires first <= |diffLines|
    ensures (hunkLines, i) == HunkBody(diffLines, first)
    ensures first <= i <= |diffLines|
  {
    hunkLines, i := [], first;
    while i < |diffLines| && !StartsWith(diffLines[i], "@@ ")
      invariant first <= i <= |diffLines|
      invariant HunkBody(diffLines, first).0 == hunkLines + HunkBody(diffLines, i).0
      invariant HunkBody(diffLines, first).1 == HunkBody(diffLines, i).1
    {
      var hunkLine := diffLines[i];
      if StartsWith(hunkLine, NO_NEWLINE_MARK) {
        i := i + 1;
        continue;
      }
      if hunkLine == "" && i == |diffLines| - 1 {
        break;
      }
      hunkLines := hunkLines + [hunkLine];
      i := i + 1;
    }
    assert hunkLines + [] == hunkLines;
  }

  method ReadHunks(diffLines: seq<string>) returns (hunks: seq<Hunk>)
    ensures hunks == ParseHunks(diffLines, 0)
  {
    hunks := [];
    var i := 0;
    while i < |diffLines|
      invariant i <= |diffLines|
      invariant hunks + ParseHunks(diffLines, i) == ParseHunks(diffLines, 0)
    {
      var header := HeaderStart(diffLines[i]);
      ParseStep(diffLines, i, header);
      i := i + 1;
      if header.Some? {
        var hunkLines, resume := ReadBody(diffLines, i);
        ParsedConcat(hunks, Hunk(header.value, hunkLines), ParseHunks(diffLines, resume));
        hunks := hunks + [Hunk(header.value, hunkLines)];
        i := resume;
      }
    }
  }

  lemma {:induction false} ParseStep(lines: seq<string>, i: nat, header: Option<nat>)
    requires i < |lines| && header == HeaderStart(lines[i])
    ensures header.None? ==> ParseHunks(lines, i) == ParseHunks(lines, i + 1)
    ensures header.Some? ==>
              ParseHunks(lines, i)
              == [Hunk(header.value, HunkBody(lines, i + 1).0)] + ParseHunks(lines, HunkBody(lines, i + 1).1)
  {
  }

  lemma {:induction false} ParsedConcat(hunks: seq<Hunk>, h: Hunk, rest: seq<Hunk>)
    ensures hunks + ([h] + rest) == (hunks + [h]) + rest
  {
  }

  function Prepend(lines: Lines, r: Result<Lines>): (p: Result<Lines>)
    ensures lines == [] ==> p == r
  {
    match r
    case Ok(rest) =>
      assert [] + rest == rest;
      Ok(lines + rest)
    case Err(e) => Err(e)
  }

  function PrependBody(lines: Lines, r: Result<(Lines, nat)>): (p: Result<(Lines, nat)>)
    ensures lines == [] ==> p == r
  {
    match r
    case Ok(b) =>
      assert [] + b.0 == b.0;
      Ok((lines + b.0, b.1))
    case Err(e) => Err(e)
  }

  method RunBody(originalLines: Lines, hunkStart: nat, lines: seq<string>) returns (r: Result<(Lines, nat)>)
    ensures r == ApplyBody(originalLines, hunkStart, lines)
  {
    var emitted: Lines, cursor: nat := [], hunkStart;
    assert lines[0..] == lines;
    for j := 0 to |lines|
      invariant ApplyBody(originalLines, hunkStart, lines)
                == PrependBody(emitted, ApplyBody(originalLines, cursor, lines[j..]))
    {
      var hunkLine := lines[j];
      assert lines[j..][0] == hunkLine && lines[j..][1..] == lines[j + 1..];
      ghost var before := emitted;
      if hunkLine != "" && hunkLine[0] == ' ' {
        if cursor >= |originalLines| || originalLines[cursor] != hunkLine[1..] {
          return Err(DoesNotApply);
        }
        emitted := emitted + [hunkLine[1..]];
        cursor := cursor + 1;
        PrependBodyTwice(before, [hunkLine[1..]], ApplyBody(originalLines, cursor, lines[j + 1..]));
      } else if hunkLine != "" && hunkLine[0] == '-' {
        if cursor >= |originalLines| || originalLines[cursor] != hunkLine[1..] {
          return Err(DoesNotApply);
        }
        cursor := cursor + 1;
        PrependBodyTwice(before, [], ApplyBody(originalLines, cursor, lines[j + 1..]));
      } else if hunkLine != "" && hunkLine[0] == '+' {
        emitted := emitted + [hunkLine[1..]];
        PrependBodyTwice(before, [hunkLine[1..]], ApplyBody(originalLines, cursor, lines[j + 1..]));
      } else if hunkLine == "" {
        if cursor >= |originalLines| || originalLines[cursor] != "" {
          return Err(DoesNotApply);
        }
        emitted := emitted + [""];
        cursor := cursor + 1;
        PrependBodyTwice(before, [""], ApplyBody(originalLines, cursor, lines[j + 1..]));
      } else {
        return Err(UnsupportedPrefix);
      }
    }
    assert lines[|lines|..] == [] && emitted + [] == emitted;
    r := Ok((emitted, cursor));
  }

  lemma {:induction false} PrependBodyTwice(a: Lines, b: Lines, r: Result<(Lines, nat)>)
    ensures PrependBody(a, PrependBody(b, r)) == PrependBody(a + b, r)
  {
    if r.Ok? {
      assert a + (b + r.value.0) == a + b + r.value.0;
    }
  }

  lemma {:induction false} PrependTwice(a: Lines, b: Lines, r: Result<Lines>)
    ensures Prepend(a, Prepend(b, r)) == Prepend(a + b, r)
  {
    if r.Ok? {
      assert a + (b + r.value) == a + b + r.value;
    }
  }

  method RunHunks(originalLines: Lines, hunks: seq<Hunk>) returns (r: Result<Lines>)
    ensures r == ApplyFrom(originalLines, 0, hunks)
  {
    var result: Lines, originalCursor: nat := [], 0;
    assert hunks[0..] == hunks;
    for k := 0 to |hunks|
      invariant originalCursor <= |originalLines|
      invariant ApplyFrom(originalLines, 0, hunks)
                == Prepend(result, ApplyFrom(originalLines, originalCursor, hunks[k..]))
    {
      var hunk := hunks[k];
      assert hunks[k..][0] == hunk && hunks[k..][1..] == hunks[k + 1..];
      var hunkStart := hunk.oldStart - 1;
      if hunkStart < originalCursor || hunkStart > |originalLines| {
        return Err(OutOfRange);
      }
      var body := RunBody(originalLines, hunkStart, hunk.lines);
      match body {
        case Err(e) => return Err(e);
        case Ok((emitted, cursor)) =>
          ApplyBodyMeaning(originalLines, hunkStart, hunk.lines);
          var added := originalLines[originalCursor..hunkStart] + emitted;
          PrependTwice(result, added, ApplyFrom(originalLines, cursor, hunks[k + 1..]));
          result, originalCursor := result + added, cursor;
      }
    }
    assert hunks[|hunks|..] == [];
    r := Ok(result + originalLines[originalCursor..]);
  }

  lemma {:induction false} TextMeaning(original: string, hunks: seq<Hunk>)
    ensures ApplyText(original, hunks).Ok? <==> hunks != [] && exists gaps :: Fits(ToLines(original).0, hunks, gaps)
  {
    PatchMeaning(ToLines(original).0, hunks);
  }

  /** `applyUnifiedDiff`: parse, set the final newline aside, run the hunks, put it back. */
  method ApplyUnifiedDiff(original: string, diff: string) returns (r: Result<string>)
    ensures r == Applied(original, diff)
    ensures r.Ok? <==>
              && ParseHunks(DiffLines(diff), 0) != []
              && exists gaps :: Fits(ToLines(original).0, ParseHunks(DiffLines(diff), 0), gaps)
  {
    var diffLines := DiffLines(diff);
    var hunks := ReadHunks(diffLines);
    TextMeaning(original, hunks);
    if |hunks| == 0 {
      return Err(NoHunks);
    }
    var hadFinalNewline := EndsWith(original, '\n');
    var originalLines := Split(original, '\n');
    if hadFinalNewline {
      originalLines := originalLines[..|originalLines| - 1];
    }
    var result := RunHunks(originalLines, hunks);
    match result {
      case Err(e) => r := Err(e);
      case Ok(lines) => r := Ok(Join(lines, '\n') + (if hadFinalNewline then "\n" else ""));
    }
  }
}
