/**
 * The engine against the POSIX reading of unified diffs ("diff utility", "Diff -u or -U Output Format"): where the two
 * agree on a patch, and that the counts in hunk headers do not matter.
 */
module PosixReading {
  import opened Text
  import opened UnifiedDiff
  import DiffPrinter

  /** Lines before the hunk's old range, which stands behind line `oldStart` when it is empty. */
  function PosixStart(h: Hunk): int {
    if Old(h.lines) == [] then h.oldStart else h.oldStart - 1
  }

  /** Hunks in order, each at its POSIX position. */
  function PosixFrom(orig: Lines, cursor: nat, hunks: seq<Hunk>): Result<Lines>
    requires cursor <= |orig|
    decreases hunks
  {
    if hunks == [] then Ok(orig[cursor..])
    else
      var start := PosixStart(hunks[0]);
      if start < cursor || start > |orig| then Err(OutOfRange)
      else match ApplyBody(orig, start, hunks[0].lines)
        case Err(e) => Err(e)
        case Ok(b) =>
          match PosixFrom(orig, b.1, hunks[1..])
          case Err(e) => Err(e)
          case Ok(rest) => Ok(orig[cursor..start] + b.0 + rest)
  }

  /**
   * Every hunk with an empty old range starts behind `end`, where the engine has got to, and adds only copies of the
   * line it names.
   */
  ghost predicate AddsOnlyCopies(orig: Lines, end: int, hunks: seq<Hunk>)
    decreases hunks
  {
    hunks != [] ==>
      var h := hunks[0];
      && (Old(h.lines) == [] ==> end < h.oldStart && CopiesOf(orig, h.oldStart - 1, New(h.lines)))
      && AddsOnlyCopies(orig, h.oldStart - 1 + |Old(h.lines)|, hunks[1..])
  }

  predicate CopiesOf(orig: Lines, at: int, added: Lines) {
    0 <= at < |orig| && forall l :: l in added ==> l == orig[at]
  }

  // ---------------------------------------------------------------------------
  // Shifting copies of a line past it
  // ---------------------------------------------------------------------------

  lemma {:induction false} CopiesShift(added: Lines, line: string)
    requires forall l :: l in added ==> l == line
    ensures added + [line] == [line] + added
  {
    assert forall i :: 0 <= i < |added| ==> added[i] in added;
  }

  lemma {:induction false} ShiftedAreCopies(added: Lines, line: string, a: Lines, b: Lines)
    requires added + a == [line] + added + b
    ensures (forall l :: l in added ==> l == line) && a == [line] + b
  {
    var x, y := added + a, [line] + added + b;
    forall i | 0 <= i < |added|
      ensures added[i] == line
    {
      ShiftedAt(added, line, a, b, i);
    }
    assert a == x[|added|..] && y[|added|..] == ([line] + added)[|added|..] + b;
    if added == [] {
      assert [line] + added == [line];
    } else {
      assert ([line] + added)[|added|..] == [added[|added| - 1]];
    }
  }

  lemma {:induction false} ShiftedAt(added: Lines, line: string, a: Lines, b: Lines, i: nat)
    requires added + a == [line] + added + b && i < |added|
    ensures added[i] == line
  {
    assert (added + a)[i] == added[i];
    if i == 0 {
      assert ([line] + added + b)[0] == line;
    } else {
      ShiftedAt(added, line, a, b, i - 1);
      assert ([line] + added + b)[i] == added[i - 1];
    }
  }

  // ---------------------------------------------------------------------------
  // One hunk further
  // ---------------------------------------------------------------------------

  /** What the two readings have in common while they go through the hunks: the engine may be one line behind. */
  ghost predicate Behind(orig: Lines, e: nat, p: nat) {
    e <= p <= |orig| && p <= e + 1
  }

  /** The engine's result from `e` on is the POSIX result from `p` on, with the lines in between in front. */
  ghost predicate SameResult(orig: Lines, e: nat, p: nat, hunks: seq<Hunk>)
    requires Behind(orig, e, p)
  {
    && PosixFrom(orig, p, hunks).Ok?
    && ApplyFrom(orig, e, hunks) == Ok(orig[e..p] + PosixFrom(orig, p, hunks).value)
  }

  lemma {:induction false} PosixParts(orig: Lines, p: nat, hunks: seq<Hunk>)
    requires p <= |orig| && hunks != [] && PosixFrom(orig, p, hunks).Ok?
    ensures var h, start := hunks[0], PosixStart(hunks[0]);
            var after := start + |Old(h.lines)|;
            && p <= start && after <= |orig| && WellFormed(h) && orig[start..after] == Old(h.lines)
            && PosixFrom(orig, after, hunks[1..]).Ok?
            && PosixFrom(orig, p, hunks).value == orig[p..start] + New(h.lines) + PosixFrom(orig, after, hunks[1..]).value
  {
    ApplyBodyMeaning(orig, PosixStart(hunks[0]), hunks[0].lines);
  }

  /** What the engine makes of a first hunk whose old lines stand where it looks for them. */
  lemma {:induction false} EngineStep(orig: Lines, e: nat, hunks: seq<Hunk>)
    requires e <= |orig| && hunks != [] && WellFormed(hunks[0]) && e <= hunks[0].oldStart - 1
    requires var start, prior := hunks[0].oldStart - 1, Old(hunks[0].lines);
             start + |prior| <= |orig| && orig[start..start + |prior|] == prior
    ensures var start := hunks[0].oldStart - 1;
            var rest := ApplyFrom(orig, start + |Old(hunks[0].lines)|, hunks[1..]);
            && (rest.Ok? <==> ApplyFrom(orig, e, hunks).Ok?)
            && (rest.Ok? ==> ApplyFrom(orig, e, hunks).value == orig[e..start] + New(hunks[0].lines) + rest.value)
  {
    ApplyBodyMeaning(orig, hunks[0].oldStart - 1, hunks[0].lines);
  }

  lemma {:induction false} Slices(orig: Lines, a: nat, b: nat, c: nat)
    requires a <= b <= c <= |orig|
    ensures orig[a..b] + orig[b..c] == orig[a..c]
  {
  }

  lemma {:induction false} PutFront(front: Lines, a: Lines, b: Lines)
    ensures front + a == front + b <==> a == b
  {
    if front + a == front + b {
      assert a == (front + a)[|front|..] && b == (front + b)[|front|..];
    }
  }

  lemma {:induction false} Regroup3(a: Lines, b: Lines, c: Lines)
    ensures (a + b) + c == a + (b + c)
  {
  }

  /** A hunk that finds old lines stands at one place in both readings. */
  lemma {:induction false} ReplacingStep(orig: Lines, e: nat, p: nat, hunks: seq<Hunk>)
    requires Behind(orig, e, p) && hunks != [] && PosixFrom(orig, p, hunks).Ok? && Old(hunks[0].lines) != []
    ensures var after := hunks[0].oldStart - 1 + |Old(hunks[0].lines)|;
            && 0 <= after <= |orig|
            && (SameResult(orig, e, p, hunks) <==> SameResult(orig, after, after, hunks[1..]))
  {
    PosixParts(orig, p, hunks);
    var start, added := hunks[0].oldStart - 1, New(hunks[0].lines);
    var after := start + |Old(hunks[0].lines)|;
    var engine, posix := ApplyFrom(orig, after, hunks[1..]), PosixFrom(orig, after, hunks[1..]).value;
    EngineValue(orig, e, hunks, engine);
    SameFromOnePlace(orig, after, hunks[1..]);
    if engine.Ok? { ReplacedAlike(orig, e, p, start, added, engine.value, posix); }
  }

  /** `EngineStep` as an equation. */
  lemma {:induction false} EngineValue(orig: Lines, e: nat, hunks: seq<Hunk>, rest: Result<Lines>)
    requires e <= |orig| && hunks != [] && WellFormed(hunks[0]) && e <= hunks[0].oldStart - 1
    requires var start, prior := hunks[0].oldStart - 1, Old(hunks[0].lines);
             && start + |prior| <= |orig| && orig[start..start + |prior|] == prior
             && rest == ApplyFrom(orig, start + |prior|, hunks[1..])
    ensures rest.Err? ==> ApplyFrom(orig, e, hunks).Err?
    ensures rest.Ok? ==> ApplyFrom(orig, e, hunks) == Ok(orig[e..hunks[0].oldStart - 1] + New(hunks[0].lines) + rest.value)
  {
    EngineStep(orig, e, hunks);
  }

  lemma {:induction false} SameFromOnePlace(orig: Lines, at: nat, hunks: seq<Hunk>)
    requires at <= |orig| && PosixFrom(orig, at, hunks).Ok?
    ensures SameResult(orig, at, at, hunks) <==> ApplyFrom(orig, at, hunks) == PosixFrom(orig, at, hunks)
  {
    var posix := PosixFrom(orig, at, hunks).value;
    assert orig[at..at] + posix == posix;
  }

  lemma {:induction false} ReplacedAlike(
      orig: Lines, e: nat, p: nat, start: nat, added: Lines, engine: Lines, posix: Lines)
    requires e <= p <= start <= |orig|
    ensures orig[e..start] + added + engine == orig[e..p] + (orig[p..start] + added + posix) <==> engine == posix
  {
    Slices(orig, e, p, start);
    Regroup3(orig[e..p], orig[p..start], added + posix);
    Regroup3(orig[p..start], added, posix);
    Regroup3(orig[e..start], added, engine);
    PutFront(orig[e..start], added + engine, added + posix);
    PutFront(added, engine, posix);
  }

  /** A hunk with an empty old range: the readings differ by the line it names, unless it adds only copies of that. */
  lemma {:induction false} InsertingStep(orig: Lines, e: nat, p: nat, hunks: seq<Hunk>)
    requires Behind(orig, e, p) && hunks != [] && PosixFrom(orig, p, hunks).Ok? && Old(hunks[0].lines) == []
    ensures var k := hunks[0].oldStart;
            SameResult(orig, e, p, hunks)
            <==> e < k && CopiesOf(orig, k - 1, New(hunks[0].lines)) && SameResult(orig, k - 1, k, hunks[1..])
  {
    PosixParts(orig, p, hunks);
    var k, added := hunks[0].oldStart, New(hunks[0].lines);
    var posix := PosixFrom(orig, k, hunks[1..]).value;
    if e < k {
      EngineStep(orig, e, hunks);
      var line, engine := orig[k - 1], ApplyFrom(orig, k - 1, hunks[1..]);
      PosixWithLine(orig, e, p, k, added, posix);
      if engine.Ok? {
        Regroup3(orig[e..k - 1], added, engine.value);
        PutFront(orig[e..k - 1], added + engine.value, [line] + added + posix);
        InsertedAlike(added, line, engine.value, posix);
      }
    }
  }

  lemma {:induction false} PosixWithLine(orig: Lines, e: nat, p: nat, k: nat, added: Lines, posix: Lines)
    requires Behind(orig, e, p) && p <= k <= |orig| && e < k
    ensures orig[e..p] + (orig[p..k] + added + posix) == orig[e..k - 1] + ([orig[k - 1]] + added + posix)
    ensures orig[k - 1..k] == [orig[k - 1]]
  {
    Slices(orig, e, p, k);
    Slices(orig, e, k - 1, k);
    assert orig[k - 1..k] == [orig[k - 1]];
    Regroup3(orig[e..p], orig[p..k], added + posix);
    Regroup3(orig[p..k], added, posix);
    Regroup3(orig[e..k - 1], [orig[k - 1]], added + posix);
    Regroup3([orig[k - 1]], added, posix);
  }

  lemma {:induction false} InsertedAlike(added: Lines, line: string, engine: Lines, posix: Lines)
    ensures added + engine == [line] + added + posix
            <==> (forall l :: l in added ==> l == line) && engine == [line] + posix
  {
    if added + engine == [line] + added + posix {
      ShiftedAreCopies(added, line, engine, posix);
    }
    if (forall l :: l in added ==> l == line) && engine == [line] + posix {
      CopiesShift(added, line);
      Regroup3(added, [line], posix);
    }
  }

  lemma {:induction false} AgreesOnNothing(orig: Lines, e: nat, p: nat, hunks: seq<Hunk>)
    requires Behind(orig, e, p) && hunks == []
    ensures PosixFrom(orig, p, hunks).Ok? && SameResult(orig, e, p, hunks) && AddsOnlyCopies(orig, e, hunks)
  {
    Slices(orig, e, p, |orig|);
    assert orig[e..|orig|] == orig[e..] && orig[p..|orig|] == orig[p..];
  }

  lemma {:induction false} AgreesFrom(orig: Lines, e: nat, p: nat, hunks: seq<Hunk>)
    requires Behind(orig, e, p) && PosixFrom(orig, p, hunks).Ok?
    ensures SameResult(orig, e, p, hunks) <==> AddsOnlyCopies(orig, e, hunks)
    decreases hunks
  {
    if hunks == [] {
      AgreesOnNothing(orig, e, p, hunks);
    } else if Old(hunks[0].lines) != [] {
      ReplacingStep(orig, e, p, hunks);
      PosixParts(orig, p, hunks);
      var after := hunks[0].oldStart - 1 + |Old(hunks[0].lines)|;
      AgreesFrom(orig, after, after, hunks[1..]);
    } else {
      InsertingStep(orig, e, p, hunks);
      PosixParts(orig, p, hunks);
      var k := hunks[0].oldStart;
      if k > 0 { AgreesFrom(orig, k - 1, k, hunks[1..]); }
    }
  }

  /**
   * On every patch that applies in the POSIX reading, the engine gives the POSIX result if and only if each hunk with an
   * empty old range names a line behind those before it and adds only copies of that line. In every other case it
   * refuses the patch or gives another text.
   */
  lemma {:induction false} AgreesWithPosixExactly(orig: Lines, hunks: seq<Hunk>)
    requires PosixFrom(orig, 0, hunks).Ok?
    ensures ApplyFrom(orig, 0, hunks) == PosixFrom(orig, 0, hunks) <==> AddsOnlyCopies(orig, 0, hunks)
  {
    AgreesFrom(orig, 0, 0, hunks);
    var posix := PosixFrom(orig, 0, hunks).value;
    assert orig[0..0] + posix == posix;
  }

  /** A single insertion: refused at 0, and otherwise put before the line it names. */
  lemma {:induction false} InsertionGoesBefore(orig: Lines, h: Hunk)
    requires WellFormed(h) && Old(h.lines) == [] && h.oldStart <= |orig|
    ensures PosixFrom(orig, 0, [h]) == Ok(orig[..h.oldStart] + New(h.lines) + orig[h.oldStart..])
    ensures ApplyFrom(orig, 0, [h])
            == if h.oldStart == 0 then Err(OutOfRange)
               else Ok(orig[..h.oldStart - 1] + New(h.lines) + orig[h.oldStart - 1..])
  {
    assert [h][1..] == [];
    ApplyBodyMeaning(orig, h.oldStart, h.lines);
    assert PosixFrom(orig, h.oldStart, []) == Ok(orig[h.oldStart..]);
    assert orig[0..h.oldStart] == orig[..h.oldStart];
    if h.oldStart > 0 {
      ApplyBodyMeaning(orig, h.oldStart - 1, h.lines);
      assert ApplyFrom(orig, h.oldStart - 1, []) == Ok(orig[h.oldStart - 1..]);
      assert orig[0..h.oldStart - 1] == orig[..h.oldStart - 1];
    }
  }

  /** Adding `b` behind line 1 of `a`, and adding `b` to nothing: the engine puts it before, and refuses. */
  lemma {:induction false} InsertionIsMisread()
    ensures PosixFrom(["a"], 0, [Hunk(1, ["+b"])]) == Ok(["a", "b"]) && ApplyFrom(["a"], 0, [Hunk(1, ["+b"])]) == Ok(["b", "a"])
    ensures PosixFrom([], 0, [Hunk(0, ["+b"])]) == Ok(["b"]) && ApplyFrom([], 0, [Hunk(0, ["+b"])]) == Err(OutOfRange)
  {
    assert ["+b"][1..] == [] && "+b"[1..] == "b";
    var none, a, b: Lines := [], ["a"], ["b"];
    assert Old(["+b"]) == none && New(["+b"]) == b;
    InsertionGoesBefore(a, Hunk(1, ["+b"]));
    InsertionGoesBefore(none, Hunk(0, ["+b"]));
    assert a[..1] + b + a[1..] == ["a", "b"] && a[..0] + b + a[0..] == ["b", "a"];
    assert none[..0] + b + none[0..] == b;
  }

  // ---------------------------------------------------------------------------
  // Counts
  // ---------------------------------------------------------------------------

  /** `,count`, or nothing. */
  function CountPart(count: Option<string>): string {
    if count.Some? then [','] + count.value else ""
  }

  lemma {:induction false} SkipRangeWithCount(start: string, count: Option<string>, rest: string)
    requires AllDigits(start) && (count.Some? ==> AllDigits(count.value))
    requires rest != "" && !IsDigit(rest[0]) && rest[0] != ','
    ensures LeadingDigits(start + (CountPart(count) + rest)) == |start|
    ensures SkipRange(start + (CountPart(count) + rest)) == Some(rest)
  {
    if count.Some? {
      DiffPrinter.SkipRangeOf(start, count.value, rest);
      assert [','] + count.value + rest == [','] + (count.value + rest);
    } else {
      assert CountPart(count) + rest == rest;
      SkipBareRange(start, rest);
    }
  }

  lemma {:induction false} SkipBareRange(start: string, rest: string)
    requires AllDigits(start) && rest != "" && !IsDigit(rest[0]) && rest[0] != ','
    ensures LeadingDigits(start + rest) == |start| && SkipRange(start + rest) == Some(rest)
  {
    DiffPrinter.LeadingDigitsOf(start, rest);
    assert (start + rest)[|start|..] == rest;
    NothingToSkip(rest);
  }

  lemma {:induction false} NothingToSkip(rest: string)
    requires rest != "" && rest[0] != ','
    ensures SkipCount(rest) == rest
  {
    assert rest[..1][0] == rest[0];
  }

  /** A hunk header says where the hunk starts, whatever counts it gives and whatever it says of the new file. */
  lemma {:induction false} HeaderIgnoresCounts(
      oldStart: string, oldCount: Option<string>, newStart: string, newCount: Option<string>, rest: string)
    requires AllDigits(oldStart) && AllDigits(newStart)
    requires (oldCount.Some? ==> AllDigits(oldCount.value)) && (newCount.Some? ==> AllDigits(newCount.value))
    ensures HeaderStart("@@ -" + (oldStart + (CountPart(oldCount) + ([' ', '+'] + (newStart + (CountPart(newCount) + (" @@" + rest)))))))
            == Some(NatOf(oldStart))
  {
    var tail := " @@" + rest;
    var newRange := newStart + (CountPart(newCount) + tail);
    var range := oldStart + (CountPart(oldCount) + ([' ', '+'] + newRange));
    assert tail[0] == ' ' && tail[..3] == " @@";
    SkipRangeWithCount(newStart, newCount, tail);
    SkipRangeWithCount(oldStart, oldCount, [' ', '+'] + newRange);
    DiffPrinter.HeaderOf(range, newRange, tail);
    assert range[..|oldStart|] == oldStart;
  }

  /** The line is a hunk header whose old range starts at `oldStart`. */
  ghost predicate IsHeader(line: string, oldStart: string) {
    exists oldCount, newStart, newCount, rest :: Header(line, oldStart, oldCount, newStart, newCount, rest)
  }

  predicate Header(
      line: string, oldStart: string, oldCount: Option<string>, newStart: string, newCount: Option<string>, rest: string)
  {
    && AllDigits(oldStart) && AllDigits(newStart)
    && (oldCount.Some? ==> AllDigits(oldCount.value)) && (newCount.Some? ==> AllDigits(newCount.value))
    && line == "@@ -" + (oldStart + (CountPart(oldCount) + ([' ', '+'] + (newStart + (CountPart(newCount) + (" @@" + rest))))))
  }

  lemma {:induction false} RangeParts(s: string, rest: string) returns (start: string, count: Option<string>)
    requires SkipRange(s) == Some(rest)
    ensures AllDigits(start) && (count.Some? ==> AllDigits(count.value)) && s == start + (CountPart(count) + rest)
  {
    start := s[..LeadingDigits(s)];
    var after := s[LeadingDigits(s)..];
    CutAt(s, LeadingDigits(s));
    count := CountIn(after);
  }

  lemma {:induction false} CountIn(after: string) returns (count: Option<string>)
    ensures (count.Some? ==> AllDigits(count.value)) && after == CountPart(count) + SkipCount(after)
  {
    if StartsWith(after, ",") && LeadingDigits(after[1..]) > 0 {
      var n := LeadingDigits(after[1..]);
      count := Some(after[1..1 + n]);
      assert after[..1][0] == after[0];
      CutCount(after, n);
    } else {
      count := None;
      assert CountPart(count) + after == after;
    }
  }

  lemma {:induction false} CutAt(s: string, n: nat)
    requires n <= |s|
    ensures s == s[..n] + s[n..]
  {
  }

  lemma {:induction false} CutCount(after: string, n: nat)
    requires 1 + n <= |after| && after[0] == ','
    ensures after == [','] + after[1..1 + n] + after[1 + n..]
  {
  }

  /** Only such lines are hunk headers: nothing else starts a hunk. */
  lemma {:induction false} HeaderExactly(line: string)
    ensures HeaderStart(line).Some? <==> exists oldStart :: IsHeader(line, oldStart)
    ensures forall oldStart :: IsHeader(line, oldStart) ==> HeaderStart(line) == Some(NatOf(oldStart))
  {
    if HeaderStart(line).Some? { HeaderHasParts(line); }
    forall oldStart | IsHeader(line, oldStart)
      ensures HeaderStart(line) == Some(NatOf(oldStart))
    {
      var oldCount, newStart, newCount, rest :| Header(line, oldStart, oldCount, newStart, newCount, rest);
      HeaderIgnoresCounts(oldStart, oldCount, newStart, newCount, rest);
    }
  }

  lemma {:induction false} HeaderHasParts(line: string)
    requires HeaderStart(line).Some?
    ensures exists oldStart :: IsHeader(line, oldStart)
  {
    var range := line[4..];
    var afterOld := SkipRange(range).value;
    var newRange := afterOld[2..];
    var afterNew := SkipRange(newRange).value;
    var oldStart, oldCount := RangeParts(range, afterOld);
    var newStart, newCount := RangeParts(newRange, afterNew);
    assert line == "@@ -" + range by { CutLine(line, "@@ -"); }
    assert afterOld == [' ', '+'] + newRange by { CutLine(afterOld, " +"); }
    CutLine(afterNew, " @@");
    assert Header(line, oldStart, oldCount, newStart, newCount, afterNew[3..]);
    assert IsHeader(line, oldStart);
  }

  lemma {:induction false} CutLine(line: string, start: string)
    requires StartsWith(line, start)
    ensures line == start + line[|start|..]
  {
  }
}
