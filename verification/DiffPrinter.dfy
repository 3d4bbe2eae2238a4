/** `fullFileUnifiedDiff`, the printer of whole-file diffs, and its round trip through the engine. */
module DiffPrinter {
  import opened Text
  import opened UnifiedDiff

  function Prefixed(c: char, lines: seq<string>): (r: seq<string>)
    ensures |r| == |lines|
    ensures forall i :: 0 <= i < |lines| ==> r[i] == [c] + lines[i]
  {
    seq(|lines|, i requires 0 <= i < |lines| => [c] + lines[i])
  }

  /** The range `1,count`, followed by `rest`. */
  function PrintedRange(count: nat, rest: string): string {
    "1" + ([','] + (Decimal(count) + rest))
  }

  function HunkHeader(oldCount: nat, newCount: nat): string {
    "@@ -" + PrintedRange(oldCount, [' ', '+'] + PrintedRange(newCount, " @@"))
  }

  function PrintedBody(oldLines: seq<string>, newLines: seq<string>): seq<string> {
    Prefixed('-', oldLines) + Prefixed('+', newLines)
  }

  function PrintedLines(oldName: string, newName: string, oldLines: seq<string>, newLines: seq<string>): seq<string> {
    ["--- " + oldName] + (["+++ " + newName] + ([HunkHeader(|oldLines|, |newLines|)] + PrintedBody(oldLines, newLines)))
  }

  function FullFileUnifiedDiff(path: string, fromVersion: string, toVersion: string, before: string, after: string)
    : string
  {
    if before == after then ""
    else
      Join(PrintedLines(path + "@" + fromVersion, path + "@" + toVersion,
                        Split(NormalizeNewlines(before), '\n'), Split(NormalizeNewlines(after), '\n')), '\n')
  }

  // ---------------------------------------------------------------------------
  // Newline normalisation, line by line
  // ---------------------------------------------------------------------------

  function StripCr(line: string): string {
    if line != "" && line[|line| - 1] == '\r' then line[..|line| - 1] else line
  }

  lemma {:induction false} NormalizeLine(line: string, rest: string)
    requires Free(line, '\n')
    ensures NormalizeNewlines(line + ['\n'] + rest) == StripCr(line) + ['\n'] + NormalizeNewlines(rest)
  {
    var s := line + ['\n'] + rest;
    if line == "" {
      assert s[1..] == rest;
    } else if line == "\r" {
      assert s[2..] == rest;
    } else {
      assert s[1..] == line[1..] + ['\n'] + rest;
      NormalizeLine(line[1..], rest);
      assert StripCr(line) == [line[0]] + StripCr(line[1..]);
    }
  }

  lemma {:induction false} NormalizeOneLine(line: string)
    requires Free(line, '\n')
    ensures NormalizeNewlines(line) == line
  {
    if line != "" {
      NormalizeOneLine(line[1..]);
      assert line == [line[0]] + line[1..];
    }
  }

  function StripEach(lines: seq<string>): (r: seq<string>)
    ensures |r| == |lines|
    ensures forall i :: 0 <= i < |lines| ==> r[i] == StripCr(lines[i])
  {
    seq(|lines|, i requires 0 <= i < |lines| => StripCr(lines[i]))
  }

  /** Normalisation strips a carriage return from every line but the last. */
  function NormalLines(lines: seq<string>): (r: seq<string>)
    requires lines != []
    ensures |r| == |lines|
    ensures forall i :: 0 <= i < |lines| - 1 ==> r[i] == StripCr(lines[i])
    ensures r[|lines| - 1] == lines[|lines| - 1]
  {
    StripEach(lines[..|lines| - 1]) + [lines[|lines| - 1]]
  }

  lemma {:induction false} NormalLinesCons(line: string, lines: seq<string>)
    requires lines != []
    ensures NormalLines([line] + lines) == [StripCr(line)] + NormalLines(lines)
  {
    var all := [line] + lines;
    assert forall i :: 0 < i < |all| ==> all[i] == lines[i - 1];
  }

  lemma {:induction false} NormalLinesFree(lines: seq<string>)
    requires lines != [] && NewlineFree(lines)
    ensures NewlineFree(NormalLines(lines)) && NewlineFree(StripEach(lines))
  {
  }

  lemma {:induction false} NormalizeJoin(lines: seq<string>)
    requires lines != [] && NewlineFree(lines)
    ensures NormalizeNewlines(Join(lines, '\n')) == Join(NormalLines(lines), '\n')
  {
    if |lines| == 1 {
      NormalizeOneLine(lines[0]);
      assert NormalLines(lines) == lines;
    } else {
      var rest := lines[1..];
      assert lines == [lines[0]] + rest;
      NormalizeLine(lines[0], Join(rest, '\n'));
      NormalizeJoin(rest);
      NormalLinesCons(lines[0], rest);
      assert ([StripCr(lines[0])] + NormalLines(rest))[1..] == NormalLines(rest);
    }
  }

  lemma {:induction false} SplitNormalized(lines: seq<string>)
    requires lines != [] && NewlineFree(lines)
    ensures Split(NormalizeNewlines(Join(lines, '\n')), '\n') == NormalLines(lines)
  {
    NormalizeJoin(lines);
    NormalLinesFree(lines);
    SplitJoin(NormalLines(lines), '\n');
  }

  // ---------------------------------------------------------------------------
  // Reading the printed header and body back
  // ---------------------------------------------------------------------------

  lemma {:induction false} LeadingDigitsOf(digits: string, rest: string)
    requires forall i :: 0 <= i < |digits| ==> IsDigit(digits[i])
    requires rest == "" || !IsDigit(rest[0])
    ensures LeadingDigits(digits + rest) == |digits|
  {
    if digits == "" {
      assert digits + rest == rest;
    } else {
      LeadingDigitsOf(digits[1..], rest);
      assert (digits + rest)[1..] == digits[1..] + rest;
    }
  }

  lemma {:induction false} SkipCountOf(count: string, rest: string)
    requires AllDigits(count) && (rest == "" || !IsDigit(rest[0]))
    ensures SkipCount([','] + (count + rest)) == rest
  {
    var s := [','] + (count + rest);
    assert s[1..] == count + rest;
    LeadingDigitsOf(count, rest);
    assert s[1 + |count|..] == rest;
  }

  lemma {:induction false} SkipRangeOf(start: string, count: string, rest: string)
    requires AllDigits(start) && AllDigits(count) && (rest == "" || !IsDigit(rest[0]))
    ensures LeadingDigits(start + ([','] + (count + rest))) == |start|
    ensures SkipRange(start + ([','] + (count + rest))) == Some(rest)
  {
    var counted := [','] + (count + rest);
    LeadingDigitsOf(start, counted);
    assert (start + counted)[|start|..] == counted;
    SkipCountOf(count, rest);
  }

  lemma {:induction false} HeaderOf(range: string, afterOld: string, afterNew: string)
    requires SkipRange(range) == Some([' ', '+'] + afterOld)
    requires SkipRange(afterOld) == Some(afterNew) && StartsWith(afterNew, " @@")
    ensures HeaderStart("@@ -" + range) == Some(NatOf(range[..LeadingDigits(range)]))
  {
    var line := "@@ -" + range;
    assert line[..4] == "@@ -" && line[4..] == range;
    var rest := [' ', '+'] + afterOld;
    assert rest[..2] == " +" && rest[2..] == afterOld;
  }

  lemma {:induction false} HeaderReadsBack(oldCount: nat, newCount: nat)
    ensures HeaderStart(HunkHeader(oldCount, newCount)) == Some(1)
  {
    var newRange := PrintedRange(newCount, " @@");
    var range := PrintedRange(oldCount, [' ', '+'] + newRange);
    SkipRangeOf("1", Decimal(oldCount), [' ', '+'] + newRange);
    SkipRangeOf("1", Decimal(newCount), " @@");
    HeaderOf(range, newRange, " @@");
    assert range[..1] == "1";
    assert NatOf("1") == 1 by { assert "1"[..0] == ""; }
  }

  lemma {:induction false} NotAHeader(line: string)
    requires line == "" || line[0] != '@'
    ensures HeaderStart(line) == None
  {
    assert |line| >= 4 ==> line[..4][0] == line[0];
    assert "@@ -"[0] == '@';
  }

  predicate SignedLine(line: string) {
    line != "" && line[0] in ['-', '+']
  }

  lemma {:induction false} BodyReadsBack(lines: seq<string>, i: nat)
    requires i <= |lines|
    requires forall k :: i <= k < |lines| ==> SignedLine(lines[k])
    ensures HunkBody(lines, i) == (lines[i..], |lines|)
    decreases |lines| - i
  {
    if i < |lines| {
      assert SignedLine(lines[i]);
      BodyReadsBack(lines, i + 1);
      assert lines[i..] == [lines[i]] + lines[i + 1..];
    }
  }

  lemma {:induction false} OldOfPrinted(oldLines: seq<string>, newLines: seq<string>)
    ensures Old(PrintedBody(oldLines, newLines)) == oldLines
    ensures New(PrintedBody(oldLines, newLines)) == newLines
    decreases |oldLines| + |newLines|
  {
    var all := Prefixed('-', oldLines) + Prefixed('+', newLines);
    if oldLines != [] {
      OldOfPrinted(oldLines[1..], newLines);
      assert all[0] == ['-'] + oldLines[0];
      assert all[1..] == Prefixed('-', oldLines[1..]) + Prefixed('+', newLines);
      assert oldLines == [oldLines[0]] + oldLines[1..];
    } else if newLines != [] {
      OldOfPrinted(oldLines, newLines[1..]);
      assert all[0] == ['+'] + newLines[0];
      assert all[1..] == Prefixed('-', oldLines) + Prefixed('+', newLines[1..]);
      assert newLines == [newLines[0]] + newLines[1..];
    }
  }

  lemma {:induction false} PrintedBodyLines(oldLines: seq<string>, newLines: seq<string>)
    requires NewlineFree(oldLines) && NewlineFree(newLines)
    ensures NewlineFree(PrintedBody(oldLines, newLines))
    ensures forall i :: 0 <= i < |PrintedBody(oldLines, newLines)| ==> SignedLine(PrintedBody(oldLines, newLines)[i])
  {
    var body := PrintedBody(oldLines, newLines);
    forall i | 0 <= i < |body|
      ensures SignedLine(body[i]) && Free(body[i], '\n')
    {
      if i < |oldLines| {
        assert body[i] == ['-'] + oldLines[i];
      } else {
        assert body[i] == ['+'] + newLines[i - |oldLines|];
      }
    }
  }

  lemma {:induction false} StripSigned(c: char, line: string)
    requires c != '\r'
    ensures StripCr([c] + line) == [c] + StripCr(line)
  {
  }

  /** Normalising a printed body strips its old lines, and its new ones as a text of their own. */
  lemma {:induction false} NormalBody(oldLines: seq<string>, newLines: seq<string>)
    requires newLines != []
    ensures NormalLines(PrintedBody(oldLines, newLines)) == PrintedBody(StripEach(oldLines), NormalLines(newLines))
  {
    var body, after := PrintedBody(oldLines, newLines), PrintedBody(StripEach(oldLines), NormalLines(newLines));
    forall i | 0 <= i < |body|
      ensures NormalLines(body)[i] == after[i]
    {
      if i < |oldLines| {
        assert body[i] == ['-'] + oldLines[i] && after[i] == ['-'] + StripCr(oldLines[i]);
        StripSigned('-', oldLines[i]);
      } else {
        var j := i - |oldLines|;
        assert body[i] == ['+'] + newLines[j] && after[i] == ['+'] + NormalLines(newLines)[j];
        StripSigned('+', newLines[j]);
      }
    }
    assert NormalLines(body) == after;
  }

  lemma {:induction false} HeaderIsOneLine(oldCount: nat, newCount: nat)
    ensures Free(HunkHeader(oldCount, newCount), '\r') && Free(HunkHeader(oldCount, newCount), '\n')
  {
    assert forall i :: 0 <= i < |Decimal(oldCount)| ==> IsDigit(Decimal(oldCount)[i]);
    assert forall i :: 0 <= i < |Decimal(newCount)| ==> IsDigit(Decimal(newCount)[i]);
  }

  /** Header lines and hunk header in front of a body, after normalisation and splitting. */
  lemma {:induction false} SplitPrinted(h0: string, h1: string, header: string, body: seq<string>)
    requires Free(h0, '\n') && Free(h1, '\n') && Free(header, '\n') && Free(header, '\r') && body != [] && NewlineFree(body)
    ensures Split(NormalizeNewlines(Join([h0] + ([h1] + ([header] + body)), '\n')), '\n')
            == [StripCr(h0)] + ([StripCr(h1)] + ([header] + NormalLines(body)))
  {
    var three := [header] + body;
    var two := [h1] + three;
    assert NewlineFree(three) && NewlineFree(two) && NewlineFree([h0] + two);
    SplitNormalized([h0] + two);
    NormalLinesCons(h0, two);
    NormalLinesCons(h1, three);
    NormalLinesCons(header, body);
    assert StripCr(header) == header;
  }

  lemma {:induction false} ParseSkips(lines: seq<string>, i: nat)
    requires i < |lines| && HeaderStart(lines[i]) == None
    ensures ParseHunks(lines, i) == ParseHunks(lines, i + 1)
  {
  }

  lemma {:induction false} ParseLastHunk(lines: seq<string>, i: nat)
    requires i < |lines| && HeaderStart(lines[i]).Some?
    requires HunkBody(lines, i + 1) == (lines[i + 1..], |lines|)
    ensures ParseHunks(lines, i) == [Hunk(HeaderStart(lines[i]).value, lines[i + 1..])]
  {
    assert ParseHunks(lines, |lines|) == [];
  }

  lemma {:induction false} ParsePrinted(lines: seq<string>)
    requires |lines| >= 3 && SignedLine(lines[0]) && SignedLine(lines[1])
    requires HeaderStart(lines[2]) == Some(1)
    requires forall k :: 3 <= k < |lines| ==> SignedLine(lines[k])
    ensures ParseHunks(lines, 0) == [Hunk(1, lines[3..])]
  {
    BodyReadsBack(lines, 3);
    ParseLastHunk(lines, 2);
    NotAHeader(lines[0]);
    NotAHeader(lines[1]);
    ParseSkips(lines, 0);
    ParseSkips(lines, 1);
  }

  lemma {:induction false} StripKeepsSign(line: string)
    requires SignedLine(line)
    ensures SignedLine(StripCr(line))
  {
  }

  lemma {:induction false} ReadPrinted(h0: string, h1: string, header: string, body: seq<string>, stripped: seq<string>)
    requires Free(h0, '\n') && Free(h1, '\n') && Free(header, '\n') && Free(header, '\r') && body != [] && NewlineFree(body)
    requires SignedLine(h0) && SignedLine(h1) && HeaderStart(header) == Some(1)
    requires stripped == NormalLines(body) && forall i :: 0 <= i < |stripped| ==> SignedLine(stripped[i])
    ensures ParseHunks(Split(NormalizeNewlines(Join([h0] + ([h1] + ([header] + body)), '\n')), '\n'), 0) == [Hunk(1, stripped)]
  {
    SplitPrinted(h0, h1, header, body);
    StripKeepsSign(h0);
    StripKeepsSign(h1);
    ReadSplit(StripCr(h0), StripCr(h1), header, stripped);
  }

  lemma {:induction false} FileHeaderLine(mark: string, name: string)
    requires mark in ["--- ", "+++ "] && Free(name, '\n')
    ensures SignedLine(mark + name) && Free(mark + name, '\n')
  {
  }

  /** The printed diff reads back as one hunk at line 1 that trades all old lines for all new ones, normalised once more. */
  lemma {:induction false} PrintedHunks(oldName: string, newName: string, oldLines: seq<string>, newLines: seq<string>)
    requires Free(oldName, '\n') && Free(newName, '\n') && NewlineFree(oldLines) && NewlineFree(newLines) && newLines != []
    ensures ParseHunks(Split(NormalizeNewlines(Join(PrintedLines(oldName, newName, oldLines, newLines), '\n')), '\n'), 0)
            == [Hunk(1, PrintedBody(StripEach(oldLines), NormalLines(newLines)))]
  {
    PrintedBodyLines(oldLines, newLines);
    HeaderIsOneLine(|oldLines|, |newLines|);
    HeaderReadsBack(|oldLines|, |newLines|);
    NormalBody(oldLines, newLines);
    NormalLinesFree(newLines);
    StrippedFree(oldLines);
    PrintedBodyLines(StripEach(oldLines), NormalLines(newLines));
    FileHeaderLine("--- ", oldName);
    FileHeaderLine("+++ ", newName);
    ReadPrinted("--- " + oldName, "+++ " + newName, HunkHeader(|oldLines|, |newLines|), PrintedBody(oldLines, newLines),
      PrintedBody(StripEach(oldLines), NormalLines(newLines)));
  }

  lemma {:induction false} StrippedFree(lines: seq<string>)
    requires NewlineFree(lines)
    ensures NewlineFree(StripEach(lines))
  {
  }

  lemma {:induction false} AfterThree<T>(a: T, b: T, c: T, rest: seq<T>)
    ensures var all := [a] + ([b] + ([c] + rest));
            && |all| == |rest| + 3 && all[0] == a && all[1] == b && all[2] == c && all[3..] == rest
            && forall k :: 3 <= k < |all| ==> all[k] == rest[k - 3]
  {
  }

  lemma {:induction false} ReadSplit(s0: string, s1: string, header: string, body: seq<string>)
    requires SignedLine(s0) && SignedLine(s1) && HeaderStart(header) == Some(1)
    requires forall i :: 0 <= i < |body| ==> SignedLine(body[i])
    ensures ParseHunks([s0] + ([s1] + ([header] + body)), 0) == [Hunk(1, body)]
  {
    AfterThree(s0, s1, header, body);
    ParsePrinted([s0] + ([s1] + ([header] + body)));
  }

  lemma {:induction false} ApplySingle(orig: seq<string>, lines: seq<string>)
    ensures ApplyBody(orig, 0, lines).Err? ==>
              ApplyFrom(orig, 0, [Hunk(1, lines)]) == Err(ApplyBody(orig, 0, lines).error)
    ensures ApplyBody(orig, 0, lines).Ok? ==>
              ApplyFrom(orig, 0, [Hunk(1, lines)])
              == Ok(ApplyBody(orig, 0, lines).value.0 + orig[ApplyBody(orig, 0, lines).value.1..])
  {
    assert [Hunk(1, lines)][1..] == [];
    if ApplyBody(orig, 0, lines).Ok? {
      var b := ApplyBody(orig, 0, lines).value;
      assert ApplyFrom(orig, b.1, []) == Ok(orig[b.1..]);
      assert orig[0..0] + b.0 == b.0;
    }
  }

  /** One hunk at line 1 that removes the printed old lines and adds the printed new ones. */
  lemma {:induction false} ApplyWholeFile(orig: seq<string>, oldLines: seq<string>, newLines: seq<string>)
    ensures ApplyFrom(orig, 0, [Hunk(1, PrintedBody(oldLines, newLines))])
            == if |oldLines| <= |orig| && orig[..|oldLines|] == oldLines
               then Ok(newLines + orig[|oldLines|..]) else Err(DoesNotApply)
  {
    var lines := PrintedBody(oldLines, newLines);
    OldOfPrinted(oldLines, newLines);
    forall i | 0 <= i < |lines|
      ensures KnownPrefix(lines[i])
    {
    }
    ApplyBodyMeaning(orig, 0, lines);
    ApplyBodyError(orig, 0, lines);
    ApplySingle(orig, lines);
  }

  /** Some line of the text ends in a carriage return. */
  predicate HasCrLine(text: string) {
    exists i :: 0 <= i < |Split(text, '\n')| && EndsWith(Split(text, '\n')[i], '\r')
  }

  lemma {:induction false} StrippedIsSame(lines: seq<string>)
    requires lines != []
    ensures StripEach(NormalLines(lines)) == lines <==> forall i :: 0 <= i < |lines| ==> !EndsWith(lines[i], '\r')
  {
    forall i | 0 <= i < |lines|
      ensures StripEach(NormalLines(lines))[i] == lines[i] <==> !EndsWith(lines[i], '\r')
    {
      ShorterOrSame(lines[i]);
      ShorterOrSame(StripCr(lines[i]));
    }
  }

  lemma {:induction false} ShorterOrSame(line: string)
    ensures if EndsWith(line, '\r') then |StripCr(line)| < |line| else StripCr(line) == line
  {
  }

  lemma {:induction false} SplitNormalText(text: string)
    ensures Split(NormalizeNewlines(text), '\n') == NormalLines(Split(text, '\n'))
    ensures Join(NormalLines(Split(text, '\n')), '\n') == NormalizeNewlines(text)
  {
    JoinSplit(text, '\n');
    SplitNormalized(Split(text, '\n'));
    NormalizeJoin(Split(text, '\n'));
  }

  /**
   * Round trip, over all texts. The engine applies a printed whole-file diff to the text it was printed from and gets
   * the other text, its line ends normalised twice, unless the first text ends in a newline or has a line ending in a
   * carriage return: then it always refuses.
   */
  lemma {:induction false} PrintApplyRoundTrip(path: string, fromVersion: string, toVersion: string, before: string, after: string)
    requires before != after && Free(path, '\n') && Free(fromVersion, '\n') && Free(toVersion, '\n')
    ensures Applied(before, FullFileUnifiedDiff(path, fromVersion, toVersion, before, after))
            == if EndsWith(before, '\n') || HasCrLine(before) then Err(DoesNotApply)
               else Ok(NormalizeNewlines(NormalizeNewlines(after)))
  {
    SplitNormalText(before);
    SplitNormalText(after);
    SplitNormalText(NormalizeNewlines(after));
    var oldLines, newLines := NormalLines(Split(before, '\n')), NormalLines(Split(after, '\n'));
    NormalLinesFree(Split(before, '\n'));
    NormalLinesFree(Split(after, '\n'));
    PrintedHunks(path + "@" + fromVersion, path + "@" + toVersion, oldLines, newLines);
    ApplyPrinted(before, StripEach(oldLines), NormalLines(newLines));
  }

  /** The printed old lines, stripped once more, are the text's own lines exactly when none ended in a carriage return. */
  lemma {:induction false} ApplyPrinted(before: string, oldLines: seq<string>, newLines: seq<string>)
    requires oldLines == StripEach(NormalLines(Split(before, '\n'))) && newLines != []
    ensures ApplyText(before, [Hunk(1, PrintedBody(oldLines, newLines))])
            == if EndsWith(before, '\n') || HasCrLine(before) then Err(DoesNotApply) else Ok(Join(newLines, '\n'))
  {
    ApplyWholeFile(ToLines(before).0, oldLines, newLines);
    ReplacedText(before, [Hunk(1, PrintedBody(oldLines, newLines))], oldLines, newLines);
    CrLineIsStripped(before);
  }

  lemma {:induction false} ReplacedText(before: string, hunks: seq<Hunk>, oldLines: seq<string>, newLines: seq<string>)
    requires hunks != [] && |oldLines| == |Split(before, '\n')|
    requires var orig := ToLines(before).0;
             ApplyFrom(orig, 0, hunks)
             == if |oldLines| <= |orig| && orig[..|oldLines|] == oldLines
                then Ok(newLines + orig[|oldLines|..]) else Err(DoesNotApply)
    ensures ApplyText(before, hunks)
            == if EndsWith(before, '\n') || oldLines != Split(before, '\n') then Err(DoesNotApply) else Ok(Join(newLines, '\n'))
  {
    var (orig, nl) := ToLines(before);
    if !nl {
      WholeIsReplaced(orig, oldLines, newLines);
      assert FromLines(newLines, false) == Join(newLines, '\n');
    }
  }

  lemma {:induction false} CrLineIsStripped(text: string)
    ensures HasCrLine(text) <==> StripEach(NormalLines(Split(text, '\n'))) != Split(text, '\n')
  {
    StrippedIsSame(Split(text, '\n'));
  }

  lemma {:induction false} WholeIsReplaced(orig: seq<string>, oldLines: seq<string>, newLines: seq<string>)
    requires |oldLines| == |orig|
    ensures orig[..|oldLines|] == oldLines <==> orig == oldLines
    ensures newLines + orig[|oldLines|..] == newLines
  {
    assert orig[..|orig|] == orig;
  }

  /** On texts without carriage returns the other text comes back exactly. */
  lemma {:induction false} NothingToNormalize(text: string)
    requires Free(text, '\r')
    ensures NormalizeNewlines(NormalizeNewlines(text)) == text && !HasCrLine(text)
  {
    CrFreeIsNormal(text);
    CrFreeLines(text);
  }

  lemma {:induction false} CrFreeIsNormal(s: string)
    requires Free(s, '\r')
    ensures NormalizeNewlines(s) == s
  {
    if s != "" {
      CrFreeIsNormal(s[1..]);
    }
  }

  lemma {:induction false} CrFreeLines(s: string)
    requires Free(s, '\r')
    ensures forall i :: 0 <= i < |Split(s, '\n')| ==> Free(Split(s, '\n')[i], '\r')
  {
    if s != "" {
      CrFreeLines(s[1..]);
    }
  }

  /** A body with known prefixes can only fail by not matching. */
  lemma {:induction false} ApplyBodyError(orig: seq<string>, cursor: nat, lines: seq<string>)
    requires forall i :: 0 <= i < |lines| ==> KnownPrefix(lines[i])
    ensures ApplyBody(orig, cursor, lines).Err? ==> ApplyBody(orig, cursor, lines).error == DoesNotApply
    decreases lines
  {
    if lines != [] {
      ApplyBodyError(orig, cursor, lines[1..]);
      ApplyBodyError(orig, cursor + 1, lines[1..]);
    }
  }
}
