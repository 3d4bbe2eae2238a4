/**
 * The text of a unified diff: which hunks are read from it. Every text is a preamble and sections, one for each hunk
 * header, and what is read is one hunk a section.
 */
module PatchText {
  import opened Text
  import opened UnifiedDiff
  import DiffPrinter

  /** How lines are told apart: hunk headers with their start, lines that end a hunk, and no-newline marks. */
  datatype Reading = Reading(header: string -> Option<nat>, stops: string -> bool, mark: string -> bool)

  /** As the engine tells them apart. */
  const ENGINE := Reading(line => HeaderStart(line), line => StartsWith(line, "@@ "), line => StartsWith(line, NO_NEWLINE_MARK))

  /**
   * A hunk header, the lines up to the next line that begins with `@@ `, and what follows from there up to the next
   * hunk header.
   */
  datatype Section = Section(header: string, chunk: seq<string>, skipped: seq<string>)

  predicate NoHeader(r: Reading, lines: seq<string>) {
    forall i :: 0 <= i < |lines| ==> r.header(lines[i]).None?
  }

  predicate NoStop(r: Reading, lines: seq<string>) {
    forall i :: 0 <= i < |lines| ==> !r.stops(lines[i])
  }

  predicate Proper(r: Reading, s: Section) {
    && r.header(s.header).Some? && NoStop(r, s.chunk)
    && NoHeader(r, s.skipped) && (s.skipped != [] ==> r.stops(s.skipped[0]))
  }

  predicate AllProper(r: Reading, sections: seq<Section>) {
    forall i :: 0 <= i < |sections| ==> Proper(r, sections[i])
  }

  function Written(sections: seq<Section>): seq<string> {
    if sections == [] then []
    else [sections[0].header] + (sections[0].chunk + (sections[0].skipped + Written(sections[1..])))
  }

  /** A chunk without its no-newline marks. */
  function Unmarked(r: Reading, chunk: seq<string>): seq<string> {
    if chunk == [] then [] else (if r.mark(chunk[0]) then [] else [chunk[0]]) + Unmarked(r, chunk[1..])
  }

  function HunkOf(r: Reading, s: Section): Hunk
    requires r.header(s.header).Some?
  {
    Hunk(r.header(s.header).value, Unmarked(r, s.chunk))
  }

  function HunksOf(r: Reading, sections: seq<Section>): (hunks: seq<Hunk>)
    requires AllProper(r, sections)
    ensures |hunks| == |sections| && forall i :: 0 <= i < |sections| ==> hunks[i] == HunkOf(r, sections[i])
  {
    if sections == [] then [] else [HunkOf(r, sections[0])] + HunksOf(r, sections[1..])
  }

  /** A final empty line belongs to the line end before it and not to the last chunk. */
  predicate Ends(sections: seq<Section>, final: seq<string>) {
    && final in [[], [""]]
    && (sections != [] && final == [] ==>
          var last := sections[|sections| - 1];
          last.skipped == [] && last.chunk != [] ==> last.chunk[|last.chunk| - 1] != "")
    && (sections != [] && sections[|sections| - 1].skipped != [] ==> final == [])
  }

  predicate IsDiff(r: Reading, preamble: seq<string>, sections: seq<Section>, final: seq<string>) {
    && NoHeader(r, preamble) && AllProper(r, sections) && Ends(sections, final)
    && (sections == [] ==> final == [])
  }

  // ---------------------------------------------------------------------------
  // Reading from the front
  // ---------------------------------------------------------------------------

  /** The lines of a hunk, and what is left. */
  function Taken(r: Reading, lines: seq<string>): (t: (seq<string>, seq<string>))
    ensures |t.1| <= |lines|
  {
    if lines == [] || r.stops(lines[0]) then ([], lines)
    else if r.mark(lines[0]) then Taken(r, lines[1..])
    else if lines == [""] then ([], lines)
    else
      var t := Taken(r, lines[1..]);
      ([lines[0]] + t.0, t.1)
  }

  function Read(r: Reading, lines: seq<string>): seq<Hunk>
    decreases |lines|
  {
    if lines == [] then []
    else match r.header(lines[0])
      case None => Read(r, lines[1..])
      case Some(k) =>
        var t := Taken(r, lines[1..]);
        [Hunk(k, t.0)] + Read(r, t.1)
  }

  lemma {:induction false} BodyIsTaken(lines: seq<string>, i: nat, rest: seq<string>)
    requires i <= |lines| && rest == lines[i..]
    ensures HunkBody(lines, i).0 == Taken(ENGINE, rest).0
    ensures lines[HunkBody(lines, i).1..] == Taken(ENGINE, rest).1
    decreases |lines| - i
  {
    if i < |lines| {
      assert rest[0] == lines[i] && rest[1..] == lines[i + 1..];
      BodyIsTaken(lines, i + 1, lines[i + 1..]);
      assert lines[i] == "" && i == |lines| - 1 <==> rest == [""];
    }
  }

  /** The engine's cursor reads what is read from the front. */
  lemma {:induction false} ParsedIsRead(lines: seq<string>, i: nat, rest: seq<string>)
    requires i <= |lines| && rest == lines[i..]
    ensures ParseHunks(lines, i) == Read(ENGINE, rest)
    decreases |lines| - i
  {
    if i < |lines| {
      assert rest[0] == lines[i] && rest[1..] == lines[i + 1..];
      ParsedIsRead(lines, i + 1, lines[i + 1..]);
      ParsedBehind(lines, i);
      ParseStep(lines, i, HeaderStart(lines[i]));
    }
  }

  lemma {:induction false} ParsedBehind(lines: seq<string>, i: nat)
    requires i < |lines|
    ensures HunkBody(lines, i + 1).0 == Taken(ENGINE, lines[i + 1..]).0
    ensures ParseHunks(lines, HunkBody(lines, i + 1).1) == Read(ENGINE, Taken(ENGINE, lines[i + 1..]).1)
    decreases |lines| - i, 0
  {
    BodyIsTaken(lines, i + 1, lines[i + 1..]);
    var next := HunkBody(lines, i + 1).1;
    ParsedIsRead(lines, next, lines[next..]);
  }

  // ---------------------------------------------------------------------------
  // Reading sections
  // ---------------------------------------------------------------------------

  lemma {:induction false} FirstLine(lines: seq<string>, rest: seq<string>)
    requires lines != []
    ensures lines + rest != [] && (lines + rest)[0] == lines[0] && (lines + rest)[1..] == lines[1..] + rest
  {
  }

  /** A chunk ends at the end, at a final empty line, or at a line that stops it. */
  predicate EndsChunk(r: Reading, chunk: seq<string>, rest: seq<string>) {
    && (rest == [] || rest == [""] || r.stops(rest[0]))
    && (rest == [] && chunk != [] ==> chunk[|chunk| - 1] != "")
  }

  lemma {:induction false} ChunkIsTaken(r: Reading, chunk: seq<string>, rest: seq<string>)
    requires NoStop(r, chunk) && EndsChunk(r, chunk, rest) && !r.mark("")
    ensures Taken(r, chunk + rest) == (Unmarked(r, chunk), rest)
  {
    if chunk == [] {
      assert chunk + rest == rest;
    } else {
      FirstLine(chunk, rest);
      ChunkIsTaken(r, chunk[1..], rest);
      assert !r.stops(chunk[0]);
      assert chunk + rest != [""] by { if |chunk + rest| == 1 { assert rest == [] && chunk == [chunk[0]]; } }
      assert [] + Unmarked(r, chunk[1..]) == Unmarked(r, chunk[1..]);
    }
  }

  lemma {:induction false} SkipsToHeader(r: Reading, skipped: seq<string>, rest: seq<string>)
    requires NoHeader(r, skipped)
    ensures Read(r, skipped + rest) == Read(r, rest)
  {
    if skipped == [] {
      assert skipped + rest == rest;
    } else {
      FirstLine(skipped, rest);
      SkipsToHeader(r, skipped[1..], rest);
      assert r.header(skipped[0]).None?;
    }
  }

  lemma {:induction false} SectionReads(r: Reading, s: Section, rest: seq<string>)
    requires Proper(r, s) && EndsChunk(r, s.chunk, s.skipped + rest) && !r.mark("")
    ensures Read(r, [s.header] + (s.chunk + (s.skipped + rest))) == [HunkOf(r, s)] + Read(r, rest)
  {
    FirstLine([s.header], s.chunk + (s.skipped + rest));
    assert [s.header][1..] + (s.chunk + (s.skipped + rest)) == s.chunk + (s.skipped + rest);
    ChunkIsTaken(r, s.chunk, s.skipped + rest);
    SkipsToHeader(r, s.skipped, rest);
  }

  /** Headers end a hunk, and the empty line is neither a header nor a mark. */
  ghost predicate Sane(r: Reading) {
    (forall line :: r.header(line).Some? ==> r.stops(line)) && r.header("").None? && !r.mark("")
  }

  lemma {:induction false} EngineIsSane()
    ensures Sane(ENGINE)
  {
    forall line | HeaderStart(line).Some?
      ensures StartsWith(line, "@@ ")
    {
      BeginsSo(line);
    }
    EmptyLine();
  }

  lemma {:induction false} BeginsSo(line: string)
    requires StartsWith(line, "@@ -")
    ensures StartsWith(line, "@@ ")
  {
    assert line[..3] == line[..4][..3] == "@@ ";
  }

  lemma {:induction false} EmptyLine()
    ensures HeaderStart("").None? && !StartsWith("", NO_NEWLINE_MARK)
  {
  }

  lemma {:induction false} EndsLater(s: Section, later: seq<Section>, final: seq<string>)
    requires Ends([s] + later, final)
    ensures Ends(later, final)
    ensures later == [] && s.skipped == [] && final == [] && s.chunk != [] ==> s.chunk[|s.chunk| - 1] != ""
  {
    var all := [s] + later;
    assert later != [] ==> all[|all| - 1] == later[|later| - 1];
    assert later == [] ==> all[|all| - 1] == s;
  }

  /** What follows a chunk ends it. */
  lemma {:induction false} ChunkIsEnded(r: Reading, s: Section, later: seq<Section>, final: seq<string>, rest: seq<string>)
    requires Sane(r) && Proper(r, s) && AllProper(r, later) && Ends([s] + later, final)
    requires rest == s.skipped + (Written(later) + final)
    ensures EndsChunk(r, s.chunk, rest)
  {
    EndsLater(s, later, final);
    if s.skipped == [] {
      assert rest == Written(later) + final;
      if later == [] {
        assert rest == final;
      } else {
        assert Proper(r, later[0]) && rest[0] == later[0].header;
      }
    } else {
      assert rest[0] == s.skipped[0];
    }
  }

  lemma {:induction false} Shift(a: seq<string>, b: seq<string>, c: seq<string>)
    ensures (a + b) + c == a + (b + c)
  {
  }

  lemma {:induction false} WrittenShift(s: Section, later: seq<Section>, final: seq<string>)
    ensures Written([s] + later) + final == [s.header] + (s.chunk + (s.skipped + (Written(later) + final)))
  {
    assert ([s] + later)[1..] == later;
    Shift(s.skipped, Written(later), final);
    Shift(s.chunk, s.skipped + Written(later), final);
    Shift([s.header], s.chunk + (s.skipped + Written(later)), final);
  }

  lemma {:induction false} ReadSections(r: Reading, sections: seq<Section>, final: seq<string>)
    requires Sane(r) && AllProper(r, sections) && Ends(sections, final)
    ensures Read(r, Written(sections) + final) == HunksOf(r, sections)
  {
    if sections == [] {
      assert Written(sections) + final == final;
      if final == [""] { assert [""][1..] == []; }
    } else {
      var s, later := sections[0], sections[1..];
      assert sections == [s] + later && Proper(r, s);
      EndsLater(s, later, final);
      ReadSections(r, later, final);
      WrittenShift(s, later, final);
      ChunkIsEnded(r, s, later, final, s.skipped + (Written(later) + final));
      SectionReads(r, s, Written(later) + final);
    }
  }

  /**
   * Every hunk of a diff is read, in order, at the start its header gives and with all its lines but the no-newline
   * marks: whatever the preamble, between the sections and at the end.
   */
  lemma {:induction false} ReadsEveryHunk(preamble: seq<string>, sections: seq<Section>, final: seq<string>)
    requires IsDiff(ENGINE, preamble, sections, final)
    ensures ParseHunks(preamble + (Written(sections) + final), 0) == HunksOf(ENGINE, sections)
  {
    var lines := preamble + (Written(sections) + final);
    EngineIsSane();
    assert lines[0..] == lines;
    ParsedIsRead(lines, 0, lines);
    SkipsToHeader(ENGINE, preamble, Written(sections) + final);
    ReadSections(ENGINE, sections, final);
  }

  // ---------------------------------------------------------------------------
  // Every text is a diff
  // ---------------------------------------------------------------------------

  predicate Decomposes(r: Reading, lines: seq<string>, preamble: seq<string>, sections: seq<Section>, final: seq<string>) {
    IsDiff(r, preamble, sections, final) && lines == preamble + (Written(sections) + final)
  }

  ghost predicate IsADiff(r: Reading, lines: seq<string>) {
    exists preamble, sections, final :: Decomposes(r, lines, preamble, sections, final)
  }

  /** How many lines stand before the first that ends a chunk. */
  function ChunkLength(r: Reading, lines: seq<string>): (n: nat)
    ensures n <= |lines| && (n < |lines| ==> r.stops(lines[n]))
    ensures forall i :: 0 <= i < n ==> !r.stops(lines[i])
  {
    if lines == [] || r.stops(lines[0]) then 0 else 1 + ChunkLength(r, lines[1..])
  }

  /** A header in front of a preamble makes a section of it; a final empty line is set aside. */
  lemma {:induction false} HeaderInFront(r: Reading, line: string, preamble: seq<string>, sections: seq<Section>, final: seq<string>)
    requires r.header(line).Some? && IsDiff(r, preamble, sections, final)
    ensures IsADiff(r, [line] + (preamble + (Written(sections) + final)))
  {
    var n := ChunkLength(r, preamble);
    if sections == [] && n == |preamble| && n > 0 && preamble[n - 1] == "" {
      var s := Section(line, preamble[..n - 1], []);
      LastAside(preamble);
      SectionInFront(r, s, preamble, sections, final, [""], true);
    } else {
      var s := Section(line, preamble[..n], preamble[n..]);
      CutAt(preamble, n);
      SectionInFront(r, s, preamble, sections, final, final, false);
    }
  }

  lemma {:induction false} CutAt(lines: seq<string>, n: nat)
    requires n <= |lines|
    ensures lines == lines[..n] + lines[n..]
  {
  }

  lemma {:induction false} SectionInFront(
      r: Reading, s: Section, preamble: seq<string>, sections: seq<Section>, final: seq<string>, final': seq<string>, ends: bool)
    requires Proper(r, s) && AllProper(r, sections) && Ends(sections, final) && (sections == [] ==> final == [])
    requires ends ==> preamble == s.chunk + [""] && s.skipped == [] && sections == [] && final == [] && final' == [""]
    requires !ends ==> preamble == s.chunk + s.skipped && final' == final
    requires sections == [] && !ends && s.skipped == [] && s.chunk != [] ==> s.chunk[|s.chunk| - 1] != ""
    ensures IsADiff(r, [s.header] + (preamble + (Written(sections) + final)))
  {
    EndsInFront(s, sections, final, final');
    FrontAdds(s.header, preamble, s, sections, final, final', ends);
    assert AllProper(r, [s] + sections);
    IntroduceDiff(r, [s.header] + (preamble + (Written(sections) + final)), [], [s] + sections, final');
  }

  lemma {:induction false} IntroduceDiff(
      r: Reading, lines: seq<string>, preamble: seq<string>, sections: seq<Section>, final: seq<string>)
    requires Decomposes(r, lines, preamble, sections, final)
    ensures IsADiff(r, lines)
  {
  }

  lemma {:induction false} EndsInFront(s: Section, sections: seq<Section>, final: seq<string>, final': seq<string>)
    requires Ends(sections, final) && (sections == [] ==> final == []) && (sections != [] ==> final' == final)
    requires sections == [] ==> final' in [[], [""]] && (s.skipped != [] ==> final' == [])
    requires sections == [] && final' == [] && s.skipped == [] && s.chunk != [] ==> s.chunk[|s.chunk| - 1] != ""
    ensures Ends([s] + sections, final')
  {
    var all := [s] + sections;
    assert sections != [] ==> all[|all| - 1] == sections[|sections| - 1];
    assert sections == [] ==> all[|all| - 1] == s;
  }

  lemma {:induction false} FrontAdds(
      line: string, preamble: seq<string>, s: Section, sections: seq<Section>, final: seq<string>, final': seq<string>, ends: bool)
    requires s.header == line
    requires ends ==> preamble == s.chunk + [""] && s.skipped == [] && sections == [] && final == [] && final' == [""]
    requires !ends ==> preamble == s.chunk + s.skipped && final' == final
    ensures [line] + (preamble + (Written(sections) + final)) == [] + (Written([s] + sections) + final')
  {
    WrittenShift(s, sections, final');
    if ends {
      assert Written(sections) + final == [] && Written(sections) + final' == [""] && s.chunk + s.skipped == s.chunk;
      Shift([line], s.chunk, [""]);
    } else {
      Shift([line], preamble, Written(sections) + final);
    }
  }

  lemma {:induction false} LastAside(lines: seq<string>)
    requires lines != [] && lines[|lines| - 1] == ""
    ensures lines == lines[..|lines| - 1] + [""]
  {
  }

  lemma {:induction false} NoHeaderInFront(r: Reading, line: string, lines: seq<string>)
    requires r.header(line).None? && NoHeader(r, lines)
    ensures NoHeader(r, [line] + lines)
  {
  }

  lemma {:induction false} LineInFront(r: Reading, line: string, preamble: seq<string>, sections: seq<Section>, final: seq<string>)
    requires r.header(line).None? && IsDiff(r, preamble, sections, final)
    ensures IsADiff(r, [line] + (preamble + (Written(sections) + final)))
  {
    var rest := Written(sections) + final;
    Shift([line], preamble, rest);
    NoHeaderInFront(r, line, preamble);
    IntroduceDiff(r, [line] + (preamble + rest), [line] + preamble, sections, final);
  }

  /** So the sections say what is read of any text at all. */
  lemma {:induction false} EveryTextIsADiff(r: Reading, lines: seq<string>)
    ensures IsADiff(r, lines)
  {
    if lines == [] {
      assert Decomposes(r, lines, [], [], []);
    } else {
      EveryTextIsADiff(r, lines[1..]);
      assert lines == [lines[0]] + lines[1..];
      AnyLineInFront(r, lines[0], lines[1..]);
    }
  }

  lemma {:induction false} AnyLineInFront(r: Reading, line: string, lines: seq<string>)
    requires IsADiff(r, lines)
    ensures IsADiff(r, [line] + lines)
  {
    var preamble, sections, final :| Decomposes(r, lines, preamble, sections, final);
    if r.header(line).Some? {
      HeaderInFront(r, line, preamble, sections, final);
    } else {
      LineInFront(r, line, preamble, sections, final);
    }
  }

  // ---------------------------------------------------------------------------
  // Applying a diff
  // ---------------------------------------------------------------------------

  /** Applying the text of a diff applies the hunks of all its sections. */
  lemma {:induction false} AppliesEveryHunk(
      original: string, diff: string, preamble: seq<string>, sections: seq<Section>, final: seq<string>)
    requires Decomposes(ENGINE, DiffLines(diff), preamble, sections, final)
    ensures Applied(original, diff).Ok?
            <==> sections != [] && exists gaps :: Fits(ToLines(original).0, HunksOf(ENGINE, sections), gaps)
    ensures sections != [] ==>
              forall gaps :: Fits(ToLines(original).0, HunksOf(ENGINE, sections), gaps) ==>
                Applied(original, diff) == Ok(FromLines(Weave(gaps, News(HunksOf(ENGINE, sections))), ToLines(original).1))
    ensures Applied(original, diff) == Err(NoHunks) <==> sections == []
  {
    ReadsEveryHunk(preamble, sections, final);
    PatchMeaning(ToLines(original).0, HunksOf(ENGINE, sections));
    OtherErrors(ToLines(original).0, 0, HunksOf(ENGINE, sections));
  }

  lemma {:induction false} OtherErrors(orig: Lines, cursor: nat, hunks: seq<Hunk>)
    requires cursor <= |orig|
    ensures ApplyFrom(orig, cursor, hunks) != Err(NoHunks)
    decreases hunks
  {
    if hunks != [] && cursor <= hunks[0].oldStart - 1 <= |orig| {
      var start := hunks[0].oldStart - 1;
      BodyErrors(orig, start, hunks[0].lines);
      if ApplyBody(orig, start, hunks[0].lines).Ok? {
        OtherErrors(orig, ApplyBody(orig, start, hunks[0].lines).value.1, hunks[1..]);
      }
    }
  }

  lemma {:induction false} BodyErrors(orig: Lines, cursor: nat, lines: seq<string>)
    ensures ApplyBody(orig, cursor, lines) != Err(NoHunks)
    decreases lines
  {
    if lines != [] {
      BodyErrors(orig, cursor, lines[1..]);
      BodyErrors(orig, cursor + 1, lines[1..]);
    }
  }

  predicate AllFree(lines: seq<string>) {
    forall i :: 0 <= i < |lines| ==> Free(lines[i], '\n') && Free(lines[i], '\r')
  }

  /** Lines ended by a line feed, or by a carriage return and a line feed, are the lines that are read. */
  lemma {:induction false} LinesOfText(lines: seq<string>, crs: seq<string>)
    requires lines != [] && AllFree(lines) && |crs| == |lines| && crs[|lines| - 1] == lines[|lines| - 1]
    requires forall i :: 0 <= i < |lines| - 1 ==> crs[i] == lines[i] || crs[i] == lines[i] + "\r"
    ensures DiffLines(Join(crs, '\n')) == lines
  {
    DiffPrinter.SplitNormalized(crs);
    forall i | 0 <= i < |lines|
      ensures DiffPrinter.NormalLines(crs)[i] == lines[i]
    {
      DropsCr(lines[i]);
    }
  }

  lemma {:induction false} DropsCr(line: string)
    requires Free(line, '\r')
    ensures DiffPrinter.StripCr(line) == line && DiffPrinter.StripCr(line + "\r") == line
  {
  }
}
