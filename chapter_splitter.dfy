/** `split_into_chapters` (book_search_engine.py:122-158): scan the text line
    by line, open a new chapter at every chapter-start line, and fall back to
    1000-word sections when the scan finds at most one chapter. The unused
    `title` parameter is omitted. */
module ChapterSplitter {
  import opened PyStr
  import opened ChapterPatterns

  

  // ---------------------------------------------------------------------------
  // The line scan, step by step as the loop runs it

  /** The scan's state between two lines: the chapters closed so far and the
      text accumulated for the chapter being read. */
  datatype Scan = Scan(chapters: seq<string>, current: string)

  /** Closing the chapter being read (lines 138-139 and 147-148): its
      stripped text is appended unless it is blank. */
  function Flush(chapters: seq<string>, current: string): seq<string>
  {
    if Strip(current) != [] then chapters + [Strip(current)] else chapters
  }

  /** One pass of the loop body (lines 135-145). */
  function Step(st: Scan, line: string): Scan
  {
    if IsChapterStart(line) then Scan(Flush(st.chapters, st.current), line + " ")
    else Scan(st.chapters, st.current + line + " ")
  }

  /** The loop over the remaining lines (line 134). */
  function ScanLines(st: Scan, lines: seq<string>): Scan
    decreases |lines|
  {
    if lines == [] then st else ScanLines(Step(st, lines[0]), lines[1..])
  }

  /** The chapters the scan produces before the fallback check (lines 130-148). */
  function DetectChapters(lines: seq<string>): seq<string>
  {
    var st := ScanLines(Scan([], ""), lines);
    Flush(st.chapters, st.current)
  }

  // ---------------------------------------------------------------------------
  // An independent description of the detected chapters, by grouping lines

  /** What the scan accumulates for a run of lines: each line followed by a space. */
  function Joined(ls: seq<string>): string
  {
    if ls == [] then "" else ls[0] + " " + Joined(ls[1..])
  }

  /** Number of chapter-start lines. */
  function CountStarts(ls: seq<string>): nat
  {
    if ls == [] then 0 else (if IsChapterStart(ls[0]) then 1 else 0) + CountStarts(ls[1..])
  }

  /** The first chapter-start line at or after `i`, or `|lines|` when there is none. */
  function NextStart(lines: seq<string>, i: nat): (j: nat)
    requires i <= |lines|
    ensures i <= j <= |lines|
    ensures forall k :: i <= k < j ==> !IsChapterStart(lines[k])
    ensures j < |lines| ==> IsChapterStart(lines[j])
    decreases |lines| - i
  {
    if i == |lines| || IsChapterStart(lines[i]) then i else NextStart(lines, i + 1)
  }

  /** Non-empty, with no whitespace at either end: what `strip()` leaves of
      a text that is not blank. */
  predicate IsChapterText(c: string)
  {
    c != [] && !IsSpace(c[0]) && !IsSpace(c[|c| - 1])
  }

  /** One chapter for the chapter-start line at `i` and one for each later
      one: each is the stripped text of its start line and the lines up to
      the next start line. */
  function ChaptersFrom(lines: seq<string>, i: nat): seq<string>
    requires i < |lines| && IsChapterStart(lines[i])
    decreases |lines| - i
  {
    var j := NextStart(lines, i + 1);
    [Strip(Joined(lines[i..j]))] + (if j < |lines| then ChaptersFrom(lines, j) else [])
  }

  /** The detected chapters described without the scan: the text before the
      first chapter-start line when it is not blank, then one chapter per
      chapter-start line. */
  function ReferenceChapters(lines: seq<string>): seq<string>
  {
    var f := NextStart(lines, 0);
    var lead := Joined(lines[..f]);
    (if IsBlank(lead) then [] else [Strip(lead)]) + (if f < |lines| then ChaptersFrom(lines, f) else [])
  }

  // ---------------------------------------------------------------------------
  // The fallback: sections of 1000 words

  function Concat<T>(xss: seq<seq<T>>): seq<T>
  {
    if xss == [] then [] else xss[0] + Concat(xss[1..])
  }

  /** The word lists `words[i:i+1000]` for `i` in `range(0, len(words), 1000)`. */
  function Chunks(words: seq<string>): seq<seq<string>>
    decreases |words|
  {
    if words == [] then []
    else
      var n := Min(1000, |words|);
      [words[..n]] + Chunks(words[n..])
  }

  /** `f"Section {k+1}: "`. */
  function SectionLabel(k: nat): string
  {
    "Section " + NatToString(k + 1) + ": "
  }

  /** The fallback result (lines 151-156): one labelled section per chunk. */
  function Sections(words: seq<string>): seq<string>
  {
    var cs := Chunks(words);
    seq(|cs|, k requires 0 <= k < |cs| => SectionLabel(k) + JoinSpace(cs[k]))
  }

  // ---------------------------------------------------------------------------
  // The whole function

  /** What `split_into_chapters` returns: the detected chapters when there are
      at least two, otherwise the sections of `text.split()`. */
  function Chapters(text: string): seq<string>
  {
    var detected := DetectChapters(SplitOn(text, '\n'));
    if |detected| <= 1 then Sections(Words(text)) else detected
  }

  /** `split_into_chapters(text, title)`: the line scan, then the fallback
      when it found at most one chapter (lines 151-156). */
  method SplitIntoChapters(text: string) returns (chapters: seq<string>)
    ensures chapters == Chapters(text)
    ensures chapters == [] <==> IsBlank(text)
  {
    var lines := SplitOn(text, '\n');
    chapters := ScanChapters(lines);
    if |chapters| <= 1 {
      chapters := ChunkSections(Words(text));
    }
    ChaptersEmptyIffBlank(text);
  }

  /** The line loop of lines 130-148: each line is read in turn, starting
      with no chapters and an empty current chapter, and the chapter being
      read is closed at the end. */
  method ScanChapters(lines: seq<string>) returns (chapters: seq<string>)
    ensures chapters == DetectChapters(lines)
  {
    chapters := [];
    var current := "";
    ghost var scanned := ScanLines(Scan([], ""), lines);
    var i := 0;
    while i < |lines|
      invariant 0 <= i <= |lines|
      invariant ScanLines(Scan(chapters, current), lines[i..]) == scanned
    {
      ghost var before := Scan(chapters, current);
      chapters, current := ReadLine(chapters, current, lines[i]);
      ScanLinesCons(before, lines, i);
      i := i + 1;
    }
    ScanLinesEnd(Scan(chapters, current), lines);
    if Strip(current) != [] {
      chapters := chapters + [Strip(current)];
    }
  }

  /** The body of the line loop (lines 135-145): the line is matched against
      the four patterns in order; a match closes the chapter being read and
      opens a new one with that line, any other line is appended to it. */
  method ReadLine(chapters: seq<string>, current: string, line: string)
    returns (chapters': seq<string>, current': string)
    ensures Scan(chapters', current') == Step(Scan(chapters, current), line)
  {
    chapters', current' := chapters, current;
    var isChapterStart := false;
    var p := 0;
    while p < |Patterns|
      invariant 0 <= p <= |Patterns|
      invariant !MatchesBefore(line, p)
      invariant chapters' == chapters && current' == current && !isChapterStart
    {
      if Search(Patterns[p], line) {
        StepAtStart(Scan(chapters, current), line, p);
        if Strip(current') != [] {
          chapters' := chapters' + [Strip(current')];
        }
        current' := line + " ";
        isChapterStart := true;
        break;
      }
      p := p + 1;
    }
    if !isChapterStart {
      StepElsewhere(Scan(chapters, current), line);
      current' := current' + line + " ";
    }
  }

  /** The fallback loop of lines 151-156: for `i` in
      `range(0, len(words), 1000)`, the section `Section {i//1000+1}: ` followed
      by `' '.join(words[i:i+1000])`. */
  method ChunkSections(words: seq<string>) returns (sections: seq<string>)
    ensures sections == Sections(words)
  {
    sections := [];
    var start := 0;
    while start < |words|
      invariant start == 1000 * |sections|
      invariant |sections| <= |Sections(words)|
      invariant sections == Sections(words)[..|sections|]
    {
      var chunk := JoinSpace(words[start..Min(start + 1000, |words|)]);
      SectionStep(words, |sections|, start);
      PrefixStep(Sections(words), sections, "Section " + NatToString(start / 1000 + 1) + ": " + chunk);
      sections := sections + ["Section " + NatToString(start / 1000 + 1) + ": " + chunk];
      start := start + 1000;
    }
    ChunkCount(words, |sections|);
    assert sections == Sections(words)[..|Sections(words)|];
  }

  // ---------------------------------------------------------------------------
  // Lemmas: the pattern loop

  lemma MatchedStarts(line: string, p: nat)
    requires p < |Patterns| && Search(Patterns[p], line)
    ensures IsChapterStart(line)
  {
    MatchesBeforeIff(line, |Patterns|);
  }

  /** A line one of the patterns matches opens a new chapter. */
  lemma StepAtStart(st: Scan, line: string, p: nat)
    requires p < |Patterns| && Search(Patterns[p], line)
    ensures Step(st, line) == Scan(Flush(st.chapters, st.current), line + " ")
  {
    MatchedStarts(line, p);
  }

  /** A line none of the patterns matches is appended to the current chapter. */
  lemma StepElsewhere(st: Scan, line: string)
    requires !MatchesBefore(line, |Patterns|)
    ensures Step(st, line) == Scan(st.chapters, st.current + line + " ")
  {
  }

  // ---------------------------------------------------------------------------
  // Lemmas: the scan and the grouping agree

  lemma {:induction false} CountStartsAppend(a: seq<string>, b: seq<string>)
    ensures CountStarts(a + b) == CountStarts(a) + CountStarts(b)
  {
    if a == [] {
      assert a + b == b;
    } else {
      assert (a + b)[1..] == a[1..] + b;
      CountStartsAppend(a[1..], b);
    }
  }

  lemma {:induction false} CountStartsNone(ls: seq<string>)
    requires forall k :: 0 <= k < |ls| ==> !IsChapterStart(ls[k])
    ensures CountStarts(ls) == 0
  {
    if ls != [] {
      CountStartsNone(ls[1..]);
    }
  }

  /** There are as many chapters as start lines, the first begins with its
      own stripped start line, and none is blank or has whitespace at an end. */
  lemma {:induction false} ChaptersFromShape(lines: seq<string>, i: nat)
    requires i < |lines| && IsChapterStart(lines[i])
    ensures var r := ChaptersFrom(lines, i);
      && |r| == CountStarts(lines[i..])
      && r != [] && IsPrefix(Strip(lines[i]), r[0])
      && forall c | c in r :: IsChapterText(c)
    decreases |lines| - i
  {
    var j := NextStart(lines, i + 1);
    CountStartsStep(lines, i, j);
    OpenedChapter(lines, i, j);
    if j < |lines| {
      ChaptersFromShape(lines, j);
      ChaptersFromCons(lines, i);
    } else {
      assert lines[j..] == [];
    }
  }

  /** Counting from a start line: it, then none until the next start line. */
  lemma CountStartsStep(lines: seq<string>, i: nat, j: nat)
    requires i < |lines| && IsChapterStart(lines[i])
    requires j == NextStart(lines, i + 1)
    ensures CountStarts(lines[i..]) == 1 + CountStarts(lines[j..])
  {
    CountStartsUpTo(lines, i, j, |lines|);
    SuffixSlice(lines, i);
    SuffixSlice(lines, j);
  }

  lemma SuffixSlice<T>(s: seq<T>, i: nat)
    requires i <= |s|
    ensures s[i..] == s[i..|s|]
  {
  }

  /** The run of lines opened by a start line: its joined text begins with that line. */
  lemma JoinedFrom(lines: seq<string>, i: nat, j: nat)
    requires i < j <= |lines|
    ensures Joined(lines[i..j]) == lines[i] + " " + Joined(lines[i + 1..j])
  {
    assert lines[i..j][1..] == lines[i + 1..j];
  }

  /** The chapter a start line opens is non-blank, stripped, and begins with the stripped line. */
  lemma OpenedChapter(lines: seq<string>, i: nat, j: nat)
    requires i < j <= |lines| && IsChapterStart(lines[i])
    ensures var c := Strip(Joined(lines[i..j]));
      IsPrefix(Strip(lines[i]), c) && IsChapterText(c)
  {
    JoinedFrom(lines, i, j);
    ChapterStartNotBlank(lines[i]);
    StripOpened(lines[i], Joined(lines[i + 1..j]));
  }

  /** A non-blank line followed by a space and more text strips to a chapter
      text that begins with the stripped line. */
  lemma StripOpened(line: string, rest: string)
    requires !IsBlank(line)
    ensures var c := Strip(line + " " + rest);
      IsPrefix(Strip(line), c) && IsChapterText(c)
  {
    var tail := " " + rest;
    AppendAssoc(line, " ", rest);
    StripPrefix(line, tail);
    BlankAppend(line, tail);
  }

  /** Reading lines `i..` from any state: whatever the scan holds is closed
      together with the lines up to the next start line, and from there on
      the chapters are those of ChaptersFrom. */
  lemma {:induction false} ScanFrom(lines: seq<string>, i: nat, chapters: seq<string>, current: string)
    requires i <= |lines|
    ensures var st := ScanLines(Scan(chapters, current), lines[i..]);
      var j := NextStart(lines, i);
      Flush(st.chapters, st.current)
        == Flush(chapters, current + Joined(lines[i..j])) + (if j < |lines| then ChaptersFrom(lines, j) else [])
    decreases |lines| - i
  {
    if i == |lines| {
      ScanFromEnd(lines, chapters, current);
    } else {
      var line := lines[i];
      ScanLinesCons(Scan(chapters, current), lines, i);
      if IsChapterStart(line) {
        ScanFrom(lines, i + 1, Flush(chapters, current), line + " ");
        ScanFromStart(lines, i, chapters, current);
      } else {
        ScanFrom(lines, i + 1, chapters, current + line + " ");
        var j' := NextStart(lines, i + 1);
        JoinedFrom(lines, i, j');
        Regroup(current, line, Joined(lines[i + 1..j']));
      }
    }
  }

  lemma ScanFromEnd(lines: seq<string>, chapters: seq<string>, current: string)
    ensures var st := ScanLines(Scan(chapters, current), lines[|lines|..]);
      Flush(st.chapters, st.current) == Flush(chapters, current + Joined(lines[|lines|..|lines|])) + []
  {
    assert lines[|lines|..] == [] && lines[|lines|..|lines|] == [];
    assert current + [] == current;
  }

  lemma ScanLinesEnd(st: Scan, lines: seq<string>)
    ensures ScanLines(st, lines[|lines|..]) == st
  {
    assert lines[|lines|..] == [];
  }

  lemma ScanLinesCons(st: Scan, lines: seq<string>, i: nat)
    requires i < |lines|
    ensures ScanLines(st, lines[i..]) == ScanLines(Step(st, lines[i]), lines[i + 1..])
  {
    assert lines[i..][0] == lines[i] && lines[i..][1..] == lines[i + 1..];
  }

  lemma EmptyRun(lines: seq<string>, i: nat, current: string)
    requires i <= |lines|
    ensures current + Joined(lines[i..i]) == current
  {
    assert lines[i..i] == [];
    assert current + [] == current;
  }

  /** The step of ScanFrom at a start line. */
  lemma ScanFromStart(lines: seq<string>, i: nat, chapters: seq<string>, current: string)
    requires i < |lines| && IsChapterStart(lines[i])
    requires var j' := NextStart(lines, i + 1);
      var st := ScanLines(Scan(Flush(chapters, current), lines[i] + " "), lines[i + 1..]);
      Flush(st.chapters, st.current)
        == Flush(Flush(chapters, current), lines[i] + " " + Joined(lines[i + 1..j']))
           + (if j' < |lines| then ChaptersFrom(lines, j') else [])
    requires ScanLines(Scan(chapters, current), lines[i..])
      == ScanLines(Scan(Flush(chapters, current), lines[i] + " "), lines[i + 1..])
    ensures var st := ScanLines(Scan(chapters, current), lines[i..]);
      Flush(st.chapters, st.current)
        == Flush(chapters, current + Joined(lines[i..i])) + ChaptersFrom(lines, i)
  {
    var j' := NextStart(lines, i + 1);
    JoinedFrom(lines, i, j');
    OpenedChapter(lines, i, j');
    ChaptersFromSplit(lines, i);
    EmptyRun(lines, i, current);
    var rest := if j' < |lines| then ChaptersFrom(lines, j') else [];
    AppendAssoc(Flush(chapters, current), [Strip(Joined(lines[i..j']))], rest);
  }

  lemma Regroup(current: string, line: string, rest: string)
    ensures current + line + " " + rest == current + (line + " " + rest)
  {
  }

  lemma AppendAssoc<T>(a: seq<T>, b: seq<T>, c: seq<T>)
    ensures a + b + c == a + (b + c)
  {
  }

  /** The scan and the grouping describe the same chapters. */
  lemma DetectMatchesReference(lines: seq<string>)
    ensures DetectChapters(lines) == ReferenceChapters(lines)
  {
    ScanFrom(lines, 0, [], "");
    var f := NextStart(lines, 0);
    LeadFlush(lines[0..f], lines[..f]);
  }

  /** Closing the text before the first start line from the empty state. */
  lemma LeadFlush(a: seq<string>, b: seq<string>)
    requires a == b
    ensures Flush([], "" + Joined(a)) == if IsBlank(Joined(b)) then [] else [Strip(Joined(b))]
  {
    assert "" + Joined(a) == Joined(b);
  }

  // ---------------------------------------------------------------------------
  // Lemmas: what the detected chapters are

  lemma {:induction false} JoinedBlank(ls: seq<string>)
    ensures IsBlank(Joined(ls)) <==> forall k :: 0 <= k < |ls| ==> IsBlank(ls[k])
  {
    if ls != [] {
      JoinedBlank(ls[1..]);
      BlankAppend(ls[0], " " + Joined(ls[1..]));
      BlankAppend(" ", Joined(ls[1..]));
      assert ls[0] + " " + Joined(ls[1..]) == ls[0] + (" " + Joined(ls[1..]));
      if forall k :: 0 <= k < |ls| ==> IsBlank(ls[k]) {
        assert forall k :: 0 <= k < |ls[1..]| ==> IsBlank(ls[1..][k]) by {
          forall k | 0 <= k < |ls[1..]| ensures IsBlank(ls[1..][k]) { assert ls[1..][k] == ls[k + 1]; }
        }
      }
      if forall k :: 0 <= k < |ls[1..]| ==> IsBlank(ls[1..][k]) {
        forall k | 1 <= k < |ls| ensures IsBlank(ls[k]) { assert ls[k] == ls[1..][k - 1]; }
      }
    }
  }

  /** The reference chapters are the lead part followed by ChaptersFrom. */
  lemma ReferenceParts(lines: seq<string>)
    ensures var f := NextStart(lines, 0);
      var lead := Joined(lines[..f]);
      var leadPart := if IsBlank(lead) then [] else [Strip(lead)];
      var rest := if f < |lines| then ChaptersFrom(lines, f) else [];
      DetectChapters(lines) == leadPart + rest
  {
    DetectMatchesReference(lines);
  }

  /** A stripped non-blank text is chapter text. */
  lemma StrippedChapterText(s: string)
    requires !IsBlank(s)
    ensures IsChapterText(Strip(s))
  {
  }

  /** Chapter text is exactly what `strip()` leaves of a non-blank text. */
  lemma ChapterTextIsStripped(c: string)
    ensures IsChapterText(c) <==> c == Strip(c) && !IsBlank(c)
  {
    if IsChapterText(c) {
      StripPadded([], c, []);
      assert [] + c + [] == c;
    }
    if c == Strip(c) && !IsBlank(c) {
      assert c != [];
    }
  }

  /** Every detected chapter is non-empty and has no whitespace at either
      end, so `strip()` leaves it unchanged: a blank accumulator is never
      appended. */
  lemma DetectedChaptersStripped(lines: seq<string>)
    ensures forall c | c in DetectChapters(lines) :: IsChapterText(c)
  {
    ReferenceParts(lines);
    var f := NextStart(lines, 0);
    var lead := Joined(lines[..f]);
    if !IsBlank(lead) {
      StrippedChapterText(lead);
    }
    if f < |lines| {
      ChaptersFromShape(lines, f);
    }
  }

  /** The lines before the first start line are all blank exactly when
      their joined text is. */
  lemma LeadBlank(lines: seq<string>, f: nat)
    requires f <= |lines|
    ensures IsBlank(Joined(lines[..f])) <==> forall k :: 0 <= k < f ==> IsBlank(lines[k])
  {
    JoinedBlank(lines[..f]);
    assert forall k :: 0 <= k < f ==> lines[..f][k] == lines[k];
  }

  /** No start line precedes the first one. */
  lemma CountStartsFromFirst(lines: seq<string>, f: nat, b: nat)
    requires f == NextStart(lines, 0) && f <= b <= |lines|
    ensures CountStarts(lines[..b]) == CountStarts(lines[f..b])
  {
    assert lines[..b] == lines[..f] + lines[f..b];
    CountStartsAppend(lines[..f], lines[f..b]);
    CountStartsNone(lines[..f]);
  }

  /** How many chapters the scan finds: one per chapter-start line, plus one
      when some line before the first start line is not blank. */
  lemma DetectedCount(lines: seq<string>)
    ensures var f := NextStart(lines, 0);
      |DetectChapters(lines)| == CountStarts(lines) + (if exists k :: 0 <= k < f && !IsBlank(lines[k]) then 1 else 0)
  {
    ReferenceParts(lines);
    var f := NextStart(lines, 0);
    LeadBlank(lines, f);
    CountStartsFromFirst(lines, f, |lines|);
    assert lines[..|lines|] == lines;
    if f < |lines| {
      ChaptersFromShape(lines, f);
    } else {
      assert lines[f..|lines|] == [];
    }
  }

  /** Position `CountStarts(lines[i..b])` of ChaptersFrom(lines, i) is the
      chapter opened by the start line `b`. */
  lemma {:induction false} ChaptersFromAt(lines: seq<string>, i: nat, b: nat)
    requires i <= b < |lines| && IsChapterStart(lines[i]) && IsChapterStart(lines[b])
    ensures CountStarts(lines[i..b]) < |ChaptersFrom(lines, i)|
    ensures ChaptersFrom(lines, i)[CountStarts(lines[i..b])] == Strip(Joined(lines[b..NextStart(lines, b + 1)]))
    decreases b - i
  {
    if b > i {
      var j := NextStart(lines, i + 1);
      NextStartAtMost(lines, i + 1, b);
      ChaptersFromAt(lines, j, b);
      ChaptersFromNext(lines, i, j, b, Strip(Joined(lines[b..NextStart(lines, b + 1)])));
    }
  }

  /** The step of ChaptersFromAt: moving from one start line to the next
      moves one position along the chapters. */
  lemma ChaptersFromNext(lines: seq<string>, i: nat, j: nat, b: nat, x: string)
    requires i < j <= b < |lines| && IsChapterStart(lines[i]) && IsChapterStart(lines[j])
    requires j == NextStart(lines, i + 1)
    requires CountStarts(lines[j..b]) < |ChaptersFrom(lines, j)|
    requires ChaptersFrom(lines, j)[CountStarts(lines[j..b])] == x
    ensures CountStarts(lines[i..b]) < |ChaptersFrom(lines, i)|
    ensures ChaptersFrom(lines, i)[CountStarts(lines[i..b])] == x
  {
    CountStartsUpTo(lines, i, j, b);
    ChaptersFromCons(lines, i);
    TailIndex(ChaptersFrom(lines, i), ChaptersFrom(lines, j), CountStarts(lines[j..b]));
  }

  /** The next start line is no later than any start line after `i`. */
  lemma NextStartAtMost(lines: seq<string>, i: nat, b: nat)
    requires i <= b < |lines| && IsChapterStart(lines[b])
    ensures NextStart(lines, i) <= b
  {
  }

  lemma CountStartsUpTo(lines: seq<string>, i: nat, j: nat, b: nat)
    requires i < j <= b <= |lines| && IsChapterStart(lines[i])
    requires j == NextStart(lines, i + 1)
    ensures CountStarts(lines[i..b]) == 1 + CountStarts(lines[j..b])
  {
    var mid, rest := lines[i + 1..j], lines[j..b];
    SliceThree(lines, i, j, b);
    CountStartsNone(mid);
    CountStartsAppend(mid, rest);
    CountStartsCons(lines[i], mid + rest);
  }

  lemma CountStartsCons(x: string, s: seq<string>)
    ensures CountStarts([x] + s) == (if IsChapterStart(x) then 1 else 0) + CountStarts(s)
  {
    assert ([x] + s)[1..] == s;
  }

  lemma ChaptersFromCons(lines: seq<string>, i: nat)
    requires i < |lines| && IsChapterStart(lines[i])
    requires NextStart(lines, i + 1) < |lines|
    ensures var j := NextStart(lines, i + 1);
      |ChaptersFrom(lines, i)| == 1 + |ChaptersFrom(lines, j)| && ChaptersFrom(lines, i)[1..] == ChaptersFrom(lines, j)
  {
  }

  lemma SliceThree<T>(s: seq<T>, i: nat, j: nat, b: nat)
    requires i < j <= b <= |s|
    ensures s[i..b] == [s[i]] + (s[i + 1..j] + s[j..b])
  {
  }

  lemma TailIndex<T>(r: seq<T>, t: seq<T>, m: nat)
    requires r != [] && r[1..] == t && m < |t|
    ensures 1 + m < |r| && r[1 + m] == t[m]
  {
  }

  lemma IndexAppend<T>(a: seq<T>, b: seq<T>, m: nat)
    requires m < |b|
    ensures (a + b)[|a| + m] == b[m]
  {
  }

  /** The chapter a start line opens: in the result it comes after the
      non-blank lead (if any) and after the chapters of the earlier start
      lines, it consists of that line and the lines up to the next start
      line, and it begins with the stripped start line. */
  lemma ChapterOfStartLine(lines: seq<string>, b: nat)
    requires b < |lines| && IsChapterStart(lines[b])
    ensures var f := NextStart(lines, 0);
      var lead := if IsBlank(Joined(lines[..f])) then 0 else 1;
      var m := lead + CountStarts(lines[..b]);
      var r := DetectChapters(lines);
      m < |r| && r[m] == Strip(Joined(lines[b..NextStart(lines, b + 1)])) && IsPrefix(Strip(lines[b]), r[m])
  {
    ReferenceParts(lines);
    var f := NextStart(lines, 0);
    assert f <= b;
    var lead := Joined(lines[..f]);
    var leadPart := if IsBlank(lead) then [] else [Strip(lead)];
    ChaptersFromAt(lines, f, b);
    CountStartsFromFirst(lines, f, b);
    IndexAppend(leadPart, ChaptersFrom(lines, f), CountStarts(lines[f..b]));
    OpenedChapter(lines, b, NextStart(lines, b + 1));
  }

  /** When some line before the first start line is not blank, the first
      chapter is the stripped text of all those lines. */
  lemma LeadChapter(lines: seq<string>)
    ensures var f := NextStart(lines, 0);
      !IsBlank(Joined(lines[..f])) ==>
        DetectChapters(lines) != [] && DetectChapters(lines)[0] == Strip(Joined(lines[..f]))
  {
    ReferenceParts(lines);
  }

  // ---------------------------------------------------------------------------
  // Lemmas: no word is lost or reordered by the scan

  lemma {:induction false} WordsJoined(ls: seq<string>)
    ensures Words(Joined(ls)) == FlatWords(ls)
  {
    if ls != [] {
      var rest := Joined(ls[1..]);
      assert ls[0] + " " + rest == ls[0] + (" " + rest);
      WordsAppend(ls[0], " " + rest);
      assert " " + rest == [' '] + rest;
      WordsBlankPrefix([' '], rest);
      WordsJoined(ls[1..]);
    }
  }

  /** The words of one opened chapter are those of its lines. */
  lemma ChapterWords(ls: seq<string>)
    ensures FlatWords([Strip(Joined(ls))]) == FlatWords(ls)
  {
    assert FlatWords([Strip(Joined(ls))]) == Words(Strip(Joined(ls))) + FlatWords([]);
    WordsStrip(Joined(ls));
    WordsJoined(ls);
  }

  lemma {:induction false} FlatWordsChaptersFrom(lines: seq<string>, i: nat)
    requires i < |lines| && IsChapterStart(lines[i])
    ensures FlatWords(ChaptersFrom(lines, i)) == FlatWords(lines[i..])
    decreases |lines| - i
  {
    var j := NextStart(lines, i + 1);
    var rest := if j < |lines| then ChaptersFrom(lines, j) else [];
    ChaptersFromSplit(lines, i);
    FlatWordsAppend([Strip(Joined(lines[i..j]))], rest);
    ChapterWords(lines[i..j]);
    if j < |lines| {
      FlatWordsChaptersFrom(lines, j);
    } else {
      assert lines[j..] == [];
    }
    SliceTwo(lines, i, j);
    FlatWordsAppend(lines[i..j], lines[j..]);
  }

  lemma ChaptersFromSplit(lines: seq<string>, i: nat)
    requires i < |lines| && IsChapterStart(lines[i])
    ensures var j := NextStart(lines, i + 1);
      ChaptersFrom(lines, i) == [Strip(Joined(lines[i..j]))] + (if j < |lines| then ChaptersFrom(lines, j) else [])
  {
  }

  lemma SliceTwo<T>(s: seq<T>, i: nat, j: nat)
    requires i <= j <= |s|
    ensures s[i..] == s[i..j] + s[j..]
  {
  }

  /** The words of the detected chapters, in order, are the words of the lines. */
  lemma DetectedWords(lines: seq<string>)
    ensures FlatWords(DetectChapters(lines)) == FlatWords(lines)
  {
    ReferenceParts(lines);
    var f := NextStart(lines, 0);
    var lead := Joined(lines[..f]);
    var leadPart := if IsBlank(lead) then [] else [Strip(lead)];
    var rest := if f < |lines| then ChaptersFrom(lines, f) else [];
    FlatWordsAppend(leadPart, rest);
    LeadWords(lines[..f]);
    if f < |lines| {
      FlatWordsChaptersFrom(lines, f);
    } else {
      assert lines[f..] == [];
    }
    SliceTwo(lines, 0, f);
    FlatWordsAppend(lines[..f], lines[f..]);
  }

  /** The lead part holds the words of the lines before the first start line. */
  lemma LeadWords(ls: seq<string>)
    ensures var lead := Joined(ls);
      FlatWords(if IsBlank(lead) then [] else [Strip(lead)]) == FlatWords(ls)
  {
    var lead := Joined(ls);
    WordsJoined(ls);
    if IsBlank(lead) {
      WordsBlankPrefix(lead, []);
      assert lead + [] == lead;
    } else {
      ChapterWords(ls);
    }
  }

  /** Splitting the text into lines and then into chapters loses no word and
      reorders none: the chapters' words, in order, are `text.split()`. */
  lemma DetectedWordsOfText(text: string)
    ensures FlatWords(DetectChapters(SplitOn(text, '\n'))) == Words(text)
  {
    var lines := SplitOn(text, '\n');
    DetectedWords(lines);
    WordsJoinWith(lines, '\n');
  }

  // ---------------------------------------------------------------------------
  // Lemmas: the sections

  /** Chunk `k` is `words[1000k : 1000(k+1)]`, clamped at the end. */
  lemma {:induction false} ChunkAt(words: seq<string>, k: nat)
    requires k < |Chunks(words)|
    ensures 1000 * k < |words|
    ensures Chunks(words)[k] == words[1000 * k..Min(1000 * (k + 1), |words|)]
  {
    var n := Min(1000, |words|);
    ChunksCons(words);
    if k == 0 {
      assert Chunks(words)[0] == words[..n];
      assert words[1000 * 0..Min(1000 * (0 + 1), |words|)] == words[0..n];
    } else {
      var rest := words[n..];
      assert Chunks(words)[k] == Chunks(rest)[k - 1];
      ChunkAt(rest, k - 1);
      assert n == 1000;
      SliceOfSlice(words, n, 1000 * (k - 1), Min(1000 * k, |words| - n));
      assert n + 1000 * (k - 1) == 1000 * k;
      assert n + Min(1000 * k, |words| - n) == Min(1000 * (k + 1), |words|);
    }
  }

  /** There are ceil(n/1000) chunks, all of 1000 words except the last,
      which holds 1 to 1000, and together they are exactly `words`, in order. */
  lemma {:induction false} ChunksShape(words: seq<string>)
    ensures var cs := Chunks(words);
      && |cs| == (|words| + 999) / 1000
      && (forall k :: 0 <= k < |cs| - 1 ==> |cs[k]| == 1000)
      && (cs != [] ==> 1 <= |cs[|cs| - 1]| <= 1000)
      && Concat(cs) == words
    decreases |words|
  {
    if words != [] {
      var n := Min(1000, |words|);
      var rest := words[n..];
      ChunksShape(rest);
      ChunksCons(words);
      var cs := Chunks(words);
      assert cs[1..] == Chunks(rest);
      assert Concat(cs) == words[..n] + Concat(Chunks(rest));
      assert words == words[..n] + rest;
    }
  }

  lemma ChunksCons(words: seq<string>)
    requires words != []
    ensures var n := Min(1000, |words|);
      Chunks(words) == [words[..n]] + Chunks(words[n..])
  {
  }

  lemma SliceOfSlice<T>(s: seq<T>, n: nat, a: nat, b: nat)
    requires n <= |s| && a <= b <= |s| - n
    ensures s[n..][a..b] == s[n + a..n + b]
  {
  }

  /** A word followed by whitespace and more text splits into the word and
      the words of the text. */
  lemma WordThenSpace(w: string, t: string)
    requires IsWord(w)
    ensures Words(w + (" " + t)) == [w] + Words(t)
  {
    WordsAppend(w, " " + t);
    WordsOfWord(w);
    WordsBlankPrefix(" ", t);
  }

  lemma LabelRegroup(n: string, t: string)
    ensures "Section " + n + ": " + t == "Section" + (" " + ((n + ":") + (" " + t)))
  {
    assert "Section " == "Section" + " ";
    assert ": " == ":" + " ";
  }

  /** `{n}:` is a single word. */
  lemma NumberWord(n: nat)
    ensures IsWord(NatToString(n) + ":")
  {
    var s := NatToString(n) + ":";
    forall i | 0 <= i < |s| ensures !IsSpace(s[i]) {
      if i < |NatToString(n)| {
        assert IsDigit(s[i]);
      }
    }
  }

  lemma SectionWord()
    ensures IsWord("Section")
  {
  }

  /** There is a chunk `c` exactly when `words` holds more than `1000 c` words. */
  lemma {:induction false} ChunkCount(words: seq<string>, c: nat)
    ensures c < |Chunks(words)| <==> 1000 * c < |words|
    decreases |words|
  {
    if words != [] && c > 0 {
      ChunksCons(words);
      ChunkCount(words[Min(1000, |words|)..], c - 1);
    }
  }

  /** The section the fallback loop builds when it reaches word `start`. */
  lemma SectionStep(words: seq<string>, c: nat, start: nat)
    requires start == 1000 * c && start < |words|
    ensures c < |Sections(words)|
    ensures Sections(words)[c]
      == "Section " + NatToString(start / 1000 + 1) + ": " + JoinSpace(words[start..Min(start + 1000, |words|)])
  {
    ChunkCount(words, c);
    ChunkAt(words, c);
    assert start / 1000 == c;
  }

  lemma PrefixStep<T>(s: seq<T>, xs: seq<T>, x: T)
    requires |xs| < |s| && xs == s[..|xs|] && x == s[|xs|]
    ensures xs + [x] == s[..|xs| + 1]
  {
  }

  /** A section label adds the two words `Section` and `{k+1}:` in front of
      the words of what follows it. */
  lemma LabelWords(k: nat, t: string)
    ensures Words(SectionLabel(k) + t) == ["Section", NatToString(k + 1) + ":"] + Words(t)
  {
    var d := NatToString(k + 1) + ":";
    NumberWord(k + 1);
    SectionWord();
    LabelRegroup(NatToString(k + 1), t);
    WordThenSpace(d, t);
    WordThenSpace("Section", d + (" " + t));
  }

  lemma AllWordsSlice(words: seq<string>, a: nat, b: nat)
    requires AllWords(words) && a <= b <= |words|
    ensures AllWords(words[a..b])
  {
    assert forall m :: 0 <= m < b - a ==> words[a..b][m] == words[a + m];
  }

  /** Section `k` is `Section {k+1}: ` followed by chunk `k` joined with
      single spaces; its words are the two label words and then exactly that
      chunk. */
  lemma SectionAt(words: seq<string>, k: nat)
    requires AllWords(words) && k < |Sections(words)|
    ensures Sections(words)[k] == SectionLabel(k) + JoinSpace(Chunks(words)[k])
    ensures Words(Sections(words)[k]) == ["Section", NatToString(k + 1) + ":"] + Chunks(words)[k]
  {
    ChunkAt(words, k);
    var chunk := Chunks(words)[k];
    AllWordsSlice(words, 1000 * k, Min(1000 * (k + 1), |words|));
    WordsJoinSpace(chunk);
    LabelWords(k, JoinSpace(chunk));
  }

  /** The sections: ceil(n/1000) of them; section `k` is the label and chunk
      `k` of `words`; the chunks hold 1000 words each except the last, and
      together they are exactly `words`, in order. */
  lemma SectionsShape(words: seq<string>)
    requires AllWords(words)
    ensures var r := Sections(words);
      var cs := Chunks(words);
      && |r| == |cs| == (|words| + 999) / 1000
      && (forall k :: 0 <= k < |r| ==>
            r[k] == SectionLabel(k) + JoinSpace(cs[k]) &&
            Words(r[k]) == ["Section", NatToString(k + 1) + ":"] + cs[k])
      && (forall k :: 0 <= k < |cs| - 1 ==> |cs[k]| == 1000)
      && (cs != [] ==> 1 <= |cs[|cs| - 1]| <= 1000)
      && Concat(cs) == words
  {
    ChunksShape(words);
    forall k | 0 <= k < |Sections(words)|
      ensures Sections(words)[k] == SectionLabel(k) + JoinSpace(Chunks(words)[k])
      ensures Words(Sections(words)[k]) == ["Section", NatToString(k + 1) + ":"] + Chunks(words)[k]
    {
      SectionAt(words, k);
    }
  }

  // ---------------------------------------------------------------------------
  // Lemmas: the whole function

  /** The result is empty exactly when the text holds no non-whitespace
      character; otherwise it has at least one element. */
  lemma ChaptersEmptyIffBlank(text: string)
    ensures Chapters(text) == [] <==> IsBlank(text)
  {
    var lines := SplitOn(text, '\n');
    var detected := DetectChapters(lines);
    if |detected| > 1 {
      DetectedWordsOfText(text);
      DetectedChaptersStripped(lines);
      assert detected[0] in detected;
      assert Words(detected[0]) != [];
      assert FlatWords(detected) == Words(detected[0]) + FlatWords(detected[1..]);
    } else {
      var words := Words(text);
      assert |Chunks(words)| == 0 <==> words == [];
    }
  }

  /** When the scan finds at least two chapters they are the result, and
      their words in order are `text.split()`; when it finds at most one the
      result is the sections of `text.split()`. */
  lemma ChaptersCases(text: string)
    ensures var detected := DetectChapters(SplitOn(text, '\n'));
      && (|detected| >= 2 ==> Chapters(text) == detected && FlatWords(Chapters(text)) == Words(text))
      && (|detected| <= 1 ==> Chapters(text) == Sections(Words(text)))
  {
    DetectedWordsOfText(text);
  }

  /** A text without line feeds is one line: the scan finds at most one
      chapter, so the result is always the fallback sections. */
  lemma SingleLineFallsBack(text: string)
    requires '\n' !in text
    ensures |DetectChapters(SplitOn(text, '\n'))| <= 1
    ensures Chapters(text) == Sections(Words(text))
  {
    var lines := SplitOn(text, '\n');
    assert lines == [text];
    DetectedCount(lines);
    assert CountStarts(lines) == CountStarts([text][1..]) + (if IsChapterStart(text) then 1 else 0);
    var f := NextStart(lines, 0);
    if IsChapterStart(text) {
      assert f == 0;
    }
  }
}
