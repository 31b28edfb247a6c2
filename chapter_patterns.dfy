/** The chapter-heading test of `split_into_chapters`
    (book_search_engine.py:123-142): four regular expressions, each searched
    anywhere in a line with `re.IGNORECASE`. Case folding, `\s` and `\d` are
    taken over ASCII. */
module ChapterPatterns {
  import opened PyStr

  /** The character class that must follow the whitespace: `[IVX\d]` or `[A-Z]`. */
  datatype Follow = RomanOrDigit | Letter

  /** The regular expression `keyword\s+[class]+`. */
  datatype Pattern = Pattern(keyword: string, follow: Follow)

  /** The four patterns, in the order the source tries them. */
  const Patterns: seq<Pattern> := [
    Pattern("CHAPTER", RomanOrDigit),
    Pattern("Chapter", RomanOrDigit),
    Pattern("CHAPTER", Letter),
    Pattern("Chapter", Letter)
  ]

  function Lower(c: char): char
  {
    if 'A' <= c <= 'Z' then (c as int + 32) as char else c
  }

  predicate IsAsciiLetter(c: char)
  {
    'a' <= c <= 'z' || 'A' <= c <= 'Z'
  }

  /** `c` belongs to the class when case is ignored. */
  predicate InClass(c: char, f: Follow)
  {
    match f
    case RomanOrDigit => Lower(c) == 'i' || Lower(c) == 'v' || Lower(c) == 'x' || IsDigit(c)
    case Letter => IsAsciiLetter(c)
  }

  /** `a` and `b` are the same text when case is ignored. */
  predicate EqualIgnoringCase(a: string, b: string)
  {
    |a| == |b| && (a == [] || (Lower(a[0]) == Lower(b[0]) && EqualIgnoringCase(a[1..], b[1..])))
  }

  /** `kw` occurs in `line` at index `i` when case is ignored. */
  predicate KeywordAt(kw: string, line: string, i: nat)
  {
    i + |kw| <= |line| && EqualIgnoringCase(kw, line[i..i + |kw|])
  }

  /** The pattern matches at index `i`: the keyword, the whole whitespace run
      that follows it (at least one character), then a character of the class.
      No class character is whitespace, so a shorter run can never be followed
      by one: the greedy run is the only one that can succeed. */
  predicate MatchAt(p: Pattern, line: string, i: nat)
  {
    KeywordAt(p.keyword, line, i) &&
    var j := i + |p.keyword|;
    var n := SpaceRun(line[j..]);
    n >= 1 && j + n < |line| && InClass(line[j + n], p.follow)
  }

  /** `re.search(p, line, re.IGNORECASE)` finds a match: the pattern is tried
      at each start position from left to right. */
  predicate Search(p: Pattern, line: string)
  {
    SearchFrom(p, line, 0)
  }

  /** The pattern matches at some start position from `i` on. */
  predicate SearchFrom(p: Pattern, line: string, i: nat)
    decreases |line| - i
  {
    i < |line| && (MatchAt(p, line, i) || SearchFrom(p, line, i + 1))
  }

  /** A successful search has found a position where the pattern matches. */
  lemma {:induction false} SearchFound(p: Pattern, line: string, i: nat) returns (k: nat)
    requires SearchFrom(p, line, i)
    ensures i <= k < |line| && MatchAt(p, line, k)
    decreases |line| - i
  {
    if MatchAt(p, line, i) {
      k := i;
    } else {
      k := SearchFound(p, line, i + 1);
    }
  }

  /** A position where the pattern matches is found by the search. */
  lemma {:induction false} SearchFinds(p: Pattern, line: string, i: nat, k: nat)
    requires i <= k < |line| && MatchAt(p, line, k)
    ensures SearchFrom(p, line, i)
    decreases k - i
  {
    if i < k {
      SearchFinds(p, line, i + 1, k);
    }
  }

  /** One of the first `p` patterns is found in the line. */
  predicate MatchesBefore(line: string, p: nat)
    requires p <= |Patterns|
  {
    p > 0 && (MatchesBefore(line, p - 1) || Search(Patterns[p - 1], line))
  }

  /** A line opens a new chapter when any of the four patterns is found in it. */
  predicate IsChapterStart(line: string)
  {
    MatchesBefore(line, |Patterns|)
  }

  lemma {:induction false} MatchesBeforeIff(line: string, p: nat)
    requires p <= |Patterns|
    ensures MatchesBefore(line, p) <==> exists k :: 0 <= k < p && Search(Patterns[k], line)
  {
    if p > 0 {
      MatchesBeforeIff(line, p - 1);
    }
  }

  /** The line contains, in any case, "chapter", then one or more whitespace
      characters, then an ASCII letter or digit, anywhere in the line. */
  predicate HasChapterHeading(line: string)
  {
    exists i, j :: 0 <= i && i + 7 < j < |line| && KeywordAt("chapter", line, i)
      && (forall k :: i + 7 <= k < j ==> IsSpace(line[k]))
      && (IsAsciiLetter(line[j]) || IsDigit(line[j]))
  }

  /** Both spellings of the keyword fold to "chapter" character by character. */
  lemma KeywordLetters(k: int)
    requires 0 <= k < 7
    ensures Lower("CHAPTER"[k]) == Lower("chapter"[k]) == Lower("Chapter"[k])
  {
    if k == 0 {
    } else if k == 1 {
    } else if k == 2 {
    } else if k == 3 {
    } else if k == 4 {
    } else if k == 5 {
    } else {
    }
  }

  /** Both spellings of the keyword mean "chapter" once case is ignored. */
  lemma KeywordsFold(line: string, i: nat)
    ensures KeywordAt("CHAPTER", line, i) <==> KeywordAt("chapter", line, i)
    ensures KeywordAt("Chapter", line, i) <==> KeywordAt("chapter", line, i)
  {
    forall k | 0 <= k < 7 ensures Lower("CHAPTER"[k]) == Lower("chapter"[k]) == Lower("Chapter"[k]) {
      KeywordLetters(k);
    }
    if i + 7 <= |line| {
      var w := line[i..i + 7];
      SameFolding("CHAPTER", "chapter", w);
      SameFolding("Chapter", "chapter", w);
    }
  }

  /** Two texts that fold letter by letter to the same text match the same
      texts when case is ignored. */
  lemma {:induction false} SameFolding(a: string, c: string, w: string)
    requires |a| == |c| && forall k :: 0 <= k < |a| ==> Lower(a[k]) == Lower(c[k])
    ensures EqualIgnoringCase(a, w) <==> EqualIgnoringCase(c, w)
  {
    if a != [] && |w| == |a| {
      assert Lower(a[0]) == Lower(c[0]);
      SameFolding(a[1..], c[1..], w[1..]);
    }
  }

  /** The four patterns together accept exactly the lines with a chapter
      heading; which of them matches first makes no difference. */
  lemma ChapterStartIff(line: string)
    ensures IsChapterStart(line) <==> HasChapterHeading(line)
  {
    MatchesBeforeIff(line, |Patterns|);
    if IsChapterStart(line) {
      var k :| 0 <= k < |Patterns| && Search(Patterns[k], line);
      var i := SearchFound(Patterns[k], line, 0);
      MatchHasHeading(Patterns[k], line, i);
    }
    if HasChapterHeading(line) {
      var i, j :| 0 <= i && i + 7 < j < |line| && KeywordAt("chapter", line, i)
        && (forall k :: i + 7 <= k < j ==> IsSpace(line[k]))
        && (IsAsciiLetter(line[j]) || IsDigit(line[j]));
      var k := HeadingMatches(line, i, j);
      SearchFinds(Patterns[k], line, 0, i);
    }
  }

  /** A match of one of the four patterns is a chapter heading. */
  lemma MatchHasHeading(p: Pattern, line: string, i: nat)
    requires p in Patterns && MatchAt(p, line, i)
    ensures HasChapterHeading(line)
  {
    KeywordsFold(line, i);
    assert |p.keyword| == 7;
    var rest := line[i + 7..];
    var n := SpaceRun(rest);
    var j := i + 7 + n;
    forall m | i + 7 <= m < j ensures IsSpace(line[m]) {
      assert line[m] == rest[m - i - 7];
    }
    assert line[j] == rest[n];
    assert IsAsciiLetter(line[j]) || IsDigit(line[j]);
  }

  /** A chapter heading is matched by the first pattern (a digit follows)
      or by the third (a letter follows). */
  lemma HeadingMatches(line: string, i: nat, j: nat) returns (k: nat)
    requires i + 7 < j < |line| && KeywordAt("chapter", line, i)
    requires forall m :: i + 7 <= m < j ==> IsSpace(line[m])
    requires IsAsciiLetter(line[j]) || IsDigit(line[j])
    ensures k < |Patterns| && MatchAt(Patterns[k], line, i)
    ensures IsDigit(line[j]) ==> k == 0
    ensures !IsDigit(line[j]) ==> k == 2
  {
    KeywordsFold(line, i);
    var rest := line[i + 7..];
    forall m | 0 <= m < j - i - 7 ensures IsSpace(rest[m]) {
      assert rest[m] == line[i + 7 + m];
    }
    assert rest[j - i - 7] == line[j];
    SpaceRunExact(rest, j - i - 7);
    k := if IsDigit(line[j]) then 0 else 2;
  }

  /** The whitespace run ends at the first character that is not whitespace. */
  lemma {:induction false} SpaceRunExact(s: string, m: nat)
    requires m < |s| && !IsSpace(s[m])
    requires forall k :: 0 <= k < m ==> IsSpace(s[k])
    ensures SpaceRun(s) == m
  {
    if m > 0 {
      SpaceRunExact(s[1..], m - 1);
    }
  }

  /** A chapter-start line is never blank: it holds the keyword. */
  lemma ChapterStartNotBlank(line: string)
    requires IsChapterStart(line)
    ensures !IsBlank(line)
  {
    ChapterStartIff(line);
    var i, j :| 0 <= i && i + 7 < j < |line| && KeywordAt("chapter", line, i)
      && (forall k :: i + 7 <= k < j ==> IsSpace(line[k]))
      && (IsAsciiLetter(line[j]) || IsDigit(line[j]));
    assert !IsSpace(line[j]);
  }
}
