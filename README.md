# Book search engine ingestion: chapter splitting and cleaning

The repository builds a full-text search index over public-domain books from
Project Gutenberg. For each book it downloads the plain text and cleans it,
splits it into chapters (`split_into_chapters`), and turns every long enough
chapter into a search document. This project models that pipeline in Dafny
and proves its properties. It has three parts:

- **Cleaning** (`download_gutenberg_book`, the steps after the download).
  When both `*** START OF THE PROJECT GUTENBERG EBOOK` and
  `*** END OF THE PROJECT GUTENBERG EBOOK` occur, the text is cut from the
  first start marker up to the first end marker; the cut is empty when the
  end marker comes first. When either marker is missing, the whole text is
  kept. Then every whitespace run becomes one space, and the result is
  stripped.
- **Chapter splitting** (`split_into_chapters`). The text is scanned line by
  line. A line that matches one of four case-insensitive "chapter + number or
  word" patterns closes the chapter being read and opens a new one. If the
  scan finds at most one chapter, the splitter falls back to sections of 1000
  words labelled `Section k: …`.
- **Document building** (the main loop). Each chapter longer than 100
  characters becomes a document. Its label `Chapter i+1` uses the index before
  filtering, its year is `1800 + id % 200`, and its word count is the number of
  whitespace tokens.

Files:

- `py_str.dfy` (module `PyStr`) gives the Python string built-ins the code
  relies on: `strip`, `split()`, `split('\n')`, `' '.join`, `find` and `str()`
  of an integer.
- `gutenberg_text.dfy` (module `GutenbergText`) is the cleaning.
- `chapter_patterns.dfy` (module `ChapterPatterns`) is the four regular
  expressions and `re.search`.
- `chapter_splitter.dfy` (module `ChapterSplitter`) is the splitter. It is a
  method with the source's loops (`SplitIntoChapters`, `ScanChapters`,
  `ReadLine`, `ChunkSections`) proved against specification functions. It
  also has an independent description of the detected chapters, which groups
  the lines between chapter-start lines, and a lemma that the two agree.
- `ingestion.dfy` (module `Ingestion`) is the document-building loop and the
  loop over the books. Each book is given together with the outcome of its
  download.

A consequence the model proves (`Ingestion.IngestedSections`): cleaning
removes every line feed, so the splitter sees a single line. That line can
produce at most one detected chapter, so every document the pipeline indexes
is a `Section k: …` chunk and never a detected chapter.

Three behaviours of the code that are easy to miss:

- In `split_into_chapters`, a text with one chapter-start line and non-blank
  text before it yields two detected chapters, so the fallback is not taken.
- The document filter keeps chapters with `len(chapter) > 100`. A chapter of
  exactly 100 characters is dropped.
- `split_into_chapters` returns an empty list for a text made only of
  whitespace: `text.split()` is empty, so the fallback builds no section.

Whitespace is Python's `str.isspace` restricted to ASCII (codes 9-13, 28-31
and 32). The same set is used for `\s` in the regular expressions and for
`str.split()`. Case folding and `\d` are ASCII only.

## Model

| member | source | states |
|---|---|---|
| PyStr.Strip | book_search_engine.py:112 | `strip()` gives the empty string exactly when the input is all whitespace; otherwise the result starts and ends with a non-whitespace character |
| PyStr.StripIdempotent | book_search_engine.py:112 | stripping a stripped string changes nothing |
| PyStr.WordsStrip | book_search_engine.py:112 | stripping does not change the whitespace tokens of a string |
| PyStr.Words | book_search_engine.py:151 | `split()` yields non-empty tokens without whitespace, and no tokens exactly when the string is blank |
| PyStr.WordsJoinSpace | book_search_engine.py:155 | splitting `' '.join(ws)` on whitespace gives back `ws` for any list of whitespace-free, non-empty words |
| PyStr.JoinSpaceSingleSpaced | book_search_engine.py:155 | `' '.join(ws)` of words has only single spaces between non-whitespace characters, and is empty exactly when `ws` is |
| PyStr.SplitOn | book_search_engine.py:133 | `split('\n')` yields at least one part, no part holds a line feed, and joining the parts with line feeds gives back the text |
| PyStr.SplitOnJoinWith | book_search_engine.py:133 | the other round trip: splitting the line-feed join of separator-free parts gives back the parts |
| PyStr.WordsJoinWith | book_search_engine.py:133 | joining parts with a whitespace separator, then `split()`, yields the tokens of the parts in order |
| PyStr.Find | book_search_engine.py:105-106 | `find` returns -1 exactly when the pattern does not occur, otherwise the first index where it occurs |
| PyStr.NatToStringValue | book_search_engine.py:156 | the decimal rendering of `k+1` reads back as `k+1` |
| PyStr.IntToString | book_search_engine.py:182 | `str(id)` is non-empty and starts with `-` exactly when the id is negative |
| GutenbergText.BodyMarkers | book_search_engine.py:105-109 | the text is unchanged when a marker is missing; the slice is empty when the end marker comes first; otherwise it starts with the start marker and holds no end marker |
| GutenbergText.MarkersDisjoint | book_search_engine.py:105-109 | an end marker at or after a start marker begins after the whole start marker, so the slice keeps all of it |
| GutenbergText.SliceKeepsMarker | book_search_engine.py:109 | the slice from the start marker to the first end marker begins with the start marker and contains no end marker |
| GutenbergText.CollapseWhitespace | book_search_engine.py:111 | `re.sub(r'\s+', ' ', s)` is empty exactly when `s` is, and starts with whitespace exactly when `s` does |
| GutenbergText.CollapseShape | book_search_engine.py:111 | the substitution yields one space for leading whitespace, the tokens joined by single spaces, then one space for trailing whitespace |
| GutenbergText.Clean | book_search_engine.py:105-112 | cleaning yields the tokens of the marked body joined by single spaces: the same tokens, each whitespace character a lone space between two non-whitespace characters |
| GutenbergText.CleanedTextIsOneLine | book_search_engine.py:111-112 | cleaned text has no whitespace at either end, no two whitespace characters in a row and no line feed, so `split('\n')` yields just the text |
| ChapterPatterns.SearchFound | book_search_engine.py:137 | a successful `re.search` has found a start position where the pattern matches |
| ChapterPatterns.SearchFinds | book_search_engine.py:137 | a start position where the pattern matches makes `re.search` succeed |
| ChapterPatterns.MatchesBeforeIff | book_search_engine.py:136-142 | the pattern loop has found a match before pattern `p` exactly when one of the first `p` patterns is found in the line |
| ChapterPatterns.KeywordsFold | book_search_engine.py:137 | under `re.IGNORECASE`, `CHAPTER` and `Chapter` match exactly where `chapter` does |
| ChapterPatterns.MatchHasHeading | book_search_engine.py:123-128 | a match of any of the four patterns is a case-insensitive "chapter", whitespace, then a letter or digit |
| ChapterPatterns.HeadingMatches | book_search_engine.py:123-128 | such a heading is matched by the first pattern when a digit follows, by the third when a letter follows |
| ChapterPatterns.ChapterStartIff | book_search_engine.py:123-142 | a line starts a chapter exactly when it contains, in any case, "chapter", one or more whitespace characters, then a letter or digit, anywhere in the line |
| ChapterPatterns.ChapterStartNotBlank | book_search_engine.py:137 | a chapter-start line is never blank |
| ChapterSplitter.ReadLine | book_search_engine.py:135-145 | one pass of the loop body, with the pattern loop and its `break`, moves the scan state as the specification step does |
| ChapterSplitter.MatchedStarts | book_search_engine.py:137-141 | a pattern found in the line makes it a chapter-start line |
| ChapterSplitter.StepAtStart | book_search_engine.py:137-142 | at a chapter-start line the non-blank accumulated text is closed, stripped, and the new chapter starts as the line plus a space |
| ChapterSplitter.ScanChapters | book_search_engine.py:130-148 | the line scan with its final flush returns exactly the chapters the specification scan detects |
| ChapterSplitter.DetectMatchesReference | book_search_engine.py:130-148 | the detected chapters are: the stripped text before the first chapter-start line when it is not blank, then one chapter per chapter-start line holding it and the lines up to the next one |
| ChapterSplitter.ChapterTextIsStripped | book_search_engine.py:138-139 | a text is non-empty with no whitespace at either end exactly when it is its own strip and not blank |
| ChapterSplitter.DetectedChaptersStripped | book_search_engine.py:147-148 | every detected chapter is non-empty and is its own strip; a blank accumulator is never appended |
| ChapterSplitter.DetectedCount | book_search_engine.py:133-148 | the number of detected chapters is the number of chapter-start lines, plus one when some line before the first of them is not blank |
| ChapterSplitter.ChapterOfStartLine | book_search_engine.py:133-148 | the chapter opened by a start line sits at the position its order gives it, holds the lines up to the next start line, and begins with the stripped start line |
| ChapterSplitter.LeadChapter | book_search_engine.py:133-148 | non-blank text before the first chapter-start line becomes the first chapter |
| ChapterSplitter.DetectedWordsOfText | book_search_engine.py:133-148 | the tokens of the detected chapters, in order, are exactly the tokens of the text: nothing lost, added or reordered |
| ChapterSplitter.ChunkSections | book_search_engine.py:151-156 | the `range` loop builds exactly the labelled sections of the specification |
| ChapterSplitter.ChunkAt | book_search_engine.py:154-155 | chunk `k` is `words[1000k : min(1000(k+1), n)]` |
| ChapterSplitter.ChunkCount | book_search_engine.py:154 | there is a chunk `k` exactly when `1000k < n` |
| ChapterSplitter.SectionAt | book_search_engine.py:155-156 | section `k` is `"Section " + str(k+1) + ": "` and its chunk joined by spaces; its tokens are the two label tokens then the chunk |
| ChapterSplitter.SectionsShape | book_search_engine.py:151-156 | there are ceil(n/1000) sections; all but the last chunk hold 1000 words, the last 1 to 1000; the chunks concatenate back to `text.split()` |
| ChapterSplitter.SplitIntoChapters | book_search_engine.py:122-158 | the method returns what the specification gives, and nothing exactly when the text is blank |
| ChapterSplitter.ChaptersEmptyIffBlank | book_search_engine.py:147-156 | the result is empty exactly when the text has no non-whitespace character |
| ChapterSplitter.ChaptersCases | book_search_engine.py:150-156 | with at least two detected chapters they are the result and keep every token of the text in order; otherwise the result is the sections of `text.split()` |
| ChapterSplitter.SingleLineFallsBack | book_search_engine.py:133-156 | a text without a line feed detects at most one chapter, so the result is always the sections |
| Ingestion.PublicationYear | book_search_engine.py:184 | `1800 + id % 200` lies in 1800..1999 for every id, and ids 0 to 199 map one to one onto those years |
| Ingestion.ChapterLabel | book_search_engine.py:183 | the label is `Chapter ` followed by a number that reads back as `i+1` |
| Ingestion.AppendDocuments | book_search_engine.py:175-187 | the loop appends to the list exactly the documents the specification gives for the book's chapters |
| Ingestion.DocumentsMembership | book_search_engine.py:175-187 | a document is emitted exactly when it is built from the chapter at some index `i` longer than 100 characters, with label `i+1`, the book's fields, the year and the chapter's token count |
| Ingestion.DocumentsCount | book_search_engine.py:176 | a book gives at most one document per chapter, and one per chapter exactly when every chapter is longer than 100 characters |
| Ingestion.DocumentsInOrder | book_search_engine.py:175-183 | label numbers lie between 1 and the number of chapters and strictly increase along the documents |
| Ingestion.LabelsMaySkip | book_search_engine.py:175-183 | a short chapter followed by a long one gives one document, labelled `Chapter 2` |
| Ingestion.Ingest | book_search_engine.py:163-189 | the loop over the books collects exactly the documents of each successful, non-empty download in book order |
| Ingestion.IngestedSections | book_search_engine.py:163-187 | every indexed document is a fallback section: its content starts with `Section ` and its word count is between 3 and 1002 |

## Left out

- The HTTP request, its timeout and status handling, and the exception handler of `download_gutenberg_book` are not modelled. The downloaded body, or the failure, is given with each book.
- The Elasticsearch client, the readiness loop, index creation and mapping, the upload with `es.index`, and every `search_*` function and `show_library_stats` are not modelled. They are external service calls with no local logic.
- Console output is not modelled.
- Unicode whitespace, Unicode digits and Unicode case folding are not modelled. Whitespace, `\d` and `re.IGNORECASE` are taken over ASCII.
- `re.search` is modelled only for the four chapter patterns, not as a general regular-expression engine.
- The unused `title` parameter of `split_into_chapters` is omitted.
- `split_into_chapters` is split into three methods (`ScanChapters`, `ReadLine`, `ChunkSections`) called from `SplitIntoChapters`. The loop structure and the order of operations are the source's.
- PyStr.IntToString: states only that `str(id)` is non-empty and carries a minus sign exactly for negative ids. The digits are stated for non-negative values through `PyStr.NatToStringValue`.
