/** The ingestion loop of book_search_engine.py:161-189: every book is
    downloaded and cleaned, the text is split into chapters, and every chapter
    longer than 100 characters becomes one search document. What the server
    answered is a parameter (each book comes with the outcome of its
    download); the upload to the search engine and the progress printing are
    not modelled. */
module Ingestion {
  import opened PyStr
  import opened GutenbergText
  import opened ChapterSplitter

  /** One entry of `books_to_download`. */
  datatype Book = Book(id: int, title: string, author: string, genre: string)

  /** The document dictionary of lines 177-186. */
  datatype Document = Document(
    title: string,
    author: string,
    content: string,
    genre: string,
    bookId: string,
    chapter: string,
    publicationYear: int,
    wordCount: nat)

  /** What `download_gutenberg_book` obtained: nothing (a failed request, a
      status other than 200, an exception), or the body of the response. */
  datatype Download = Failed | Fetched(body: string)

  /** A book together with the outcome of its download. */
  datatype Fetch = Fetch(book: Book, download: Download)

  // ---------------------------------------------------------------------------
  // One document

  /** Line 184: `1800 + id % 200`. Python's `%` by a positive number is never
      negative, and neither is Dafny's, so the year lies in 1800..1999 for
      every id, negative ones included, and ids 0 to 199 map one to one. */
  function PublicationYear(id: int): (year: int)
    ensures 1800 <= year <= 1999
    ensures 0 <= id < 200 ==> year - 1800 == id
  {
    1800 + id % 200
  }

  /** The number a label `"Chapter <digits>"` carries, 0 for any other text. */
  function LabelNumber(heading: string): nat
  {
    if |heading| > 8 && forall k :: 8 <= k < |heading| ==> IsDigit(heading[k]) then
      var digits := heading[8..];
      assert forall k :: 0 <= k < |digits| ==> digits[k] == heading[8 + k];
      DecimalValue(digits)
    else 0
  }

  /** Line 183: `f"Chapter {i+1}"`. The number read back from the label is the
      position of the chapter, counted from 1. */
  function ChapterLabel(i: nat): (heading: string)
    ensures |heading| > 8 && heading[..8] == "Chapter "
    ensures LabelNumber(heading) == i + 1
  {
    var n := NatToString(i + 1);
    NatToStringValue(i + 1);
    var heading := "Chapter " + n;
    assert heading[8..] == n;
    heading
  }

  /** The document built for the chapter at position `i` of a book. */
  function ChapterDocument(book: Book, i: nat, chapter: string): Document
  {
    Document(book.title, book.author, chapter, book.genre, IntToString(book.id),
      ChapterLabel(i), PublicationYear(book.id), |Words(chapter)|)
  }

  /** Line 176: a chapter is indexed only when it is longer than 100 characters. */
  predicate Kept(chapter: string)
  {
    |chapter| > 100
  }

  /** The documents for the chapters from position `i` on, in order. */
  function DocumentsFrom(book: Book, chapters: seq<string>, i: nat): seq<Document>
    requires i <= |chapters|
    decreases |chapters| - i
  {
    if i == |chapters| then []
    else
      (if Kept(chapters[i]) then [ChapterDocument(book, i, chapters[i])] else [])
        + DocumentsFrom(book, chapters, i + 1)
  }

  /** The documents for all chapters of a book. */
  function Documents(book: Book, chapters: seq<string>): seq<Document>
  {
    DocumentsFrom(book, chapters, 0)
  }

  /** The loop of lines 175-187: `enumerate` the chapters, and append a
      document to `all_documents` for each chapter longer than 100 characters. */
  method AppendDocuments(all: seq<Document>, book: Book, chapters: seq<string>)
    returns (all': seq<Document>)
    ensures all' == all + Documents(book, chapters)
  {
    all' := all;
    var i := 0;
    while i < |chapters|
      invariant 0 <= i <= |chapters|
      invariant all' + DocumentsFrom(book, chapters, i) == all + Documents(book, chapters)
    {
      var chapter := chapters[i];
      if |chapter| > 100 {
        var doc := Document(book.title, book.author, chapter, book.genre, IntToString(book.id),
          "Chapter " + NatToString(i + 1), 1800 + book.id % 200, |Words(chapter)|);
        AppendAssoc(all', [doc], DocumentsFrom(book, chapters, i + 1));
        all' := all' + [doc];
      }
      i := i + 1;
    }
    assert all' + [] == all';
  }

  // ---------------------------------------------------------------------------
  // Which documents a book gives

  /** A document comes from the book exactly for each chapter longer than
      100 characters, and carries that chapter's position before filtering. */
  lemma DocumentsMembership(book: Book, chapters: seq<string>, d: Document)
    ensures d in Documents(book, chapters) <==>
      exists i :: 0 <= i < |chapters| && Kept(chapters[i]) && d == ChapterDocument(book, i, chapters[i])
  {
    DocumentsFromMembership(book, chapters, 0, d);
  }

  lemma {:induction false} DocumentsFromMembership(book: Book, chapters: seq<string>, j: nat, d: Document)
    requires j <= |chapters|
    ensures d in DocumentsFrom(book, chapters, j) <==>
      exists i :: j <= i < |chapters| && Kept(chapters[i]) && d == ChapterDocument(book, i, chapters[i])
    decreases |chapters| - j
  {
    if j < |chapters| {
      DocumentsFromMembership(book, chapters, j + 1, d);
      if d in DocumentsFrom(book, chapters, j) && d !in DocumentsFrom(book, chapters, j + 1) {
        assert Kept(chapters[j]) && d == ChapterDocument(book, j, chapters[j]);
      }
    }
  }

  /** At most one document per chapter, and one for every chapter exactly
      when every chapter is longer than 100 characters. */
  lemma DocumentsCount(book: Book, chapters: seq<string>)
    ensures |Documents(book, chapters)| <= |chapters|
    ensures |Documents(book, chapters)| == |chapters| <==> forall i :: 0 <= i < |chapters| ==> Kept(chapters[i])
  {
    DocumentsFromCount(book, chapters, 0);
  }

  lemma {:induction false} DocumentsFromCount(book: Book, chapters: seq<string>, j: nat)
    requires j <= |chapters|
    ensures |DocumentsFrom(book, chapters, j)| <= |chapters| - j
    ensures |DocumentsFrom(book, chapters, j)| == |chapters| - j <==>
      forall i :: j <= i < |chapters| ==> Kept(chapters[i])
    decreases |chapters| - j
  {
    if j < |chapters| {
      DocumentsFromCount(book, chapters, j + 1);
      DocumentsFromLength(book, chapters, j);
      AllKeptFrom(chapters, j);
    }
  }

  /** Every chapter from `j` on is kept exactly when chapter `j` and every one
      after it are. */
  lemma AllKeptFrom(chapters: seq<string>, j: nat)
    requires j < |chapters|
    ensures (forall i :: j <= i < |chapters| ==> Kept(chapters[i])) <==>
      Kept(chapters[j]) && forall i :: j + 1 <= i < |chapters| ==> Kept(chapters[i])
  {
  }

  lemma DocumentsFromLength(book: Book, chapters: seq<string>, j: nat)
    requires j < |chapters|
    ensures |DocumentsFrom(book, chapters, j)| ==
      (if Kept(chapters[j]) then 1 else 0) + |DocumentsFrom(book, chapters, j + 1)|
  {
  }

  /** The documents keep the order of the chapters: their label numbers are
      positions of chapters, counted from 1, and strictly increase. */
  lemma DocumentsInOrder(book: Book, chapters: seq<string>)
    ensures forall k :: 0 <= k < |Documents(book, chapters)| ==>
      1 <= LabelNumber(Documents(book, chapters)[k].chapter) <= |chapters|
    ensures forall k, l :: 0 <= k < l < |Documents(book, chapters)| ==>
      LabelNumber(Documents(book, chapters)[k].chapter) < LabelNumber(Documents(book, chapters)[l].chapter)
  {
    DocumentsFromInOrder(book, chapters, 0);
  }

  lemma {:induction false} DocumentsFromInOrder(book: Book, chapters: seq<string>, j: nat)
    requires j <= |chapters|
    ensures forall k :: 0 <= k < |DocumentsFrom(book, chapters, j)| ==>
      j < LabelNumber(DocumentsFrom(book, chapters, j)[k].chapter) <= |chapters|
    ensures forall k, l :: 0 <= k < l < |DocumentsFrom(book, chapters, j)| ==>
      LabelNumber(DocumentsFrom(book, chapters, j)[k].chapter) < LabelNumber(DocumentsFrom(book, chapters, j)[l].chapter)
    decreases |chapters| - j
  {
    if j < |chapters| {
      DocumentsFromInOrder(book, chapters, j + 1);
      if Kept(chapters[j]) {
        var head := ChapterDocument(book, j, chapters[j]);
        ConsLabels(head, DocumentsFrom(book, chapters, j + 1), j, |chapters|);
      }
    }
  }

  /** Putting a document numbered `j + 1` in front of documents numbered
      above `j + 1` keeps the numbers increasing. */
  lemma ConsLabels(head: Document, rest: seq<Document>, j: nat, n: nat)
    requires LabelNumber(head.chapter) == j + 1 <= n
    requires forall k :: 0 <= k < |rest| ==> j + 1 < LabelNumber(rest[k].chapter) <= n
    requires forall k, l :: 0 <= k < l < |rest| ==> LabelNumber(rest[k].chapter) < LabelNumber(rest[l].chapter)
    ensures var docs := [head] + rest;
      && (forall k :: 0 <= k < |docs| ==> j < LabelNumber(docs[k].chapter) <= n)
      && (forall k, l :: 0 <= k < l < |docs| ==> LabelNumber(docs[k].chapter) < LabelNumber(docs[l].chapter))
  {
    var docs := [head] + rest;
    assert forall k :: 0 < k < |docs| ==> docs[k] == rest[k - 1];
  }

  /** Because the label uses the position before filtering, labels skip the
      numbers of the chapters that were too short: a short first chapter and
      a long second one give a single document, labelled "Chapter 2". */
  lemma LabelsMaySkip(book: Book, short: string, long: string)
    requires |short| <= 100 < |long|
    ensures Documents(book, [short, long]) == [ChapterDocument(book, 1, long)]
    ensures LabelNumber(Documents(book, [short, long])[0].chapter) == 2
  {
    var chapters := [short, long];
    assert DocumentsFrom(book, chapters, 2) == [];
    assert DocumentsFrom(book, chapters, 1) == [ChapterDocument(book, 1, long)];
  }

  // ---------------------------------------------------------------------------
  // The whole library

  /** Lines 164-187 for one book: a failed download, or one whose cleaned text
      is empty (`if book_text:` is false for `""`), gives no document. */
  function BookDocuments(f: Fetch): seq<Document>
  {
    match f.download
    case Failed => []
    case Fetched(body) =>
      var text := Clean(body);
      if text == [] then [] else Documents(f.book, Chapters(text))
  }

  /** The documents of the books in order, as `all_documents` collects them. */
  function LibraryDocuments(library: seq<Fetch>): seq<Document>
  {
    if library == [] then []
    else LibraryDocuments(library[..|library| - 1]) + BookDocuments(library[|library| - 1])
  }

  /** The loop of lines 161-189 over `books_to_download`. */
  method Ingest(library: seq<Fetch>) returns (all: seq<Document>)
    ensures all == LibraryDocuments(library)
  {
    all := [];
    var b := 0;
    while b < |library|
      invariant 0 <= b <= |library|
      invariant all == LibraryDocuments(library[..b])
    {
      var f := library[b];
      assert library[..b + 1][..b] == library[..b];
      match f.download {
        case Failed =>
        case Fetched(body) =>
          var text := Clean(body);
          if text != [] {
            var chapters := SplitIntoChapters(text);
            all := AppendDocuments(all, f.book, chapters);
          }
      }
      b := b + 1;
    }
    assert library[..b] == library;
  }

  /** What the whole pipeline indexes: cleaned text is one line, so the
      splitter always falls back to 1000-word sections. Every document holds
      a section: it starts with "Section " and counts the two label words and
      1 to 1000 words of the book. */
  lemma {:induction false} IngestedSections(library: seq<Fetch>, d: Document)
    requires d in LibraryDocuments(library)
    ensures IsPrefix("Section ", d.content)
    ensures 3 <= d.wordCount <= 1002
  {
    if library != [] {
      var last := library[|library| - 1];
      if d in LibraryDocuments(library[..|library| - 1]) {
        IngestedSections(library[..|library| - 1], d);
      } else {
        BookSections(last, d);
      }
    }
  }

  lemma BookSections(f: Fetch, d: Document)
    requires d in BookDocuments(f)
    ensures IsPrefix("Section ", d.content)
    ensures 3 <= d.wordCount <= 1002
  {
    var body := f.download.body;
    var text := Clean(body);
    CleanedTextIsOneLine(body);
    SingleLineFallsBack(text);
    var words := Words(text);
    var sections := Sections(words);
    DocumentsMembership(f.book, sections, d);
    var i :| 0 <= i < |sections| && Kept(sections[i]) && d == ChapterDocument(f.book, i, sections[i]);
    SectionShape(words, i);
  }

  /** Section `i` starts with "Section " and splits into the two label words
      and 1 to 1000 words of the text. */
  lemma SectionShape(words: seq<string>, i: nat)
    requires AllWords(words) && i < |Sections(words)|
    ensures IsPrefix("Section ", Sections(words)[i])
    ensures 3 <= |Words(Sections(words)[i])| <= 1002
  {
    SectionAt(words, i);
    ChunkAt(words, i);
    LabelPrefix(i, JoinSpace(Chunks(words)[i]));
  }

  lemma LabelPrefix(i: nat, t: string)
    ensures IsPrefix("Section ", SectionLabel(i) + t)
  {
    var s := SectionLabel(i) + t;
    assert s == "Section " + (NatToString(i + 1) + ": " + t);
  }
}
