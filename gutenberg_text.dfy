/** The cleaning `download_gutenberg_book` applies to a downloaded book
    (book_search_engine.py:102-112): keep the text between the Project
    Gutenberg start and end markers, turn every whitespace run into one space,
    strip. The HTTP request and its status handling are not modelled: the
    downloaded body is a parameter. */
module GutenbergText {
  import opened PyStr

  const StartMarker: string := "*** START OF THE PROJECT GUTENBERG EBOOK"
  const EndMarker: string := "*** END OF THE PROJECT GUTENBERG EBOOK"

  /** `text[start:end]` for indices within the text: empty when `end` comes first. */
  function PySlice(text: string, start: nat, end: nat): string
    requires start <= |text| && end <= |text|
  {
    if start <= end then text[start..end] else []
  }

  /** Lines 105-109: the slice from the first start marker to the first end
      marker when both occur, otherwise the whole text. */
  function Body(text: string): string
  {
    var s := Find(text, StartMarker);
    var e := Find(text, EndMarker);
    if s != -1 && e != -1 then PySlice(text, s, e) else text
  }

  /** `re.sub(r'\s+', ' ', s)`: every maximal run of whitespace becomes a single space. */
  function CollapseWhitespace(s: string): (r: string)
    ensures r == [] <==> s == []
    ensures r != [] ==> (IsSpace(r[0]) <==> IsSpace(s[0]))
    decreases |s|
  {
    if s == [] then []
    else if IsSpace(s[0]) then " " + CollapseWhitespace(TrimStart(s))
    else [s[0]] + CollapseWhitespace(s[1..])
  }

  /** Lines 111-112 after the slice: collapse, then strip. The result is the
      words of the body joined by single spaces, so it splits into the same
      words and holds no line feed and no whitespace at either end or twice in a row. */
  function Clean(text: string): (r: string)
    ensures r == JoinSpace(Words(Body(text)))
    ensures Words(r) == Words(Body(text))
    ensures SingleSpaced(r)
  {
    var body := Body(text);
    CollapseShape(body);
    JoinSpaceSingleSpaced(Words(body));
    StripPadded(LeadSpace(body), JoinSpace(Words(body)), TrailSpace(body));
    WordsJoinSpace(Words(body));
    Strip(CollapseWhitespace(body))
  }

  // ---------------------------------------------------------------------------
  // the markers

  /** The start marker holds no `'*'` after its first three characters. */
  lemma StartMarkerStars(d: int)
    requires 3 <= d < |StartMarker|
    ensures StartMarker[d] != '*'
  {
  }

  /** An end marker never begins inside a start marker: the two cannot overlap. */
  lemma MarkersDisjoint(text: string, s: int, e: int)
    requires OccursAt(text, StartMarker, s) && OccursAt(text, EndMarker, e)
    requires s <= e
    ensures s + |StartMarker| <= e
  {
    EndNotInsideStart(text, s, e);
    EndNotBeforeStartS(text, s, e);
  }

  /** An end marker cannot begin from the fourth character of a start marker
      on: it begins with `'*'`, which the start marker holds only in its first three. */
  lemma EndNotInsideStart(text: string, s: int, e: int)
    requires OccursAt(text, StartMarker, s) && OccursAt(text, EndMarker, e)
    ensures !(s + 3 <= e < s + |StartMarker|)
  {
    if s + 3 <= e < s + |StartMarker| {
      var sm, em := text[s..s + |StartMarker|], text[e..e + |EndMarker|];
      assert text[e] == em[0] == '*';
      assert text[e] == sm[e - s];
      StartMarkerStars(e - s);
      assert false;
    }
  }

  /** An end marker cannot begin at one of the first three characters of a
      start marker: the `'S'` of "START" would fall on its `"* E"`. */
  lemma EndNotBeforeStartS(text: string, s: int, e: int)
    requires OccursAt(text, StartMarker, s) && OccursAt(text, EndMarker, e)
    ensures !(s <= e < s + 3)
  {
    if s <= e < s + 3 {
      var sm, em := text[s..s + |StartMarker|], text[e..e + |EndMarker|];
      assert text[s + 4] == sm[4] == 'S';
      assert text[s + 4] == em[4 - (e - s)];
      EndMarkerHead(4 - (e - s));
      assert false;
    }
  }

  /** Characters 2 to 4 of the end marker, `"* E"`, hold no `'S'`. */
  lemma EndMarkerHead(k: int)
    requires 2 <= k <= 4
    ensures EndMarker[k] != 'S'
  {
  }

  /** What the slice keeps: when both markers occur, the body is empty if the
      end marker comes first, and otherwise starts with the start marker and
      holds no end marker; when either is missing it is the whole text. */
  lemma BodyMarkers(text: string)
    ensures var s, e := Find(text, StartMarker), Find(text, EndMarker);
      && (s == -1 || e == -1 ==> Body(text) == text)
      && (s != -1 && e != -1 && e < s ==> Body(text) == [])
      && (s != -1 && e != -1 && s <= e ==>
            IsPrefix(StartMarker, Body(text)) && forall i :: !OccursAt(Body(text), EndMarker, i))
  {
    var s, e := Find(text, StartMarker), Find(text, EndMarker);
    if s != -1 && e != -1 && s <= e {
      MarkersDisjoint(text, s, e);
      SliceKeepsMarker(text, s, e);
    }
  }

  lemma SliceKeepsMarker(text: string, s: int, e: int)
    requires OccursAt(text, StartMarker, s) && e == Find(text, EndMarker)
    requires s + |StartMarker| <= e
    ensures IsPrefix(StartMarker, text[s..e])
    ensures forall i :: !OccursAt(text[s..e], EndMarker, i)
  {
    var b := text[s..e];
    assert b[..|StartMarker|] == text[s..s + |StartMarker|];
    forall i | OccursAt(b, EndMarker, i) ensures false {
      assert text[s + i..s + i + |EndMarker|] == b[i..i + |EndMarker|];
      assert OccursAt(text, EndMarker, s + i);
    }
  }

  // ---------------------------------------------------------------------------
  // collapsing whitespace

  /** The single space that a leading whitespace run collapses to, if any. */
  function LeadSpace(s: string): string
  {
    if s != [] && IsSpace(s[0]) then " " else ""
  }

  /** The single space that a trailing whitespace run after the last word collapses to, if any. */
  function TrailSpace(s: string): string
  {
    if !IsBlank(s) && IsSpace(s[|s| - 1]) then " " else ""
  }

  /** A run of non-whitespace characters is copied unchanged. */
  lemma {:induction false} CollapseWordPrefix(w: string, rest: string)
    requires forall i :: 0 <= i < |w| ==> !IsSpace(w[i])
    ensures CollapseWhitespace(w + rest) == w + CollapseWhitespace(rest)
    decreases |w|
  {
    if w == [] {
      assert w + rest == rest;
    } else {
      assert (w + rest)[1..] == w[1..] + rest;
      CollapseWordPrefix(w[1..], rest);
      assert w == [w[0]] + w[1..];
    }
  }

  /** The collapsed text is the words joined by single spaces, with one space
      in front when the text started with whitespace and one behind when it
      ended with whitespace after a word. */
  lemma {:induction false} CollapseShape(s: string)
    ensures CollapseWhitespace(s) == LeadSpace(s) + JoinSpace(Words(s)) + TrailSpace(s)
    decreases |s|
  {
    if s == [] {
    } else if IsSpace(s[0]) {
      var t := TrimStart(s);
      if t != [] {
        CollapseShape(t);
      }
      CollapseShapeSpace(s);
    } else {
      CollapseShape(s[WordLen(s)..]);
      CollapseShapeWord(s);
    }
  }

  /** The step of CollapseShape for a text that starts with whitespace. */
  lemma CollapseShapeSpace(s: string)
    requires s != [] && IsSpace(s[0])
    requires var t := TrimStart(s);
      t != [] ==> CollapseWhitespace(t) == LeadSpace(t) + JoinSpace(Words(t)) + TrailSpace(t)
    ensures CollapseWhitespace(s) == LeadSpace(s) + JoinSpace(Words(s)) + TrailSpace(s)
  {
    var t := TrimStart(s);
    SpaceRunFacts(s);
    var c, ct := CollapseWhitespace(s), CollapseWhitespace(t);
    if t == [] {
      assert c == " " + [];
    } else {
      PrependSpace(c, ct, JoinSpace(Words(t)), TrailSpace(t));
    }
  }

  /** The step of CollapseShape for a text that starts with a word. */
  lemma CollapseShapeWord(s: string)
    requires s != [] && !IsSpace(s[0])
    requires var rest := s[WordLen(s)..];
      CollapseWhitespace(rest) == LeadSpace(rest) + JoinSpace(Words(rest)) + TrailSpace(rest)
    ensures CollapseWhitespace(s) == LeadSpace(s) + JoinSpace(Words(s)) + TrailSpace(s)
  {
    var n := WordLen(s);
    var w, rest := s[..n], s[n..];
    WordRunFacts(s);
    var c, cr := CollapseWhitespace(s), CollapseWhitespace(rest);
    if rest == [] {
      assert Words(s) == [w];
      assert JoinSpace([w]) == w;
      Pad(c, w, "", "");
    } else if Words(rest) == [] {
      assert Words(s) == [w];
      assert JoinSpace([w]) == w;
      Pad(c, w, " ", " ");
    } else {
      var jr := JoinSpace(Words(rest));
      JoinSpaceCons(w, Words(rest));
      PrependWord(c, w, cr, jr, TrailSpace(rest), JoinSpace(Words(s)));
    }
  }

  // Three regroupings of concatenations, kept apart from the string functions.

  lemma PrependSpace(c: string, ct: string, j: string, t: string)
    requires c == " " + ct && ct == "" + j + t
    ensures c == " " + j + t
  {
  }

  lemma PrependWord(c: string, w: string, cr: string, jr: string, t: string, j: string)
    requires c == w + cr && cr == " " + jr + t && j == w + " " + jr
    ensures c == "" + j + t
  {
  }

  lemma Pad(c: string, w: string, tail: string, t: string)
    requires c == w + tail && tail == t
    ensures c == "" + w + t
  {
  }

  /** How a text that starts with whitespace relates to the text after that run. */
  lemma SpaceRunFacts(s: string)
    requires s != [] && IsSpace(s[0])
    ensures var t := TrimStart(s);
      && CollapseWhitespace(s) == " " + CollapseWhitespace(t)
      && LeadSpace(s) == " "
      && Words(s) == Words(t)
      && (t == [] ==> CollapseWhitespace(t) == [] && Words(t) == [] && TrailSpace(s) == "")
      && (t != [] ==> LeadSpace(t) == "" && TrailSpace(s) == TrailSpace(t))
  {
    TrimStartWords(s);
    if TrimStart(s) != [] {
      TrimStartTail(s);
    }
  }

  lemma TrimStartWords(s: string)
    ensures Words(TrimStart(s)) == Words(s)
    ensures TrimStart(s) == [] <==> IsBlank(s)
  {
    var t := TrimStart(s);
    TrimStartFacts(s);
    WordsBlankPrefix(s[..|s| - |t|], t);
  }

  /** What is left after the leading whitespace ends where the text does. */
  lemma TrimStartTail(s: string)
    requires TrimStart(s) != []
    ensures LeadSpace(TrimStart(s)) == ""
    ensures TrailSpace(s) == TrailSpace(TrimStart(s))
  {
    TrimStartFacts(s);
    TrailSpaceSuffix(s, TrimStart(s));
  }

  /** A non-blank suffix ends where the text does, so both collapse to the same trailing space. */
  lemma TrailSpaceSuffix(s: string, t: string)
    requires t != [] && !IsSpace(t[0]) && |t| <= |s| && t == s[|s| - |t|..]
    ensures TrailSpace(s) == TrailSpace(t)
  {
    assert s[|s| - 1] == t[|t| - 1];
    assert s[|s| - |t|] == t[0];
  }

  /** How a text that starts with a word relates to the text after that word. */
  lemma WordRunFacts(s: string)
    requires s != [] && !IsSpace(s[0])
    ensures var n := WordLen(s); var w, rest := s[..n], s[n..];
      && CollapseWhitespace(s) == w + CollapseWhitespace(rest)
      && Words(s) == [w] + Words(rest)
      && LeadSpace(s) == ""
      && (rest == [] ==> CollapseWhitespace(rest) == [] && Words(rest) == [] && TrailSpace(s) == "")
      && (rest != [] ==> LeadSpace(rest) == " ")
      && (rest != [] && Words(rest) == [] ==> CollapseWhitespace(rest) == " " && TrailSpace(s) == " ")
      && (rest != [] && Words(rest) != [] ==> TrailSpace(s) == TrailSpace(rest))
  {
    var n := WordLen(s);
    var w, rest := s[..n], s[n..];
    assert s == w + rest;
    CollapseWordPrefix(w, rest);
    if rest == [] {
      TrailSpaceOfWordEnd(s);
    } else {
      TrailSpaceAfterWord(s, n);
      if Words(rest) == [] {
        BlankCollapse(rest);
      }
    }
  }

  lemma TrailSpaceOfWordEnd(s: string)
    requires s != [] && !IsSpace(s[|s| - 1])
    ensures TrailSpace(s) == ""
  {
  }

  lemma TrailSpaceAfterWord(s: string, n: nat)
    requires 0 < n < |s| && !IsSpace(s[0])
    ensures !IsBlank(s)
    ensures IsBlank(s[n..]) ==> TrailSpace(s) == " " || !IsSpace(s[|s| - 1])
    ensures IsBlank(s[n..]) ==> IsSpace(s[|s| - 1])
    ensures !IsBlank(s[n..]) ==> TrailSpace(s) == TrailSpace(s[n..])
  {
    assert s[|s| - 1] == s[n..][|s| - n - 1];
  }

  /** A non-empty blank text collapses to a single space. */
  lemma BlankCollapse(s: string)
    requires s != [] && IsBlank(s)
    ensures CollapseWhitespace(s) == " "
  {
    TrimStartWords(s);
  }

  /** `' '.join([w] + ws)` for a non-empty `ws`. */
  lemma JoinSpaceCons(w: string, ws: seq<string>)
    requires ws != []
    ensures JoinSpace([w] + ws) == w + " " + JoinSpace(ws)
  {
    assert ([w] + ws)[1..] == ws;
  }

  // ---------------------------------------------------------------------------
  // what the splitter receives

  /** Cleaned text has no whitespace at either end, never two whitespace
      characters in a row, and no line feed: it is a single line. */
  lemma CleanedTextIsOneLine(text: string)
    ensures var r := Clean(text);
      && (r == [] || (!IsSpace(r[0]) && !IsSpace(r[|r| - 1])))
      && (forall i :: 0 <= i < |r| - 1 ==> !(IsSpace(r[i]) && IsSpace(r[i + 1])))
      && '\n' !in r
      && SplitOn(r, '\n') == [r]
  {
    var r := Clean(text);
    assert IsSpace('\n');
  }
}
