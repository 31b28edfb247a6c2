/** The Python string built-ins the book pipeline relies on, over `string`
    (a sequence of `char`): whitespace, `str.strip()`, `str.split()`,
    `str.split(sep)`, `sep.join(...)`, `str.find(...)` and `str(int)`.
    Whitespace is Python's `str.isspace()` restricted to ASCII. */
module PyStr {

  /** Python whitespace among the ASCII characters: tab, line feed, vertical tab,
      form feed, carriage return (9-13), the separators 0x1C-0x1F and the space. */
  predicate IsSpace(c: char)
  {
    var k := c as int;
    k == 32 || 9 <= k <= 13 || 28 <= k <= 31
  }

  /** A string with no non-whitespace character; `s.strip()` is falsy exactly then. */
  predicate IsBlank(s: string)
  {
    forall i :: 0 <= i < |s| ==> IsSpace(s[i])
  }

  /** One token of `str.split()`: non-empty and free of whitespace. */
  predicate IsWord(w: string)
  {
    w != [] && forall i :: 0 <= i < |w| ==> !IsSpace(w[i])
  }

  predicate AllWords(ws: seq<string>)
  {
    forall k :: 0 <= k < |ws| ==> IsWord(ws[k])
  }

  predicate IsPrefix(p: string, s: string)
  {
    |p| <= |s| && s[..|p|] == p
  }

  function Min(a: int, b: int): int
  {
    if a <= b then a else b
  }

  // ---------------------------------------------------------------------------
  // strip

  /** Length of the run of whitespace characters that starts `s`. */
  function SpaceRun(s: string): (n: nat)
    ensures n <= |s|
    ensures forall i :: 0 <= i < n ==> IsSpace(s[i])
    ensures n == |s| || !IsSpace(s[n])
  {
    if s == [] || !IsSpace(s[0]) then 0 else 1 + SpaceRun(s[1..])
  }

  /** Length of the run of whitespace characters that ends `s`. */
  function TrailRun(s: string): (n: nat)
    ensures n <= |s|
    ensures forall i :: |s| - n <= i < |s| ==> IsSpace(s[i])
    ensures n == |s| || !IsSpace(s[|s| - 1 - n])
    decreases |s|
  {
    if s == [] || !IsSpace(s[|s| - 1]) then 0
    else
      var t := s[..|s| - 1];
      var m := TrailRun(t);
      assert forall i :: |t| - m <= i < |t| ==> s[i] == t[i];
      1 + m
  }

  /** `s.lstrip()`: `s` without its leading whitespace. */
  function TrimStart(s: string): string
  {
    s[SpaceRun(s)..]
  }

  /** `s.rstrip()`: `s` without its trailing whitespace. */
  function TrimEnd(s: string): string
  {
    s[..|s| - TrailRun(s)]
  }

  /** A concatenation is blank exactly when both parts are. */
  lemma BlankAppend(a: string, b: string)
    ensures IsBlank(a + b) <==> IsBlank(a) && IsBlank(b)
  {
    if IsBlank(a) && IsBlank(b) {
      forall i | 0 <= i < |a + b| ensures IsSpace((a + b)[i]) {
        if i >= |a| { assert (a + b)[i] == b[i - |a|]; }
      }
    }
    if IsBlank(a + b) {
      forall i | 0 <= i < |a| ensures IsSpace(a[i]) { assert a[i] == (a + b)[i]; }
      forall i | 0 <= i < |b| ensures IsSpace(b[i]) { assert b[i] == (a + b)[|a| + i]; }
    }
  }

  /** `s` is its leading whitespace followed by `s.lstrip()`, which is empty
      or starts with a non-whitespace character. */
  lemma TrimStartFacts(s: string)
    ensures var t := TrimStart(s);
      && |t| <= |s| && t == s[|s| - |t|..]
      && IsBlank(s[..|s| - |t|])
      && s == s[..|s| - |t|] + t
      && (t == [] || !IsSpace(t[0]))
      && (IsBlank(t) <==> IsBlank(s))
  {
    var n := SpaceRun(s);
    assert forall i :: 0 <= i < n ==> s[..n][i] == s[i];
    assert s == s[..n] + s[n..];
    BlankAppend(s[..n], s[n..]);
  }

  /** `s` is `s.rstrip()` followed by its trailing whitespace; `s.rstrip()`
      is empty exactly when `s` is blank, and otherwise ends with a
      non-whitespace character and keeps the first character. */
  lemma TrimEndFacts(s: string)
    ensures var r := TrimEnd(s);
      && |r| <= |s| && r == s[..|r|]
      && IsBlank(s[|r|..])
      && s == r + s[|r|..]
      && (r == [] <==> IsBlank(s))
      && (r != [] ==> !IsSpace(r[|r| - 1]) && r[0] == s[0])
  {
    var k := |s| - TrailRun(s);
    assert forall i :: 0 <= i < |s| - k ==> s[k..][i] == s[k + i];
    assert s == s[..k] + s[k..];
    BlankAppend(s[..k], s[k..]);
  }

  /** `s.strip()`: empty exactly for blank strings, otherwise bounded by
      non-whitespace characters at both ends. */
  function Strip(s: string): (r: string)
    ensures r == [] <==> IsBlank(s)
    ensures r == [] || (!IsSpace(r[0]) && !IsSpace(r[|r| - 1]))
  {
    TrimStartFacts(s);
    TrimEndFacts(TrimStart(s));
    TrimEnd(TrimStart(s))
  }

  /** A string with no whitespace at either end is left alone by `strip()`. */
  lemma StripUnpadded(c: string)
    requires c == [] || (!IsSpace(c[0]) && !IsSpace(c[|c| - 1]))
    ensures Strip(c) == c
  {
    assert SpaceRun(c) == 0;
    assert c[0..] == c;
    assert TrailRun(c) == 0;
    assert c[..|c|] == c;
  }

  /** How the leading whitespace run of a concatenation is made up. */
  lemma {:induction false} SpaceRunAppend(a: string, b: string)
    ensures SpaceRun(a + b) == if IsBlank(a) then |a| + SpaceRun(b) else SpaceRun(a)
    decreases |a|
  {
    if a == [] {
      assert a + b == b;
    } else if IsSpace(a[0]) {
      assert (a + b)[1..] == a[1..] + b;
      SpaceRunAppend(a[1..], b);
      assert IsBlank(a) <==> IsBlank(a[1..]) by {
        assert forall i :: 0 <= i < |a| - 1 ==> a[1..][i] == a[i + 1];
      }
    } else {
      assert !IsBlank(a);
    }
  }

  /** How the trailing whitespace run of a concatenation is made up. */
  lemma {:induction false} TrailRunAppend(a: string, b: string)
    ensures TrailRun(a + b) == if IsBlank(b) then |b| + TrailRun(a) else TrailRun(b)
    decreases |b|
  {
    if b == [] {
      assert a + b == a;
    } else if IsSpace(b[|b| - 1]) {
      var b' := b[..|b| - 1];
      assert (a + b)[..|a + b| - 1] == a + b';
      TrailRunAppend(a, b');
      assert IsBlank(b) <==> IsBlank(b') by {
        assert forall i :: 0 <= i < |b'| ==> b'[i] == b[i];
      }
    } else {
      assert !IsBlank(b);
    }
  }

  lemma {:induction false} TrimStartAppend(a: string, b: string)
    ensures TrimStart(a + b) == if IsBlank(a) then TrimStart(b) else TrimStart(a) + b
  {
    SpaceRunAppend(a, b);
    if IsBlank(a) {
      SliceAppendRight(a, b, SpaceRun(b));
    } else {
      SpaceRunBlank(a);
      SliceAppend(a, b, SpaceRun(a));
    }
  }

  lemma {:induction false} TrimEndAppend(a: string, b: string)
    ensures TrimEnd(a + b) == if IsBlank(b) then TrimEnd(a) else a + TrimEnd(b)
  {
    TrailRunAppend(a, b);
    if IsBlank(b) {
      TrimEndBlankTail(a, b);
    } else {
      TrimEndWordTail(a, b);
    }
  }

  lemma TrimEndBlankTail(a: string, b: string)
    requires TrailRun(a + b) == |b| + TrailRun(a)
    ensures TrimEnd(a + b) == TrimEnd(a)
  {
    SliceAppend(a, b, |a| - TrailRun(a));
  }

  lemma TrimEndWordTail(a: string, b: string)
    requires !IsBlank(b) && TrailRun(a + b) == TrailRun(b)
    ensures TrimEnd(a + b) == a + TrimEnd(b)
  {
    TrailRunBlank(b);
    SliceAppendRight(a, b, |b| - TrailRun(b));
  }

  /** The leading whitespace run covers the whole string exactly when it is blank. */
  lemma SpaceRunBlank(s: string)
    ensures SpaceRun(s) == |s| <==> IsBlank(s)
  {
    if SpaceRun(s) < |s| {
      assert !IsSpace(s[SpaceRun(s)]);
    }
  }

  /** The trailing whitespace run covers the whole string exactly when it is blank. */
  lemma TrailRunBlank(s: string)
    ensures TrailRun(s) == |s| <==> IsBlank(s)
  {
    if TrailRun(s) < |s| {
      assert !IsSpace(s[|s| - 1 - TrailRun(s)]);
    }
  }

  /** Stripping twice is stripping once. */
  lemma StripIdempotent(s: string)
    ensures Strip(Strip(s)) == Strip(s)
  {
    StripUnpadded(Strip(s));
  }

  /** Strip of a string that has whitespace padding around a core whose ends are
      not whitespace is that core. */
  lemma StripPadded(x: string, core: string, y: string)
    requires IsBlank(x) && IsBlank(y)
    requires core == [] || (!IsSpace(core[0]) && !IsSpace(core[|core| - 1]))
    ensures Strip(x + core + y) == core
  {
    assert x + core + y == x + (core + y);
    TrimStartAppend(x, core + y);
    if core == [] {
      assert core + y == y;
      TrimStartFacts(y);
      TrimEndFacts([]);
    } else {
      StripUnpadded(core);
      TrimStartAppend(core, y);
      TrimEndAppend(core, y);
    }
  }

  /** When `a` is not blank, `a.strip()` is a prefix of `(a + b).strip()`:
      the text that follows cannot change how `a` starts. */
  lemma StripPrefix(a: string, b: string)
    requires !IsBlank(a)
    ensures IsPrefix(Strip(a), Strip(a + b))
  {
    var t := TrimStart(a);
    TrimStartAppend(a, b);
    assert Strip(a + b) == TrimEnd(t + b);
    TrimEndAppend(t, b);
    if !IsBlank(b) {
      TrimEndPrefix(t, TrimEnd(b));
    }
  }

  lemma TrimEndPrefix(t: string, u: string)
    ensures IsPrefix(TrimEnd(t), t + u)
  {
    var r := TrimEnd(t);
    assert (t + u)[..|r|] == t[..|r|];
  }

  // ---------------------------------------------------------------------------
  // split() on whitespace runs

  /** Length of the run of non-whitespace characters that starts `s`. */
  function WordLen(s: string): (n: nat)
    ensures n <= |s|
    ensures forall i :: 0 <= i < n ==> !IsSpace(s[i])
    ensures n == |s| || IsSpace(s[n])
  {
    if s == [] || IsSpace(s[0]) then 0 else 1 + WordLen(s[1..])
  }

  /** `s.split()`: the maximal runs of non-whitespace characters, in order. */
  function Words(s: string): (ws: seq<string>)
    ensures AllWords(ws)
    ensures ws == [] <==> IsBlank(s)
    decreases |s|
  {
    if s == [] then []
    else if IsSpace(s[0]) then
      var ws := Words(s[1..]);
      assert IsBlank(s) <==> IsBlank(s[1..]);
      ws
    else
      var n := WordLen(s);
      [s[..n]] + Words(s[n..])
  }

  lemma {:induction false} WordLenAppend(a: string, b: string)
    requires b == [] || IsSpace(b[0])
    ensures WordLen(a + b) == WordLen(a)
    decreases |a|
  {
    if a == [] {
      assert a + b == b;
    } else if !IsSpace(a[0]) {
      assert (a + b)[1..] == a[1..] + b;
      WordLenAppend(a[1..], b);
    }
  }

  /** Words do not run across a whitespace character: splitting a concatenation
      whose second part starts with whitespace splits each part on its own. */
  lemma {:induction false} WordsAppend(a: string, b: string)
    requires b == [] || IsSpace(b[0])
    ensures Words(a + b) == Words(a) + Words(b)
    decreases |a|
  {
    if a == [] {
      assert a + b == b;
    } else if IsSpace(a[0]) {
      WordsAppendSpace(a, b);
      WordsAppend(a[1..], b);
    } else {
      var n := WordLen(a);
      WordsAppendWord(a, b);
      WordsAppend(a[n..], b);
      ConsAssoc(a[..n], Words(a[n..]), Words(b));
    }
  }

  /** Leading whitespace of `a` is skipped in `a + b` as in `a`. */
  lemma WordsAppendSpace(a: string, b: string)
    requires a != [] && IsSpace(a[0])
    ensures Words(a + b) == Words(a[1..] + b)
    ensures Words(a) == Words(a[1..])
  {
    SliceAppend(a, b, 1);
  }

  /** The first word of `a + b`, when `a` starts with one, lies inside `a`. */
  lemma WordsAppendWord(a: string, b: string)
    requires a != [] && !IsSpace(a[0])
    requires b == [] || IsSpace(b[0])
    ensures Words(a + b) == [a[..WordLen(a)]] + Words(a[WordLen(a)..] + b)
    ensures Words(a) == [a[..WordLen(a)]] + Words(a[WordLen(a)..])
  {
    WordLenAppend(a, b);
    SliceAppend(a, b, WordLen(a));
  }

  lemma ConsAssoc<T>(x: T, p: seq<T>, q: seq<T>)
    ensures [x] + (p + q) == ([x] + p) + q
  {
  }

  /** Cutting `a + b` inside `b`. */
  lemma SliceAppendRight(a: string, b: string, j: nat)
    requires j <= |b|
    ensures (a + b)[|a| + j..] == b[j..] && (a + b)[..|a| + j] == a + b[..j]
  {
  }

  /** Cutting `a + b` inside `a`. */
  lemma SliceAppend(a: string, b: string, n: nat)
    requires n <= |a|
    ensures (a + b)[..n] == a[..n] && (a + b)[n..] == a[n..] + b
  {
  }

  /** Whitespace in front of a string adds no words. */
  lemma {:induction false} WordsBlankPrefix(a: string, b: string)
    requires IsBlank(a)
    ensures Words(a + b) == Words(b)
    decreases |a|
  {
    if a == [] {
      assert a + b == b;
    } else {
      assert (a + b)[1..] == a[1..] + b;
      WordsBlankPrefix(a[1..], b);
    }
  }

  /** `s.strip().split() == s.split()`. */
  lemma WordsStrip(s: string)
    ensures Words(Strip(s)) == Words(s)
  {
    var t := TrimStart(s);
    TrimStartFacts(s);
    WordsBlankPrefix(s[..|s| - |t|], t);
    WordsTrimEnd(t);
  }

  lemma WordsTrimEnd(t: string)
    ensures Words(TrimEnd(t)) == Words(t)
  {
    var r := TrimEnd(t);
    var tail := t[|r|..];
    TrimEndFacts(t);
    if tail != [] {
      WordsAppend(r, tail);
    } else {
      assert t == r;
    }
  }

  /** A single token splits to itself. */
  lemma {:induction false} WordsOfWord(w: string)
    requires IsWord(w)
    ensures Words(w) == [w]
  {
    assert WordLen(w) == |w|;
    assert w[..|w|] == w;
    assert w[|w|..] == [];
  }

  // ---------------------------------------------------------------------------
  // ' '.join(...)

  /** `' '.join(ws)`. */
  function JoinSpace(ws: seq<string>): string
  {
    if ws == [] then ""
    else if |ws| == 1 then ws[0]
    else ws[0] + " " + JoinSpace(ws[1..])
  }

  /** `' '.join` of tokens is split back into the same tokens. */
  lemma {:induction false} WordsJoinSpace(ws: seq<string>)
    requires AllWords(ws)
    ensures Words(JoinSpace(ws)) == ws
  {
    if ws == [] {
    } else if |ws| == 1 {
      WordsOfWord(ws[0]);
    } else {
      WordsJoinSpace(ws[1..]);
      WordsWordSpace(ws[0], JoinSpace(ws[1..]));
      assert ws == [ws[0]] + ws[1..];
    }
  }

  /** A token followed by a space and more text splits into that token and the
      words of the rest. */
  lemma WordsWordSpace(w: string, rest: string)
    requires IsWord(w)
    ensures Words(w + " " + rest) == [w] + Words(rest)
  {
    var t := [' '] + rest;
    assert w + " " + rest == w + t;
    WordsAppend(w, t);
    WordsOfWord(w);
    assert t[1..] == rest;
  }

  /** The only whitespace in `' '.join` of tokens is single spaces between two
      non-whitespace characters: no line feed, no leading or trailing
      whitespace, no two whitespace characters in a row. */
  predicate SingleSpaced(s: string)
  {
    forall i :: 0 <= i < |s| && IsSpace(s[i]) ==>
      s[i] == ' ' && 0 < i < |s| - 1 && !IsSpace(s[i - 1]) && !IsSpace(s[i + 1])
  }

  lemma {:induction false} JoinSpaceSingleSpaced(ws: seq<string>)
    requires AllWords(ws)
    ensures SingleSpaced(JoinSpace(ws))
    ensures JoinSpace(ws) == [] <==> ws == []
  {
    if |ws| >= 2 {
      JoinSpaceSingleSpaced(ws[1..]);
      var w := ws[0];
      var rest := JoinSpace(ws[1..]);
      var s := w + " " + rest;
      forall i | 0 <= i < |s| && IsSpace(s[i])
        ensures s[i] == ' ' && 0 < i < |s| - 1 && !IsSpace(s[i - 1]) && !IsSpace(s[i + 1])
      {
        if i > |w| {
          assert s[i] == rest[i - |w| - 1];
          if i - 1 > |w| {
            assert s[i - 1] == rest[i - 1 - |w| - 1];
          }
        }
      }
    }
  }

  // ---------------------------------------------------------------------------
  // split(sep) and sep.join(...)

  /** Index of the first occurrence of `c` in `s`. */
  function IndexOf(s: string, c: char): (i: nat)
    requires c in s
    ensures i < |s| && s[i] == c && c !in s[..i]
  {
    if s[0] == c then 0
    else
      var i := 1 + IndexOf(s[1..], c);
      assert s[..i] == [s[0]] + s[1..][..i - 1];
      i
  }

  /** `sep.join(parts)`, for the at-least-one-part lists that `split(sep)` returns. */
  function JoinWith(parts: seq<string>, sep: char): string
    requires |parts| >= 1
  {
    if |parts| == 1 then parts[0] else parts[0] + [sep] + JoinWith(parts[1..], sep)
  }

  /** `s.split(sep)` for a one-character separator: never empty, no part holds
      the separator, and joining the parts with it gives `s` back. */
  function SplitOn(s: string, sep: char): (parts: seq<string>)
    ensures |parts| >= 1
    ensures forall k :: 0 <= k < |parts| ==> sep !in parts[k]
    ensures JoinWith(parts, sep) == s
    decreases |s|
  {
    if sep !in s then [s]
    else
      var i := IndexOf(s, sep);
      var rest := SplitOn(s[i + 1..], sep);
      assert ([s[..i]] + rest)[1..] == rest;
      assert s == s[..i] + [sep] + s[i + 1..];
      [s[..i]] + rest
  }

  /** The other direction of the round trip: splitting a join of separator-free
      parts gives the parts back. */
  lemma {:induction false} SplitOnJoinWith(parts: seq<string>, sep: char)
    requires |parts| >= 1
    requires forall k :: 0 <= k < |parts| ==> sep !in parts[k]
    ensures SplitOn(JoinWith(parts, sep), sep) == parts
  {
    if |parts| > 1 {
      SplitOnCons(parts[0], JoinWith(parts[1..], sep), sep);
      SplitOnJoinWith(parts[1..], sep);
      assert parts == [parts[0]] + parts[1..];
    }
  }

  /** A separator-free part followed by the separator is split off as the
      first part. */
  lemma SplitOnCons(p: string, t: string, sep: char)
    requires sep !in p
    ensures SplitOn(p + [sep] + t, sep) == [p] + SplitOn(t, sep)
  {
    var s := p + [sep] + t;
    assert s[|p|] == sep;
    assert forall j :: 0 <= j < |p| ==> s[j] == p[j];
    assert forall j :: |p| < j <= |s| ==> s[..j][|p|] == sep;
    assert IndexOf(s, sep) == |p|;
    assert s[..|p|] == p;
    assert s[|p| + 1..] == t;
  }

  /** The words of each string, concatenated in order. */
  function FlatWords(ss: seq<string>): seq<string>
  {
    if ss == [] then [] else Words(ss[0]) + FlatWords(ss[1..])
  }

  lemma {:induction false} FlatWordsAppend(a: seq<string>, b: seq<string>)
    ensures FlatWords(a + b) == FlatWords(a) + FlatWords(b)
  {
    if a != [] {
      assert (a + b)[1..] == a[1..] + b;
      FlatWordsAppend(a[1..], b);
    } else {
      assert a + b == b;
    }
  }

  /** Splitting on whitespace ignores how the text was cut at a whitespace separator. */
  lemma {:induction false} WordsJoinWith(parts: seq<string>, sep: char)
    requires |parts| >= 1 && IsSpace(sep)
    ensures Words(JoinWith(parts, sep)) == FlatWords(parts)
  {
    if |parts| == 1 {
      assert FlatWords(parts) == Words(parts[0]) + FlatWords([]);
    } else {
      var rest := JoinWith(parts[1..], sep);
      assert parts[0] + [sep] + rest == parts[0] + ([sep] + rest);
      WordsAppend(parts[0], [sep] + rest);
      assert ([sep] + rest)[1..] == rest;
      WordsJoinWith(parts[1..], sep);
    }
  }

  // ---------------------------------------------------------------------------
  // find

  /** `pat` occurs in `s` at index `i`. */
  predicate OccursAt(s: string, pat: string, i: int)
  {
    0 <= i && i + |pat| <= |s| && s[i..i + |pat|] == pat
  }

  function FindFrom(s: string, pat: string, from: nat): (r: int)
    requires from <= |s|
    ensures r == -1 || (from <= r && OccursAt(s, pat, r))
    ensures forall i :: from <= i && (r == -1 || i < r) ==> !OccursAt(s, pat, i)
    decreases |s| - from
  {
    if OccursAt(s, pat, from) then from
    else if from == |s| then -1
    else FindFrom(s, pat, from + 1)
  }

  /** `s.find(pat)`: the first index at which `pat` occurs, or -1 when it does
      not occur at all. */
  function Find(s: string, pat: string): (r: int)
    ensures r == -1 <==> forall i :: !OccursAt(s, pat, i)
    ensures r != -1 ==> OccursAt(s, pat, r) && forall i :: i < r ==> !OccursAt(s, pat, i)
  {
    FindFrom(s, pat, 0)
  }

  // ---------------------------------------------------------------------------
  // str(int)

  predicate IsDigit(c: char)
  {
    '0' <= c <= '9'
  }

  function DigitChar(d: nat): (c: char)
    requires d < 10
    ensures IsDigit(c) && c as int - '0' as int == d
  {
    ('0' as int + d) as char
  }

  /** `str(n)` for a non-negative integer: decimal digits, no leading zero. */
  function NatToString(n: nat): (s: string)
    ensures |s| >= 1
    ensures forall i :: 0 <= i < |s| ==> IsDigit(s[i])
    ensures s[0] == '0' ==> n == 0
    decreases n
  {
    if n < 10 then [DigitChar(n)] else NatToString(n / 10) + [DigitChar(n % 10)]
  }

  /** The value of a string of decimal digits. */
  function DecimalValue(s: string): nat
    requires forall i :: 0 <= i < |s| ==> IsDigit(s[i])
  {
    if s == [] then 0
    else
      assert IsDigit(s[|s| - 1]);
      10 * DecimalValue(s[..|s| - 1]) + (s[|s| - 1] as int - '0' as int)
  }

  /** Reading back the digits `str(n)` writes gives `n`. */
  lemma {:induction false} NatToStringValue(n: nat)
    ensures DecimalValue(NatToString(n)) == n
    decreases n
  {
    if n >= 10 {
      var s := NatToString(n);
      assert s[..|s| - 1] == NatToString(n / 10);
      NatToStringValue(n / 10);
    }
  }

  /** `str(i)` for any integer. */
  function IntToString(i: int): (s: string)
    ensures |s| >= 1 && (s[0] == '-' <==> i < 0)
  {
    if i < 0 then "-" + NatToString(-i) else NatToString(i)
  }
}
