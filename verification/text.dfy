/** Python's `str` primitives the engine relies on: character classes,
    `strip`, `split`, `lower` and `upper`. Case is modelled for the ASCII
    letters only. */
module Text {

  /** `str.isspace` for a single character (the ASCII and Unicode
      separators Python's `split()` and `strip()` break on). */
  predicate IsSpace(c: char) {
    || c == ' '
    || ('\t' <= c <= '\r')
    || ('\U{1C}' <= c <= '\U{1F}')
    || c == '\U{85}' || c == '\U{A0}' || c == '\U{1680}'
    || ('\U{2000}' <= c <= '\U{200A}')
    || c == '\U{2028}' || c == '\U{2029}' || c == '\U{202F}'
    || c == '\U{205F}' || c == '\U{3000}'
  }

  predicate NotSpace(c: char) {
    !IsSpace(c)
  }

  predicate IsLowerChar(c: char) {
    'a' <= c <= 'z'
  }

  predicate IsUpperChar(c: char) {
    'A' <= c <= 'Z'
  }

  predicate IsLetter(c: char) {
    IsLowerChar(c) || IsUpperChar(c)
  }

  /** `str.isalpha`: non-empty and letters only. */
  predicate IsAlpha(s: string) {
    |s| > 0 && forall i :: 0 <= i < |s| ==> IsLetter(s[i])
  }

  /** `str.islower`: at least one cased character and no upper-case one. */
  predicate IsLower(s: string) {
    (exists i :: 0 <= i < |s| && IsLowerChar(s[i]))
    && forall i :: 0 <= i < |s| ==> !IsUpperChar(s[i])
  }

  /** `str.isupper`: at least one cased character and no lower-case one. */
  predicate IsUpper(s: string) {
    (exists i :: 0 <= i < |s| && IsUpperChar(s[i]))
    && forall i :: 0 <= i < |s| ==> !IsLowerChar(s[i])
  }

  /** Every character is a lower-case letter (and there is one). */
  predicate AllLowerLetters(s: string) {
    |s| > 0 && forall i :: 0 <= i < |s| ==> IsLowerChar(s[i])
  }

  /** Every character is an upper-case letter (and there is one). */
  predicate AllUpperLetters(s: string) {
    |s| > 0 && forall i :: 0 <= i < |s| ==> IsUpperChar(s[i])
  }

  /** On a word of letters, Python's case tests mean "all one case". */
  lemma AlphaCase(s: string)
    requires IsAlpha(s)
    ensures IsUpper(s) <==> AllUpperLetters(s)
    ensures IsLower(s) <==> AllLowerLetters(s)
  {
    if AllUpperLetters(s) {
      assert IsUpperChar(s[0]);
    }
    if AllLowerLetters(s) {
      assert IsLowerChar(s[0]);
    }
  }

  function LowerChar(c: char): char {
    if IsUpperChar(c) then (c as int + 32) as char else c
  }

  function UpperChar(c: char): char {
    if IsLowerChar(c) then (c as int - 32) as char else c
  }

  /** `str.lower`. */
  function Lower(s: string): (r: string)
    ensures |r| == |s|
    ensures forall i :: 0 <= i < |r| ==> !IsUpperChar(r[i])
    ensures forall i :: 0 <= i < |s| ==> r[i] == LowerChar(s[i])
  {
    seq(|s|, i requires 0 <= i < |s| => LowerChar(s[i]))
  }

  /** `str.upper`. */
  function Upper(s: string): (r: string)
    ensures |r| == |s|
    ensures forall i :: 0 <= i < |r| ==> !IsLowerChar(r[i])
    ensures forall i :: 0 <= i < |s| ==> r[i] == UpperChar(s[i])
  {
    seq(|s|, i requires 0 <= i < |s| => UpperChar(s[i]))
  }

  /** Lower-casing a capitals-only word and upper-casing it again gives the
      word back, and the lower-cased word is lower-case letters only. */
  lemma LowerUpperRoundTrip(s: string)
    requires AllUpperLetters(s)
    ensures AllLowerLetters(Lower(s))
    ensures Upper(Lower(s)) == s
  {
  }

  /** Upper-casing a lower-case word gives a capitals-only word whose
      lower-case form is the word again. */
  lemma UpperLowerRoundTrip(s: string)
    requires AllLowerLetters(s)
    ensures AllUpperLetters(Upper(s))
    ensures Lower(Upper(s)) == s
  {
  }

  /** Length of the longest prefix of `s` whose characters all satisfy `drop`. */
  function LeadingCount(s: string, drop: char -> bool): (n: nat)
    ensures n <= |s|
    ensures forall k :: 0 <= k < n ==> drop(s[k])
    ensures n < |s| ==> !drop(s[n])
  {
    if |s| == 0 || !drop(s[0]) then 0 else 1 + LeadingCount(s[1..], drop)
  }

  /** Start of the longest suffix of `s` whose characters all satisfy `drop`. */
  function TrailingStart(s: string, drop: char -> bool): (n: nat)
    ensures n <= |s|
    ensures forall k :: n <= k < |s| ==> drop(s[k])
    ensures 0 < n ==> !drop(s[n - 1])
  {
    if |s| == 0 || !drop(s[|s| - 1]) then |s| else TrailingStart(s[..|s| - 1], drop)
  }

  /** `r` is `s` with characters satisfying `drop` removed from both ends
      and from nowhere else. */
  ghost predicate IsTrimOf(r: string, s: string, drop: char -> bool) {
    && (r == [] || (!drop(r[0]) && !drop(r[|r| - 1])))
    && exists lo, hi :: TrimBounds(r, s, drop, lo, hi)
  }

  /** `r` is `s[lo..hi]` and everything outside that slice satisfies `drop`. */
  ghost predicate TrimBounds(r: string, s: string, drop: char -> bool, lo: int, hi: int) {
    && 0 <= lo <= hi <= |s|
    && r == s[lo..hi]
    && (forall k :: 0 <= k < lo ==> drop(s[k]))
    && (forall k :: hi <= k < |s| ==> drop(s[k]))
  }

  /** Remove the characters satisfying `drop` from both ends of `s`. */
  function Trim(s: string, drop: char -> bool): (r: string)
    ensures IsTrimOf(r, s, drop)
    ensures r == [] <==> forall k :: 0 <= k < |s| ==> drop(s[k])
  {
    var lo := LeadingCount(s, drop);
    var rest := s[lo..];
    var hi := TrailingStart(rest, drop);
    assert rest[..hi] == s[lo..lo + hi];
    assert forall k :: lo + hi <= k < |s| ==> s[k] == rest[k - lo];
    assert TrimBounds(rest[..hi], s, drop, lo, lo + hi);
    rest[..hi]
  }

  /** A string with nothing to trim at either end is its own trim; in
      particular trimming is idempotent. */
  lemma TrimFixed(r: string, drop: char -> bool)
    requires r == [] || (!drop(r[0]) && !drop(r[|r| - 1]))
    ensures Trim(r, drop) == r
  {
    if r != [] {
      assert LeadingCount(r, drop) == 0;
      assert TrailingStart(r[0..], drop) == |r| by {
        assert r[0..] == r;
      }
    }
  }

  /** `str.strip()`. */
  function Strip(s: string): (r: string)
    ensures IsTrimOf(r, s, IsSpace)
    ensures r == [] <==> forall k :: 0 <= k < |s| ==> IsSpace(s[k])
  {
    Trim(s, IsSpace)
  }

  /** A word as `split()` yields it: non-empty and free of whitespace. */
  predicate IsWord(w: string) {
    |w| > 0 && forall k :: 0 <= k < |w| ==> !IsSpace(w[k])
  }

  /** `s` with every whitespace character removed. */
  function NonSpace(s: string): string {
    if |s| == 0 then []
    else (if IsSpace(s[0]) then [] else [s[0]]) + NonSpace(s[1..])
  }

  /** The words of a sequence written one after another. */
  function Concat(ws: seq<string>): string {
    if |ws| == 0 then [] else ws[0] + Concat(ws[1..])
  }

  /** The words of a sequence joined by single spaces (`' '.join`). */
  function JoinSpaced(ws: seq<string>): string {
    if |ws| == 0 then []
    else if |ws| == 1 then ws[0]
    else ws[0] + " " + JoinSpaced(ws[1..])
  }

  lemma {:induction false} NonSpaceAppend(a: string, b: string)
    ensures NonSpace(a + b) == NonSpace(a) + NonSpace(b)
  {
    if |a| == 0 {
      assert a + b == b;
    } else {
      assert (a + b)[1..] == a[1..] + b;
      NonSpaceAppend(a[1..], b);
    }
  }

  lemma {:induction false} NonSpaceOfWord(w: string)
    requires forall k :: 0 <= k < |w| ==> !IsSpace(w[k])
    ensures NonSpace(w) == w
  {
    if |w| > 0 {
      NonSpaceOfWord(w[1..]);
      assert w == [w[0]] + w[1..];
    }
  }

  /** `str.split()` with no separator: maximal runs of non-whitespace. */
  function Split(s: string): (ws: seq<string>)
    ensures forall i :: 0 <= i < |ws| ==> IsWord(ws[i])
    ensures Concat(ws) == NonSpace(s)
    decreases |s|
  {
    if |s| == 0 then []
    else if IsSpace(s[0]) then Split(s[1..])
    else
      var n := LeadingCount(s, NotSpace);
      var w := s[..n];
      assert s == w + s[n..];
      NonSpaceAppend(w, s[n..]);
      NonSpaceOfWord(w);
      [w] + Split(s[n..])
  }

  /** Whitespace only (possibly empty). */
  predicate Blank(g: string) {
    forall k :: 0 <= k < |g| ==> IsSpace(g[k])
  }

  /** The gaps `g[0]`, ..., `g[|ws|]` interleaved with the words. */
  function Weave(g: seq<string>, ws: seq<string>): string
    requires |g| == |ws| + 1
    decreases |ws|
  {
    if |ws| == 0 then g[0] else g[0] + ws[0] + Weave(g[1..], ws[1..])
  }

  /** `g` can separate the words `ws`: one gap more than words, every gap
      blank, and every gap between two words non-empty. */
  predicate Gaps(g: seq<string>, ws: seq<string>) {
    && |g| == |ws| + 1
    && (forall i :: 0 <= i < |g| ==> Blank(g[i]))
    && (forall i :: 0 < i < |ws| ==> |g[i]| > 0)
  }

  lemma WeaveGrowGap(c: string, g: seq<string>, ws: seq<string>)
    requires |g| == |ws| + 1
    ensures Weave([c + g[0]] + g[1..], ws) == c + Weave(g, ws)
  {
    var g2 := [c + g[0]] + g[1..];
    assert g2[0] == c + g[0] && g2[1..] == g[1..];
  }

  lemma WeaveAddWord(w: string, g: seq<string>, ws: seq<string>)
    requires |g| == |ws| + 1
    ensures Weave([[]] + g, [w] + ws) == w + Weave(g, ws)
  {
    var g2 := [[]] + g;
    var ws2 := [w] + ws;
    assert g2[0] == [] && ws2[0] == w;
    assert g2[1..] == g && ws2[1..] == ws;
    assert Weave(g2, ws2) == g2[0] + ws2[0] + Weave(g2[1..], ws2[1..]);
    assert [] + w == w;
  }

  /** With an empty first gap, the woven string starts with the first word. */
  lemma WeaveEmptyGap(g: seq<string>, ws: seq<string>)
    requires |g| == |ws| + 1 && |ws| > 0 && |ws[0]| > 0
    ensures |g[0]| == 0 ==> |Weave(g, ws)| > 0 && Weave(g, ws)[0] == ws[0][0]
  {
    assert Weave(g, ws) == g[0] + ws[0] + Weave(g[1..], ws[1..]);
  }

  /** Removing whitespace leaves nothing exactly when there was nothing else. */
  lemma {:induction false} NonSpaceEmpty(s: string)
    ensures NonSpace(s) == [] <==> Blank(s)
  {
    if |s| > 0 {
      NonSpaceEmpty(s[1..]);
      assert Blank(s) <==> IsSpace(s[0]) && Blank(s[1..]);
    }
  }

  /** Non-empty words written together give the empty string only when
      there are none. */
  lemma ConcatEmpty(ws: seq<string>)
    requires forall i :: 0 <= i < |ws| ==> IsWord(ws[i])
    ensures Concat(ws) == [] <==> ws == []
  {
    if ws != [] {
      assert |Concat(ws)| >= |ws[0]| > 0;
    }
  }

  /** `split()` finds no word exactly when the string is blank. */
  lemma SplitEmpty(s: string)
    ensures Split(s) == [] <==> Blank(s)
  {
    ConcatEmpty(Split(s));
    NonSpaceEmpty(s);
  }

  /** `lower()` keeps a string blank or not blank. */
  lemma LowerBlank(s: string)
    ensures Blank(Lower(s)) <==> Blank(s)
  {
    assert forall k :: 0 <= k < |s| ==> (IsSpace(Lower(s)[k]) <==> IsSpace(s[k]));
  }

  /** `strip()` leaves something that is not blank, or nothing. */
  lemma StripBlank(s: string)
    ensures Blank(Strip(s)) <==> Blank(s)
  {
    var r := Strip(s);
    if r != [] {
      assert !IsSpace(r[0]);
    }
  }

  /** `split()` breaks exactly at whitespace: the string is its words
      interleaved with blank gaps, each inner gap non-empty. Together with
      `IsWord` this makes the words the maximal non-whitespace runs. */
  lemma {:induction false} SplitAtBlanks(s: string)
    ensures exists g :: Gaps(g, Split(s)) && Weave(g, Split(s)) == s
    decreases |s|
  {
    if |s| == 0 {
      assert Gaps([[]], Split(s)) && Weave([[]], Split(s)) == s;
    } else if IsSpace(s[0]) {
      SplitAtBlanks(s[1..]);
      var g' :| Gaps(g', Split(s[1..])) && Weave(g', Split(s[1..])) == s[1..];
      var g := SplitAtBlanksSpace(s, g');
    } else {
      var n := LeadingCount(s, NotSpace);
      SplitAtBlanks(s[n..]);
      var g' :| Gaps(g', Split(s[n..])) && Weave(g', Split(s[n..])) == s[n..];
      var g := SplitAtBlanksWord(s, n, g');
    }
  }

  /** The step of `SplitAtBlanks` past a leading whitespace character. */
  lemma SplitAtBlanksSpace(s: string, g': seq<string>) returns (g: seq<string>)
    requires |s| > 0 && IsSpace(s[0])
    requires Gaps(g', Split(s[1..])) && Weave(g', Split(s[1..])) == s[1..]
    ensures Gaps(g, Split(s)) && Weave(g, Split(s)) == s
  {
    var ws := Split(s[1..]);
    assert Split(s) == ws;
    g := [[s[0]] + g'[0]] + g'[1..];
    WeaveGrowGap([s[0]], g', ws);
    assert s == [s[0]] + s[1..];
    assert g[1..] == g'[1..];
    assert Gaps(g, ws);
  }

  /** The step of `SplitAtBlanks` past a leading word of length `n`. */
  lemma SplitAtBlanksWord(s: string, n: nat, g': seq<string>) returns (g: seq<string>)
    requires |s| > 0 && !IsSpace(s[0]) && n == LeadingCount(s, NotSpace)
    requires Gaps(g', Split(s[n..])) && Weave(g', Split(s[n..])) == s[n..]
    ensures Gaps(g, Split(s)) && Weave(g, Split(s)) == s
  {
    var w := s[..n];
    var rest := Split(s[n..]);
    assert Split(s) == [w] + rest;
    if |rest| > 0 {
      WeaveEmptyGap(g', rest);
    }
    g := [[]] + g';
    WeaveAddWord(w, g', rest);
    assert s == w + s[n..];
    assert g[1..] == g';
    assert Gaps(g, [w] + rest);
  }

  /** `LeadingCount` over a word of `drop` characters followed by a
      character that is not. */
  lemma {:induction false} LeadingCountPrefix(w: string, t: string, drop: char -> bool)
    requires forall k :: 0 <= k < |w| ==> drop(w[k])
    requires |t| > 0 && !drop(t[0])
    ensures LeadingCount(w + t, drop) == |w|
  {
    if |w| > 0 {
      assert (w + t)[1..] == w[1..] + t;
      LeadingCountPrefix(w[1..], t, drop);
    }
  }

  /** Splitting words joined by single spaces gives the words back. */
  lemma {:induction false} SplitJoinRoundTrip(ws: seq<string>)
    requires forall i :: 0 <= i < |ws| ==> IsWord(ws[i])
    ensures Split(JoinSpaced(ws)) == ws
  {
    if |ws| == 0 {
    } else if |ws| == 1 {
      var w := ws[0];
      assert LeadingCount(w, NotSpace) == |w|;
      assert w[..|w|] == w && w[|w|..] == [];
    } else {
      var w := ws[0];
      var rest := JoinSpaced(ws[1..]);
      var s := w + " " + rest;
      assert s == w + (" " + rest);
      LeadingCountPrefix(w, " " + rest, NotSpace);
      assert s[..|w|] == w;
      assert s[|w|..] == " " + rest;
      assert (" " + rest)[1..] == rest;
      SplitJoinRoundTrip(ws[1..]);
      assert Split(s[|w|..]) == Split(rest);
    }
  }
}
