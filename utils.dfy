/** The string helpers of the portfolio's utility module: slug derivation
    (`generateSlug`), the reading-time estimate (`calculateReadTime`) and the
    short branch of `formatDate`. Strings are sequences of Unicode scalar
    values; case mapping is modelled for ASCII letters only. */
module Utils {
  import opened Wrappers

  // ------------------------------------------------------------------
  // Character classes
  // ------------------------------------------------------------------

  /** The characters matched by JavaScript's `\s`; `String.prototype.trim`
      removes exactly the same set (WhiteSpace and LineTerminator). */
  predicate IsSpace(c: char) {
    var n := c as int;
    (0x09 <= n <= 0x0D) || n == 0x20 || n == 0xA0 || n == 0x1680 || (0x2000 <= n <= 0x200A)
    || n == 0x2028 || n == 0x2029 || n == 0x202F || n == 0x205F || n == 0x3000 || n == 0xFEFF
  }

  predicate IsNonSpace(c: char) { !IsSpace(c) }

  predicate IsHyphen(c: char) { c == '-' }

  predicate IsUpper(c: char) { 'A' <= c <= 'Z' }

  /** `[a-z0-9]` */
  predicate IsLowerAlnum(c: char) { 'a' <= c <= 'z' || '0' <= c <= '9' }

  /** `\w` (no `u` flag): ASCII letters, digits and `_`. */
  predicate IsWordChar(c: char) { IsUpper(c) || IsLowerAlnum(c) || c == '_' }

  /** What the deletion step `[^\w\s-]` keeps. */
  predicate IsKept(c: char) { IsWordChar(c) || IsSpace(c) || c == '-' }

  /** The characters a derived slug can contain: `[a-z0-9_-]`. */
  predicate IsSlugChar(c: char) { IsLowerAlnum(c) || c == '_' || c == '-' }

  /** `toLowerCase`, restricted to ASCII. */
  function LowerChar(c: char): char {
    if IsUpper(c) then (c as int + 32) as char else c
  }

  function ToLower(s: string): string {
    seq(|s|, i requires 0 <= i < |s| => LowerChar(s[i]))
  }

  /** No two neighbouring characters both satisfy `p`. */
  predicate NoAdjacent(s: string, p: char -> bool) {
    forall i :: 0 <= i < |s| - 1 ==> !(p(s[i]) && p(s[i + 1]))
  }

  // ------------------------------------------------------------------
  // Spans, trimming and run replacement
  // ------------------------------------------------------------------

  /** Length of the longest prefix of `s` whose characters all satisfy `p`. */
  function Span(s: string, p: char -> bool): (n: nat)
    ensures n <= |s|
    ensures forall i :: 0 <= i < n ==> p(s[i])
    ensures n < |s| ==> !p(s[n])
  {
    if s == [] || !p(s[0]) then 0 else 1 + Span(s[1..], p)
  }

  /** Length of the longest suffix of `s` whose characters all satisfy `p`. */
  function SpanEnd(s: string, p: char -> bool): (n: nat)
    ensures n <= |s|
    ensures forall i :: |s| - n <= i < |s| ==> p(s[i])
    ensures n < |s| ==> !p(s[|s| - 1 - n])
  {
    if s == [] || !p(s[|s| - 1]) then 0 else 1 + SpanEnd(s[..|s| - 1], p)
  }

  function DropWhile(s: string, p: char -> bool): string {
    s[Span(s, p)..]
  }

  /** `String.prototype.trim`: drops leading and trailing whitespace and
      keeps the middle. */
  function Trim(s: string): (r: string)
    ensures |r| <= |s|
    ensures r == [] || (!IsSpace(r[0]) && !IsSpace(r[|r| - 1]))
    ensures r == [] <==> forall i :: 0 <= i < |s| ==> IsSpace(s[i])
    ensures (s == [] || (!IsSpace(s[0]) && !IsSpace(s[|s| - 1]))) ==> r == s
    ensures forall c :: c in r ==> c in s
  {
    var a := Span(s, IsSpace);
    var t := s[a..];
    var b := SpanEnd(t, IsSpace);
    assert a == |s| || !IsSpace(s[a]);
    s[a..|s| - b]
  }

  /** `replace(/p+/g, c)`: every maximal run of characters satisfying `p`
      becomes a single `c`; everything else is kept in order. */
  function ReplaceRuns(s: string, p: char -> bool, c: char): (r: string)
    ensures |r| <= |s|
    decreases |s|
  {
    if s == [] then []
    else if p(s[0]) then [c] + ReplaceRuns(DropWhile(s, p), p, c)
    else [s[0]] + ReplaceRuns(s[1..], p, c)
  }

  /** `replace(/[^\w\s-]/g, '')` */
  function StripSpecial(s: string): (r: string)
    ensures |r| <= |s|
    ensures forall x :: x in r ==> x in s && IsKept(x)
  {
    if s == [] then []
    else (if IsKept(s[0]) then [s[0]] else []) + StripSpecial(s[1..])
  }

  /** The deletion works character by character: it distributes over
      concatenation, keeps a kept character and drops any other. */
  lemma {:induction false} StripSpecialSplits(a: string, b: string)
    ensures StripSpecial(a + b) == StripSpecial(a) + StripSpecial(b)
    ensures |a| == 1 ==> StripSpecial(a) == if IsKept(a[0]) then a else []
  {
    if a != [] {
      var head := if IsKept(a[0]) then [a[0]] else [];
      assert (a + b)[0] == a[0];
      assert (a + b)[1..] == a[1..] + b;
      assert StripSpecial(a + b) == head + StripSpecial(a[1..] + b);
      StripSpecialSplits(a[1..], b);
      assert StripSpecial(a) == head + StripSpecial(a[1..]);
      if |a| == 1 {
        assert a[1..] == [];
      }
    } else {
      assert a + b == b;
    }
  }

  // ------------------------------------------------------------------
  // generateSlug
  // ------------------------------------------------------------------

  /** The rewrites before the final `.trim()`. */
  function SlugBeforeTrim(text: string): string {
    var kept := StripSpecial(ToLower(text));
    var dashed := ReplaceRuns(kept, IsSpace, '-');
    ReplaceRuns(dashed, IsHyphen, '-')
  }

  /** `generateSlug`: lowercase, drop special characters, whitespace runs to
      `-`, hyphen runs to one `-`, trim. */
  function GenerateSlug(text: string): string {
    Trim(SlugBeforeTrim(text))
  }

  lemma {:induction false} ReplaceRunsChars(s: string, p: char -> bool, c: char)
    ensures forall x :: x in ReplaceRuns(s, p, c) ==> x == c || (x in s && !p(x))
    decreases |s|
  {
    if s == [] {
    } else if p(s[0]) {
      var t := DropWhile(s, p);
      ReplaceRunsChars(t, p, c);
      forall x | x in t ensures x in s {
        var k :| 0 <= k < |t| && t[k] == x;
        assert s[Span(s, p) + k] == x;
      }
    } else {
      ReplaceRunsChars(s[1..], p, c);
    }
  }

  lemma {:induction false} ReplaceRunsNoAdjacent(s: string, p: char -> bool, c: char)
    ensures NoAdjacent(ReplaceRuns(s, p, c), p)
    decreases |s|
  {
    if s == [] {
    } else if p(s[0]) {
      var t := DropWhile(s, p);
      ReplaceRunsNoAdjacent(t, p, c);
      if t != [] {
        assert !p(t[0]);
        assert ReplaceRuns(t, p, c)[0] == t[0];
      }
    } else {
      var t := s[1..];
      ReplaceRunsNoAdjacent(t, p, c);
      assert ReplaceRuns(s, p, c) == [s[0]] + ReplaceRuns(t, p, c);
    }
  }

  /** A string whose `p` characters are all `c` and never neighbours is left
      as it is by `ReplaceRuns`. */
  lemma {:induction false} ReplaceRunsFixed(s: string, p: char -> bool, c: char)
    requires forall i :: 0 <= i < |s| ==> p(s[i]) ==> s[i] == c
    requires NoAdjacent(s, p)
    ensures ReplaceRuns(s, p, c) == s
    decreases |s|
  {
    if s == [] {
    } else {
      if p(s[0]) {
        assert Span(s[1..], p) == 0 by {
          if |s| > 1 { assert !p(s[1]); }
        }
        assert DropWhile(s, p) == s[1..];
      }
      ReplaceRunsFixed(s[1..], p, c);
    }
  }

  lemma {:induction false} StripSpecialFixed(s: string)
    requires forall i :: 0 <= i < |s| ==> IsKept(s[i])
    ensures StripSpecial(s) == s
  {
    if s != [] {
      StripSpecialFixed(s[1..]);
    }
  }

  /** Every character of a derived slug is one of `[a-z0-9_-]` (so it holds
      no whitespace), it never holds two neighbouring hyphens, and it is
      never longer than the title it came from. */
  lemma GeneratedSlugShape(text: string)
    ensures forall c :: c in GenerateSlug(text) ==> IsSlugChar(c)
    ensures forall c :: c in GenerateSlug(text) ==> !IsSpace(c)
    ensures NoAdjacent(GenerateSlug(text), IsHyphen)
    ensures |GenerateSlug(text)| <= |text|
  {
    var lowered := ToLower(text);
    var kept := StripSpecial(lowered);
    var dashed := ReplaceRuns(kept, IsSpace, '-');
    var collapsed := ReplaceRuns(dashed, IsHyphen, '-');
    assert forall x :: x in lowered ==> !IsUpper(x) by {
      forall x | x in lowered ensures !IsUpper(x) {
        var i :| 0 <= i < |lowered| && lowered[i] == x;
        assert x == LowerChar(text[i]);
      }
    }
    ReplaceRunsChars(kept, IsSpace, '-');
    ReplaceRunsChars(dashed, IsHyphen, '-');
    assert forall x :: x in collapsed ==> IsSlugChar(x);
    TrimStepIsNoOp(text);
    ReplaceRunsNoAdjacent(dashed, IsHyphen, '-');
  }

  /** The final `.trim()` never changes anything: every whitespace character
      has already been turned into `-`. */
  lemma TrimStepIsNoOp(text: string)
    ensures GenerateSlug(text) == SlugBeforeTrim(text)
  {
    var kept := StripSpecial(ToLower(text));
    var dashed := ReplaceRuns(kept, IsSpace, '-');
    var collapsed := ReplaceRuns(dashed, IsHyphen, '-');
    ReplaceRunsChars(kept, IsSpace, '-');
    ReplaceRunsChars(dashed, IsHyphen, '-');
    assert forall x :: x in collapsed ==> !IsSpace(x);
    if collapsed != [] {
      assert collapsed[0] in collapsed && collapsed[|collapsed| - 1] in collapsed;
    }
  }

  lemma ToLowerFixed(s: string)
    requires forall i :: 0 <= i < |s| ==> !IsUpper(s[i])
    ensures ToLower(s) == s
  {
    assert forall i :: 0 <= i < |s| ==> ToLower(s)[i] == s[i];
  }

  predicate AllSlugChars(s: string) {
    forall i :: 0 <= i < |s| ==> IsSlugChar(s[i])
  }

  lemma {:induction false} NoSpaceRunsFixed(s: string)
    requires AllSlugChars(s)
    ensures ReplaceRuns(s, IsSpace, '-') == s
  {
    if s != [] {
      assert IsSlugChar(s[0]);
      NoSpaceRunsFixed(s[1..]);
    }
  }

  lemma NoDoubleHyphenFixed(s: string)
    requires AllSlugChars(s)
    requires NoAdjacent(s, IsHyphen)
    ensures ReplaceRuns(s, IsHyphen, '-') == s
  {
    ReplaceRunsFixed(s, IsHyphen, '-');
  }

  lemma SlugCharsKept(s: string)
    requires AllSlugChars(s)
    ensures StripSpecial(ToLower(s)) == s
  {
    ToLowerFixed(s);
    StripSpecialFixed(s);
  }

  lemma SlugCharsTrimFixed(s: string)
    requires AllSlugChars(s)
    ensures Trim(s) == s
  {
    if s != [] {
      assert IsSlugChar(s[0]) && IsSlugChar(s[|s| - 1]);
    }
  }

  /** A string made of `[a-z0-9_-]` with no two neighbouring hyphens is its
      own slug. */
  lemma SlugFixedPoint(s: string)
    requires AllSlugChars(s)
    requires NoAdjacent(s, IsHyphen)
    ensures GenerateSlug(s) == s
  {
    SlugCharsKept(s);
    NoSpaceRunsFixed(s);
    NoDoubleHyphenFixed(s);
    assert SlugBeforeTrim(s) == s;
    SlugCharsTrimFixed(s);
  }

  /** `generateSlug` is idempotent. */
  lemma GenerateSlugIdempotent(text: string)
    ensures GenerateSlug(GenerateSlug(text)) == GenerateSlug(text)
  {
    var slug := GenerateSlug(text);
    GeneratedSlugShape(text);
    assert AllSlugChars(slug) by {
      forall i | 0 <= i < |slug| ensures IsSlugChar(slug[i]) { assert slug[i] in slug; }
    }
    SlugFixedPoint(slug);
  }

  /** Leading and trailing hyphens survive: the trim removes only
      whitespace, and by then there is none. */
  lemma SingleSpaceSpan(w: string)
    requires w == [] || !IsSpace(w[0])
    ensures Span(" " + w, IsSpace) == 1
  {
    var s := " " + w;
    assert s[1..] == w;
    assert IsSpace(s[0]);
  }

  lemma LeadingSpaceKept(w: string)
    requires AllSlugChars(w)
    ensures StripSpecial(ToLower(" " + w)) == " " + w
  {
    var s := " " + w;
    forall i | 0 <= i < |s| ensures !IsUpper(s[i]) && IsKept(s[i]) {
      if i > 0 { assert s[i] == w[i - 1] && IsSlugChar(w[i - 1]); }
    }
    ToLowerFixed(s);
    StripSpecialFixed(s);
  }

  lemma LeadingSpaceDashed(w: string)
    requires AllSlugChars(w)
    ensures ReplaceRuns(" " + w, IsSpace, '-') == "-" + w
  {
    if w != [] { assert IsSlugChar(w[0]); }
    SingleSpaceSpan(w);
    assert DropWhile(" " + w, IsSpace) == w;
    NoSpaceRunsFixed(w);
  }

  lemma HyphenPrefixShape(w: string)
    requires AllSlugChars(w) && NoAdjacent(w, IsHyphen)
    requires w == [] || w[0] != '-'
    ensures AllSlugChars("-" + w) && NoAdjacent("-" + w, IsHyphen)
  {
    var h := "-" + w;
    forall i | 0 <= i < |h| ensures IsSlugChar(h[i]) {
      if i > 0 { assert h[i] == w[i - 1]; }
    }
    forall i | 0 <= i < |h| - 1 ensures !(IsHyphen(h[i]) && IsHyphen(h[i + 1])) {
      if i > 0 { assert h[i] == w[i - 1] && h[i + 1] == w[i]; }
    }
  }

  /** A leading space turns into a leading hyphen that is never removed:
      the trim removes only whitespace, and by then there is none. */
  lemma LeadingSpaceGivesLeadingHyphen(w: string)
    requires AllSlugChars(w) && NoAdjacent(w, IsHyphen)
    requires w == [] || w[0] != '-'
    ensures GenerateSlug(" " + w) == "-" + w
  {
    LeadingSpaceKept(w);
    LeadingSpaceDashed(w);
    HyphenPrefixShape(w);
    NoDoubleHyphenFixed("-" + w);
    assert SlugBeforeTrim(" " + w) == "-" + w;
    SlugCharsTrimFixed("-" + w);
  }

  lemma LeadingSpaceExample(title: string)
    requires title == " Hello"
    ensures GenerateSlug(title) == "-hello"
  {
    var w := "hello";
    HelloShape(w);
    HelloLowercased(title);
    LowerLeadingSpace(title, w);
    HyphenHello(w);
  }

  lemma HyphenHello(w: string)
    requires w == "hello"
    ensures "-" + w == "-hello"
  {
  }

  lemma HelloShape(w: string)
    requires w == "hello"
    ensures AllSlugChars(w) && NoAdjacent(w, IsHyphen) && w[0] != '-'
  {
  }

  /** A title that lowercases to a space and a slug-shaped word. */
  lemma LowerLeadingSpace(title: string, w: string)
    requires ToLower(title) == " " + w
    requires AllSlugChars(w) && NoAdjacent(w, IsHyphen)
    requires w == [] || w[0] != '-'
    ensures GenerateSlug(title) == "-" + w
  {
    LowercasedTitleSameSlug(title);
    LeadingSpaceGivesLeadingHyphen(w);
  }

  lemma HelloLowercased(title: string)
    requires title == " Hello"
    ensures ToLower(title) == " " + "hello"
  {
    assert LowerChar('H') == 'h';
  }

  /** Lowercasing a title first does not change its slug. */
  lemma LowercasedTitleSameSlug(t: string)
    ensures GenerateSlug(ToLower(t)) == GenerateSlug(t)
  {
    assert forall i :: 0 <= i < |t| ==> LowerChar(LowerChar(t[i])) == LowerChar(t[i]);
    assert ToLower(ToLower(t)) == ToLower(t);
  }

  // ------------------------------------------------------------------
  // calculateReadTime
  // ------------------------------------------------------------------

  /** `split(/\s+/)`: the pieces between maximal whitespace runs, including
      an empty first or last piece when `s` starts or ends with whitespace. */
  function SplitOnSpaceRuns(s: string): (words: seq<string>)
    ensures |words| >= 1
    decreases |s|
  {
    var k := Span(s, IsNonSpace);
    if k == |s| then [s]
    else
      var gap := Span(s[k..], IsSpace);
      assert IsSpace(s[k]) && gap >= 1;
      [s[..k]] + SplitOnSpaceRuns(s[k + gap..])
  }

  /** `content.trim().split(/\s+/).length` */
  function WordCount(content: string): nat {
    |SplitOnSpaceRuns(Trim(content))|
  }

  /** `Math.ceil(words / 200)` */
  function MinutesFor(words: nat): (minutes: nat)
    ensures minutes * 200 >= words
    ensures (minutes - 1) * 200 < words
  {
    (words + 199) / 200
  }

  /** `calculateReadTime`: at least one minute, and exactly the ceiling of
      the word count over 200 words per minute. */
  function CalculateReadTime(content: string): (minutes: nat)
    ensures minutes >= 1
    ensures (minutes - 1) * 200 < WordCount(content) <= minutes * 200
  {
    MinutesFor(WordCount(content))
  }

  function Concat(words: seq<string>): string {
    if words == [] then [] else words[0] + Concat(words[1..])
  }

  /** `s` with every whitespace character deleted. */
  function RemoveSpaces(s: string): string {
    if s == [] then [] else (if IsSpace(s[0]) then [] else [s[0]]) + RemoveSpaces(s[1..])
  }

  lemma {:induction false} RemoveSpacesAppend(a: string, b: string)
    ensures RemoveSpaces(a + b) == RemoveSpaces(a) + RemoveSpaces(b)
  {
    if a != [] {
      var head := if IsSpace(a[0]) then [] else [a[0]];
      assert (a + b)[0] == a[0];
      assert (a + b)[1..] == a[1..] + b;
      assert RemoveSpaces(a + b) == head + RemoveSpaces(a[1..] + b);
      RemoveSpacesAppend(a[1..], b);
      assert RemoveSpaces(a) == head + RemoveSpaces(a[1..]);
    } else {
      assert a + b == b;
    }
  }

  lemma {:induction false} RemoveSpacesOfNoSpace(a: string)
    requires forall i :: 0 <= i < |a| ==> !IsSpace(a[i])
    ensures RemoveSpaces(a) == a
  {
    if a != [] { RemoveSpacesOfNoSpace(a[1..]); }
  }

  lemma {:induction false} RemoveSpacesOfAllSpace(a: string)
    requires forall i :: 0 <= i < |a| ==> IsSpace(a[i])
    ensures RemoveSpaces(a) == []
  {
    if a != [] { RemoveSpacesOfAllSpace(a[1..]); }
  }

  lemma {:induction false} SplitPiecesHaveNoSpace(s: string)
    ensures forall w, i :: w in SplitOnSpaceRuns(s) && 0 <= i < |w| ==> !IsSpace(w[i])
    decreases |s|
  {
    var k := Span(s, IsNonSpace);
    if k < |s| {
      var gap := Span(s[k..], IsSpace);
      SplitPiecesHaveNoSpace(s[k + gap..]);
    }
  }

  lemma {:induction false} SplitPiecesConcat(s: string)
    ensures Concat(SplitOnSpaceRuns(s)) == RemoveSpaces(s)
    decreases |s|
  {
    var k := Span(s, IsNonSpace);
    if k == |s| {
      RemoveSpacesOfNoSpace(s);
      assert Concat([s]) == s + Concat([]);
    } else {
      var gap := Span(s[k..], IsSpace);
      var rest := s[k + gap..];
      SplitPiecesConcat(rest);
      var ws := SplitOnSpaceRuns(s);
      assert ws[1..] == SplitOnSpaceRuns(rest);
      assert Concat(ws) == s[..k] + Concat(SplitOnSpaceRuns(rest));
      RemovedAroundGap(s, k, gap);
    }
  }

  lemma {:induction false} SplitPiecesNonEmpty(s: string)
    requires s != [] && !IsSpace(s[0]) && !IsSpace(s[|s| - 1])
    ensures forall w :: w in SplitOnSpaceRuns(s) ==> w != []
    decreases |s|
  {
    var k := Span(s, IsNonSpace);
    if k < |s| {
      var gap := Span(s[k..], IsSpace);
      var rest := s[k + gap..];
      assert k >= 1;
      assert rest != [] && !IsSpace(rest[0]) && !IsSpace(rest[|rest| - 1]);
      SplitPiecesNonEmpty(rest);
    }
  }

  /** The pieces `split(/\s+/)` yields hold no whitespace and, put back
      together, give `s` without its whitespace; when `s` is non-empty and
      has no whitespace at either end (as after `trim`), no piece is empty
      and there is exactly one piece per maximal non-whitespace run. */
  lemma SplitPieces(s: string)
    ensures forall w, i :: w in SplitOnSpaceRuns(s) && 0 <= i < |w| ==> !IsSpace(w[i])
    ensures Concat(SplitOnSpaceRuns(s)) == RemoveSpaces(s)
    ensures s != [] && !IsSpace(s[0]) && !IsSpace(s[|s| - 1]) ==>
              (forall w :: w in SplitOnSpaceRuns(s) ==> w != []) && |SplitOnSpaceRuns(s)| == RunCount(s)
  {
    SplitPiecesHaveNoSpace(s);
    SplitPiecesConcat(s);
    if s != [] && !IsSpace(s[0]) && !IsSpace(s[|s| - 1]) {
      SplitPiecesNonEmpty(s);
      SplitCountsRuns(s);
    }
  }

  /** The number of maximal non-whitespace runs of `s`, counted by their
      first characters; `prevSpace` says whether the character before `s`
      was whitespace (or there was none). */
  function RunsFrom(s: string, prevSpace: bool): nat {
    if s == [] then 0
    else (if !IsSpace(s[0]) && prevSpace then 1 else 0) + RunsFrom(s[1..], IsSpace(s[0]))
  }

  /** The number of whitespace-separated words of `s`. */
  function RunCount(s: string): nat { RunsFrom(s, true) }

  lemma {:induction false} RunsSkipWord(s: string, k: nat, prevSpace: bool)
    requires 1 <= k <= |s|
    requires forall i :: 0 <= i < k ==> !IsSpace(s[i])
    ensures RunsFrom(s, prevSpace) == (if prevSpace then 1 else 0) + RunsFrom(s[k..], false)
    decreases k
  {
    if k > 1 {
      RunsSkipWord(s[1..], k - 1, false);
      assert s[1..][k - 1..] == s[k..];
    }
  }

  lemma {:induction false} RunsSkipGap(s: string, gap: nat, prevSpace: bool)
    requires 1 <= gap <= |s|
    requires forall i :: 0 <= i < gap ==> IsSpace(s[i])
    ensures RunsFrom(s, prevSpace) == RunsFrom(s[gap..], true)
    decreases gap
  {
    if gap > 1 {
      RunsSkipGap(s[1..], gap - 1, true);
      assert s[1..][gap - 1..] == s[gap..];
    }
  }

  lemma {:induction false} RunsOfBlank(s: string, prevSpace: bool)
    requires forall i :: 0 <= i < |s| ==> IsSpace(s[i])
    ensures RunsFrom(s, prevSpace) == 0
  {
    if s != [] {
      RunsOfBlank(s[1..], true);
    }
  }

  /** Trailing whitespace starts no word. */
  lemma {:induction false} RunsDropTrailing(s: string, n: nat, prevSpace: bool)
    requires n <= |s|
    requires forall i :: |s| - n <= i < |s| ==> IsSpace(s[i])
    ensures RunsFrom(s, prevSpace) == RunsFrom(s[..|s| - n], prevSpace)
  {
    if |s| == n {
      RunsOfBlank(s, prevSpace);
    } else {
      RunsDropTrailing(s[1..], n, IsSpace(s[0]));
      assert s[1..][..|s| - 1 - n] == s[..|s| - n][1..];
    }
  }

  lemma SplitUnfold(s: string, k: nat, gap: nat)
    requires k == Span(s, IsNonSpace) < |s|
    requires gap == Span(s[k..], IsSpace)
    ensures k + gap <= |s|
    ensures |SplitOnSpaceRuns(s)| == 1 + |SplitOnSpaceRuns(s[k + gap..])|
  {
  }

  lemma GapCounts(s: string, k: nat, gap: nat)
    requires s != [] && !IsSpace(s[0]) && !IsSpace(s[|s| - 1])
    requires k == Span(s, IsNonSpace) < |s|
    requires gap == Span(s[k..], IsSpace)
    ensures k + gap < |s|
    ensures var rest := s[k + gap..]; !IsSpace(rest[0]) && !IsSpace(rest[|rest| - 1])
    ensures RunCount(s) == 1 + RunCount(s[k + gap..])
  {
    var tail := s[k..];
    assert !IsSpace(tail[|tail| - 1]);
    RunsSkipWord(s, k, true);
    RunsSkipGap(tail, gap, false);
    var rest := s[k + gap..];
    assert tail[gap..] == rest;
    assert rest[|rest| - 1] == s[|s| - 1];
  }

  /** On trimmed non-empty input, `split(/\s+/)` yields one piece per word. */
  lemma {:induction false} SplitCountsRuns(s: string)
    requires s != [] && !IsSpace(s[0]) && !IsSpace(s[|s| - 1])
    ensures |SplitOnSpaceRuns(s)| == RunCount(s)
    decreases |s|
  {
    var k := Span(s, IsNonSpace);
    if k < |s| {
      var gap := Span(s[k..], IsSpace);
      SplitUnfold(s, k, gap);
      GapCounts(s, k, gap);
      SplitCountsRuns(s[k + gap..]);
    } else {
      RunsSkipWord(s, k, true);
      assert s[k..] == [];
    }
  }

  /** `trim` removes no word. */
  lemma TrimKeepsRuns(content: string)
    ensures RunCount(Trim(content)) == RunCount(content)
  {
    var a := Span(content, IsSpace);
    var t := content[a..];
    var b := SpanEnd(t, IsSpace);
    assert Trim(content) == t[..|t| - b];
    if a > 0 {
      RunsSkipGap(content, a, true);
    } else {
      assert t == content;
    }
    RunsDropTrailing(t, b, true);
  }

  /** Content with at least one non-whitespace character has as many words,
      in the sense of `calculateReadTime`, as it has whitespace-separated
      runs. */
  lemma WordCountIsRunCount(content: string)
    requires exists i :: 0 <= i < |content| && !IsSpace(content[i])
    ensures WordCount(content) == RunCount(content)
  {
    TrimKeepsRuns(content);
    SplitCountsRuns(Trim(content));
  }

  lemma {:induction false} RemovedAroundGap(s: string, k: nat, gap: nat)
    requires k + gap <= |s|
    requires forall i :: 0 <= i < k ==> !IsSpace(s[i])
    requires forall i :: k <= i < k + gap ==> IsSpace(s[i])
    ensures RemoveSpaces(s) == s[..k] + RemoveSpaces(s[k + gap..])
    decreases k + gap
  {
    if k > 0 {
      RemovedAroundGap(s[1..], k - 1, gap);
      assert s[1..][k - 1 + gap..] == s[k + gap..];
      assert s[..k] == [s[0]] + s[1..][..k - 1];
    } else if gap > 0 {
      RemovedAroundGap(s[1..], 0, gap - 1);
      assert s[1..][gap - 1..] == s[gap..];
    }
  }

  /** Blank content (empty or only whitespace) still counts as one word, so
      its reading time is one minute. */
  lemma BlankContentReadsInOneMinute(content: string)
    requires forall i :: 0 <= i < |content| ==> IsSpace(content[i])
    ensures WordCount(content) == 1
    ensures CalculateReadTime(content) == 1
  {
    assert Trim(content) == [];
  }

  /** The reading time never decreases as the word count grows. */
  lemma MinutesMonotone(a: nat, b: nat)
    requires a <= b
    ensures MinutesFor(a) <= MinutesFor(b)
  {
  }

  lemma ReadTimeExamples()
    ensures MinutesFor(400) == 2 && MinutesFor(200) == 1 && MinutesFor(201) == 2 && MinutesFor(1) == 1
  {
  }

  // ------------------------------------------------------------------
  // formatDate, 'short' branch
  // ------------------------------------------------------------------

  const MonthAbbreviations: seq<string> :=
    ["Jan", "Feb", "Mar", "Apr", "May", "Jun", "Jul", "Aug", "Sep", "Oct", "Nov", "Dec"]

  function DigitChar(d: nat): char
    requires d < 10
  {
    ('0' as int + d) as char
  }

  /** Decimal notation of a natural number, as `${n}` prints it. */
  function NatToDecimal(n: nat): (r: string)
    ensures |r| >= 1
    decreases n
  {
    if n < 10 then [DigitChar(n)] else NatToDecimal(n / 10) + [DigitChar(n % 10)]
  }

  /** `${year}` for an integral year. */
  function IntToDecimal(n: int): string {
    if n < 0 then "-" + NatToDecimal(-n) else NatToDecimal(n)
  }

  /** `${months[d.getMonth()]} ${d.getFullYear()}` */
  function FormatShortDate(month: nat, year: int): string
    requires month < 12
  {
    MonthAbbreviations[month] + " " + IntToDecimal(year)
  }

  // An inverse of the short format, used to state what it preserves.

  predicate IsDigit(c: char) { '0' <= c <= '9' }

  function DecimalValue(s: string): nat
    requires forall i :: 0 <= i < |s| ==> IsDigit(s[i])
  {
    if s == [] then 0
    else
      assert IsDigit(s[|s| - 1]);
      10 * DecimalValue(s[..|s| - 1]) + (s[|s| - 1] as int - '0' as int)
  }

  function ParseDecimal(s: string): Option<int> {
    if s != [] && s[0] == '-' then
      (if |s| > 1 && forall i :: 1 <= i < |s| ==> IsDigit(s[i]) then Some(0 - DecimalValue(s[1..]) as int) else None)
    else if s != [] && forall i :: 0 <= i < |s| ==> IsDigit(s[i]) then Some(DecimalValue(s))
    else None
  }

  function MonthIndexFrom(name: string, i: nat): Option<nat>
    requires i <= 12
    decreases 12 - i
  {
    if i == 12 then None
    else if MonthAbbreviations[i] == name then Some(i)
    else MonthIndexFrom(name, i + 1)
  }

  function ParseShortDate(s: string): Option<(nat, int)> {
    if |s| < 5 || s[3] != ' ' then None
    else match (MonthIndexFrom(s[..3], 0), ParseDecimal(s[4..]))
      case (Some(m), Some(y)) => Some((m, y))
      case _ => None
  }

  lemma {:induction false} NatToDecimalDigits(n: nat)
    ensures forall i :: 0 <= i < |NatToDecimal(n)| ==> IsDigit(NatToDecimal(n)[i])
    ensures DecimalValue(NatToDecimal(n)) == n
    decreases n
  {
    if n >= 10 {
      NatToDecimalDigits(n / 10);
      var r := NatToDecimal(n);
      assert r[..|r| - 1] == NatToDecimal(n / 10);
    }
  }

  lemma MonthNamesDistinct(m: nat)
    requires m < 12
    ensures MonthIndexFrom(MonthAbbreviations[m], 0) == Some(m)
  {
    var names := MonthAbbreviations;
    forall i | 0 <= i < 12 && i != m ensures names[i] != names[m] {
      assert names[i][0] != names[m][0] || names[i][1] != names[m][1] || names[i][2] != names[m][2];
    }
    MonthIndexFromFinds(names[m], 0, m);
  }

  lemma {:induction false} MonthIndexFromFinds(name: string, i: nat, m: nat)
    requires i <= m < 12
    requires MonthAbbreviations[m] == name
    requires forall j :: i <= j < 12 && j != m ==> MonthAbbreviations[j] != name
    ensures MonthIndexFrom(name, i) == Some(m)
    decreases 12 - i
  {
    if i < m { MonthIndexFromFinds(name, i + 1, m); }
  }

  lemma DecimalRoundTrip(n: int)
    ensures ParseDecimal(IntToDecimal(n)) == Some(n)
  {
    if n < 0 {
      NatToDecimalDigits(-n);
      assert IntToDecimal(n)[1..] == NatToDecimal(-n);
    } else {
      NatToDecimalDigits(n);
      assert IsDigit(IntToDecimal(n)[0]);
    }
  }

  lemma ShortDateLayout(month: nat, year: int)
    requires month < 12
    ensures var s := FormatShortDate(month, year);
      |s| >= 5 && s[..3] == MonthAbbreviations[month] && s[3] == ' ' && s[4..] == IntToDecimal(year)
  {
    var name := MonthAbbreviations[month];
    assert |name| == 3;
    var s := FormatShortDate(month, year);
    assert s == name + " " + IntToDecimal(year);
  }

  /** The short format loses nothing: the month index and the year can be
      read back from it. */
  lemma ShortDateRoundTrip(month: nat, year: int)
    requires month < 12
    ensures ParseShortDate(FormatShortDate(month, year)) == Some((month, year))
  {
    ShortDateLayout(month, year);
    MonthNamesDistinct(month);
    DecimalRoundTrip(year);
  }
}
