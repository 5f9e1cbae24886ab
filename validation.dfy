/** The Zod building blocks the four form schemas are made of: string length
    bounds, the slug pattern, integral numbers and "a valid URL/email, or the
    empty string, or absent" fields. */
module Validation {
  import opened Wrappers
  import opened Utils

  /** A URL or e-mail check of the validation library, kept abstract; the one
      thing the model relies on is that it rejects the empty string (an empty
      string is neither an absolute URL nor an address). */
  type FormatCheck = f: string -> bool | !f("") witness (s: string) => false

  /** `.length` of a JavaScript string: characters outside the Basic
      Multilingual Plane take two UTF-16 code units. */
  function JsLength(s: string): (n: nat)
    ensures |s| <= n <= 2 * |s|
  {
    if s == [] then 0 else (if s[0] as int >= 0x10000 then 2 else 1) + JsLength(s[1..])
  }

  /** `.min(lo)` and `.max(hi)` on a string. */
  predicate LengthBetween(s: string, lo: nat, hi: nat) {
    lo <= JsLength(s) <= hi
  }

  predicate MinLength(s: string, lo: nat) {
    lo <= JsLength(s)
  }

  /** `z.number().int()`: a finite number without a fractional part. */
  predicate IsInteger(x: real) {
    x == x.Floor as real
  }

  /** `z.string().<check>().optional().or(z.literal(""))` */
  predicate OptionalOrEmpty(o: Option<string>, check: FormatCheck) {
    match o
    case None => true
    case Some(v) => v == "" || check(v)
  }

  /** `value || null` on an optional string, as the actions write optional
      URL fields: the empty string and an absent value are both stored as
      null, anything else as given. */
  function EmptyToNull(o: Option<string>): (r: Option<string>)
    ensures r.Some? <==> o.Some? && o.value != ""
    ensures r.Some? ==> r == o
  {
    if o.Some? && o.value != "" then o else None
  }

  // ------------------------------------------------------------------
  // The slug pattern ^[a-z0-9]+(?:-[a-z0-9]+)*$
  // ------------------------------------------------------------------

  /** The pattern read as the regular expression does: one non-empty group of
      `[a-z0-9]`, then either the end or a `-` and the pattern again. */
  predicate MatchesSlugPattern(s: string)
    decreases |s|
  {
    var k := Span(s, IsLowerAlnum);
    k >= 1 && (k == |s| || (s[k] == '-' && MatchesSlugPattern(s[k + 1..])))
  }

  predicate IsSlugPatternChar(c: char) { IsLowerAlnum(c) || c == '-' }

  predicate AllPatternChars(s: string) {
    forall i :: 0 <= i < |s| ==> IsSlugPatternChar(s[i])
  }

  /** The pattern described character by character. */
  predicate HyphenatedAlnum(s: string) {
    && s != []
    && AllPatternChars(s)
    && s[0] != '-'
    && s[|s| - 1] != '-'
    && NoAdjacent(s, IsHyphen)
  }

  /** A pattern match is non-empty, has only `[a-z0-9-]`, neither begins nor
      ends with `-` and has no `--`; and every such string matches. */
  lemma SlugPatternCharacterised(s: string)
    ensures MatchesSlugPattern(s) <==> HyphenatedAlnum(s)
  {
    if MatchesSlugPattern(s) { MatchImpliesShape(s); }
    if HyphenatedAlnum(s) { ShapeImpliesMatch(s); }
  }

  lemma {:induction false} MatchImpliesShape(s: string)
    requires MatchesSlugPattern(s)
    ensures HyphenatedAlnum(s)
    decreases |s|
  {
    var k := Span(s, IsLowerAlnum);
    if k < |s| {
      var t := s[k + 1..];
      MatchImpliesShape(t);
      GroupThenRest(s, k);
    }
  }

  /** Gluing one group, a hyphen and a well-formed rest. */
  lemma GroupThenRest(s: string, k: nat)
    requires 1 <= k < |s|
    requires forall i :: 0 <= i < k ==> IsLowerAlnum(s[i])
    requires s[k] == '-'
    requires HyphenatedAlnum(s[k + 1..])
    ensures HyphenatedAlnum(s)
  {
    var t := s[k + 1..];
    assert s[|s| - 1] == t[|t| - 1];
    forall i | 0 <= i < |s| ensures IsSlugPatternChar(s[i]) {
      if i > k { assert s[i] == t[i - k - 1]; }
    }
    forall i | 0 <= i < |s| - 1 ensures !(IsHyphen(s[i]) && IsHyphen(s[i + 1])) {
      if i > k { assert s[i] == t[i - k - 1] && s[i + 1] == t[i - k]; }
      if i == k { assert s[i + 1] == t[0]; }
    }
  }

  lemma {:induction false} ShapeImpliesMatch(s: string)
    requires HyphenatedAlnum(s)
    ensures MatchesSlugPattern(s)
    decreases |s|
  {
    var k := Span(s, IsLowerAlnum);
    assert IsLowerAlnum(s[0]);
    if k < |s| {
      assert s[k] == '-' by { assert IsSlugPatternChar(s[k]); }
      assert k < |s| - 1;
      var t := s[k + 1..];
      RestAfterGroup(s, k);
      ShapeImpliesMatch(t);
    }
  }

  lemma RestAfterGroup(s: string, k: nat)
    requires HyphenatedAlnum(s)
    requires 1 <= k < |s| - 1 && s[k] == '-'
    ensures HyphenatedAlnum(s[k + 1..])
  {
    var t := s[k + 1..];
    assert t[0] == s[k + 1];
    assert !(IsHyphen(s[k]) && IsHyphen(s[k + 1]));
    assert t[|t| - 1] == s[|s| - 1];
    forall i | 0 <= i < |t| ensures IsSlugPatternChar(t[i]) {
      assert t[i] == s[k + 1 + i];
    }
    forall i | 0 <= i < |t| - 1 ensures !(IsHyphen(t[i]) && IsHyphen(t[i + 1])) {
      assert t[i] == s[k + 1 + i] && t[i + 1] == s[k + 2 + i];
    }
  }

  /** The slug rule shared by projects and blog posts: 1 to 200 characters
      and the hyphenated-alphanumeric pattern. */
  predicate SlugRule(s: string) {
    LengthBetween(s, 1, 200) && MatchesSlugPattern(s)
  }

  // ------------------------------------------------------------------
  // Derived slugs against the pattern
  // ------------------------------------------------------------------

  /** A slug derived from a title passes the pattern exactly when it is
      non-empty, holds no `_` and neither begins nor ends with `-`: the
      derivation alone does not guarantee those three. */
  lemma DerivedSlugAccepted(title: string)
    ensures var slug := GenerateSlug(title);
            MatchesSlugPattern(slug) <==>
              slug != [] && '_' !in slug && slug[0] != '-' && slug[|slug| - 1] != '-'
  {
    var slug := GenerateSlug(title);
    GeneratedSlugShape(title);
    SlugPatternCharacterised(slug);
    if '_' !in slug {
      forall i | 0 <= i < |slug| ensures IsSlugPatternChar(slug[i]) {
        assert slug[i] in slug;
        assert IsSlugChar(slug[i]);
      }
    }
  }

  /** The title " Hello" derives the slug "-hello", which the pattern
      rejects. */
  lemma LeadingSpaceSlugRejected(title: string)
    requires title == " Hello"
    ensures !MatchesSlugPattern(GenerateSlug(title))
  {
    LeadingSpaceExample(title);
    SlugPatternCharacterised(GenerateSlug(title));
  }
}
