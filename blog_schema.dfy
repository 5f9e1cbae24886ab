/** `blogPostSchema`: the rules a blog post must meet before it is written,
    and the defaults the schema fills in. */
module BlogSchema {
  import opened Wrappers
  import opened Validation

  /** What a caller passes to `createBlogPost` / `updateBlogPost`. */
  datatype BlogInput = BlogInput(
    title: string,
    slug: string,
    excerpt: string,
    content: string,
    coverImage: Option<string>,
    tags: seq<string>,
    published: Option<bool>,
    featured: Option<bool>,
    readTime: Option<real>)

  /** What `blogPostSchema.parse` returns. */
  datatype BlogData = BlogData(
    title: string,
    slug: string,
    excerpt: string,
    content: string,
    coverImage: Option<string>,
    tags: seq<string>,
    published: bool,
    featured: bool,
    readTime: Option<int>)

  /** Every field rule of the schema. */
  predicate Accepts(i: BlogInput, isUrl: FormatCheck) {
    && LengthBetween(i.title, 1, 200)
    && SlugRule(i.slug)
    && MinLength(i.excerpt, 10)
    && MinLength(i.content, 50)
    && OptionalOrEmpty(i.coverImage, isUrl)
    && |i.tags| >= 1
    && (i.readTime.None? || IsInteger(i.readTime.value))
  }

  /** `blogPostSchema.parse`: `None` stands for the thrown validation error.
      An accepted post has a well-formed slug, at least 50 characters of
      content and at least one tag; `published` and `featured` default to
      false and a supplied `readTime` is integral. */
  function Parse(i: BlogInput, isUrl: FormatCheck): (r: Option<BlogData>)
    ensures r.Some? <==> Accepts(i, isUrl)
    ensures r.Some? ==> HyphenatedAlnum(r.value.slug) && 1 <= JsLength(r.value.slug) <= 200
    ensures r.Some? ==> JsLength(r.value.content) >= 50 && |r.value.tags| >= 1
    ensures r.Some? ==> r.value.published == i.published.GetOr(false)
    ensures r.Some? ==> r.value.featured == i.featured.GetOr(false)
    ensures r.Some? ==> r.value.coverImage == i.coverImage
    ensures r.Some? ==> r.value.title == i.title && r.value.slug == i.slug
    ensures r.Some? ==> r.value.excerpt == i.excerpt && r.value.content == i.content
    ensures r.Some? ==> r.value.tags == i.tags
    ensures r.Some? ==> (r.value.readTime.Some? <==> i.readTime.Some?)
    ensures r.Some? && i.readTime.Some? ==> r.value.readTime.value as real == i.readTime.value
  {
    if Accepts(i, isUrl) then
      SlugPatternCharacterised(i.slug);
      Some(BlogData(i.title, i.slug, i.excerpt, i.content, i.coverImage, i.tags,
                    i.published.GetOr(false), i.featured.GetOr(false),
                    if i.readTime.Some? then Some(i.readTime.value.Floor) else None))
    else None
  }

  function AsInput(d: BlogData): BlogInput {
    BlogInput(d.title, d.slug, d.excerpt, d.content, d.coverImage, d.tags,
              Some(d.published), Some(d.featured),
              if d.readTime.Some? then Some(d.readTime.value as real) else None)
  }

  /** Parsing is idempotent: validated data passes again, unchanged. */
  lemma ParseIdempotent(i: BlogInput, isUrl: FormatCheck)
    requires Parse(i, isUrl).Some?
    ensures Parse(AsInput(Parse(i, isUrl).value), isUrl) == Parse(i, isUrl)
  {
    var d := Parse(i, isUrl).value;
    if d.readTime.Some? {
      assert (d.readTime.value as real).Floor == d.readTime.value;
    }
  }

  /** An absent or empty cover image is accepted; `readTime` may be left
      out. */
  lemma OptionalFields(i: BlogInput, isUrl: FormatCheck)
    requires Accepts(i, isUrl)
    ensures Accepts(i.(coverImage := None), isUrl)
    ensures Accepts(i.(coverImage := Some("")), isUrl)
    ensures Accepts(i.(readTime := None), isUrl)
  {
  }
}
