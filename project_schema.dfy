/** `projectSchema`: the rules a project must meet before it is written, and
    the defaults the schema fills in. */
module ProjectSchema {
  import opened Wrappers
  import opened Validation

  /** What a caller passes to `createProject` / `updateProject`. Optional
      and defaulted fields may be absent; numbers are JavaScript numbers. */
  datatype ProjectInput = ProjectInput(
    title: string,
    slug: string,
    description: string,
    coverImage: string,
    tags: seq<string>,
    demoUrl: Option<string>,
    repoUrl: Option<string>,
    content: Option<string>,
    featured: Option<bool>,
    order: Option<real>,
    published: Option<bool>)

  /** What `projectSchema.parse` returns: defaults applied, `order` integral. */
  datatype ProjectData = ProjectData(
    title: string,
    slug: string,
    description: string,
    coverImage: string,
    tags: seq<string>,
    demoUrl: Option<string>,
    repoUrl: Option<string>,
    content: Option<string>,
    featured: bool,
    order: int,
    published: bool)

  /** Every field rule of the schema. */
  predicate Accepts(i: ProjectInput, isUrl: FormatCheck) {
    && LengthBetween(i.title, 1, 200)
    && SlugRule(i.slug)
    && MinLength(i.description, 10)
    && isUrl(i.coverImage)
    && |i.tags| >= 1
    && OptionalOrEmpty(i.demoUrl, isUrl)
    && OptionalOrEmpty(i.repoUrl, isUrl)
    && (i.order.None? || IsInteger(i.order.value))
  }

  /** `projectSchema.parse`: `None` stands for the thrown validation error. An
      accepted project has a well-formed slug, a non-empty cover image and at
      least one tag; `featured` and `published` default to false and `order`
      to 0. */
  function Parse(i: ProjectInput, isUrl: FormatCheck): (r: Option<ProjectData>)
    ensures r.Some? <==> Accepts(i, isUrl)
    ensures r.Some? ==> HyphenatedAlnum(r.value.slug) && 1 <= JsLength(r.value.slug) <= 200
    ensures r.Some? ==> r.value.coverImage != "" && |r.value.tags| >= 1
    ensures r.Some? ==> r.value.order as real == i.order.GetOr(0 as real)
    ensures r.Some? ==> r.value.featured == i.featured.GetOr(false)
    ensures r.Some? ==> r.value.published == i.published.GetOr(false)
    ensures r.Some? ==> r.value.demoUrl == i.demoUrl && r.value.repoUrl == i.repoUrl
    ensures r.Some? ==> r.value.title == i.title && r.value.slug == i.slug
    ensures r.Some? ==> r.value.description == i.description && r.value.coverImage == i.coverImage
    ensures r.Some? ==> r.value.tags == i.tags && r.value.content == i.content
  {
    if Accepts(i, isUrl) then
      SlugPatternCharacterised(i.slug);
      Some(ProjectData(i.title, i.slug, i.description, i.coverImage, i.tags,
                       i.demoUrl, i.repoUrl, i.content, i.featured.GetOr(false),
                       if i.order.Some? then i.order.value.Floor else 0,
                       i.published.GetOr(false)))
    else None
  }

  /** Validated data handed back to the schema, every defaulted field
      present. */
  function AsInput(d: ProjectData): ProjectInput {
    ProjectInput(d.title, d.slug, d.description, d.coverImage, d.tags, d.demoUrl,
                 d.repoUrl, d.content, Some(d.featured), Some(d.order as real), Some(d.published))
  }

  /** Parsing is idempotent: validated data passes again, unchanged. */
  lemma ParseIdempotent(i: ProjectInput, isUrl: FormatCheck)
    requires Parse(i, isUrl).Some?
    ensures Parse(AsInput(Parse(i, isUrl).value), isUrl) == Parse(i, isUrl)
  {
    var d := Parse(i, isUrl).value;
    assert (d.order as real).Floor == d.order;
  }

  /** An empty cover image is rejected, while empty demo and repository
      URLs are accepted as they are. */
  lemma EmptyUrls(i: ProjectInput, isUrl: FormatCheck)
    ensures i.coverImage == "" ==> Parse(i, isUrl).None?
    ensures Accepts(i, isUrl) && i.demoUrl == Some("") ==> Parse(i, isUrl).value.demoUrl == Some("")
    ensures Accepts(i, isUrl) && i.repoUrl == Some("") ==> Parse(i, isUrl).value.repoUrl == Some("")
  {
  }

  /** A non-integral `order` is rejected. */
  lemma FractionalOrderRejected(i: ProjectInput, isUrl: FormatCheck)
    requires i.order == Some(0.5)
    ensures Parse(i, isUrl).None?
  {
  }
}
