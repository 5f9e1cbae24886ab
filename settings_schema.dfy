/** `settingsSchema`: the rules the site settings must meet, and the default
    technology list. */
module SettingsSchema {
  import opened Wrappers
  import opened Validation

  /** The technology list used when none is given. */
  const DefaultTechStack: seq<string> :=
    ["Next.js", "React", "TypeScript", "Node.js", "PostgreSQL", "Prisma", "TailwindCSS", "GraphQL"]

  /** What a caller passes to `updateSettings`. */
  datatype SettingsInput = SettingsInput(
    name: string,
    tagline: string,
    bio: string,
    techStack: Option<seq<string>>,
    email: Option<string>,
    github: Option<string>,
    linkedin: Option<string>,
    twitter: Option<string>,
    location: Option<string>)

  /** What `settingsSchema.parse` returns. */
  datatype SettingsData = SettingsData(
    name: string,
    tagline: string,
    bio: string,
    techStack: seq<string>,
    email: Option<string>,
    github: Option<string>,
    linkedin: Option<string>,
    twitter: Option<string>,
    location: Option<string>)

  /** Every field rule of the schema; `location` is any string or absent. */
  predicate Accepts(i: SettingsInput, isUrl: FormatCheck, isEmail: FormatCheck) {
    && LengthBetween(i.name, 1, 100)
    && MinLength(i.tagline, 10)
    && MinLength(i.bio, 10)
    && OptionalOrEmpty(i.email, isEmail)
    && OptionalOrEmpty(i.github, isUrl)
    && OptionalOrEmpty(i.linkedin, isUrl)
    && OptionalOrEmpty(i.twitter, isUrl)
  }

  /** `settingsSchema.parse`: `None` stands for the thrown validation error.
      An absent technology list becomes the eight-entry default, a given one
      (even an empty one) is kept; every other field passes through. */
  function Parse(i: SettingsInput, isUrl: FormatCheck, isEmail: FormatCheck): (r: Option<SettingsData>)
    ensures r.Some? <==> Accepts(i, isUrl, isEmail)
    ensures r.Some? ==> r.value.techStack == (if i.techStack.Some? then i.techStack.value else DefaultTechStack)
    ensures r.Some? ==> |r.value.techStack| == if i.techStack.Some? then |i.techStack.value| else 8
    ensures r.Some? ==> r.value.email == i.email && r.value.github == i.github
    ensures r.Some? ==> r.value.linkedin == i.linkedin && r.value.twitter == i.twitter
    ensures r.Some? ==> 1 <= JsLength(r.value.name) <= 100
    ensures r.Some? ==> r.value.name == i.name && r.value.tagline == i.tagline
    ensures r.Some? ==> r.value.bio == i.bio && r.value.location == i.location
  {
    if Accepts(i, isUrl, isEmail) then
      Some(SettingsData(i.name, i.tagline, i.bio, i.techStack.GetOr(DefaultTechStack),
                        i.email, i.github, i.linkedin, i.twitter, i.location))
    else None
  }

  function AsInput(d: SettingsData): SettingsInput {
    SettingsInput(d.name, d.tagline, d.bio, Some(d.techStack), d.email, d.github,
                  d.linkedin, d.twitter, d.location)
  }

  /** Parsing is idempotent: validated settings pass again, unchanged. */
  lemma ParseIdempotent(i: SettingsInput, isUrl: FormatCheck, isEmail: FormatCheck)
    requires Parse(i, isUrl, isEmail).Some?
    ensures Parse(AsInput(Parse(i, isUrl, isEmail).value), isUrl, isEmail) == Parse(i, isUrl, isEmail)
  {
  }

  /** An explicitly empty technology list is accepted and kept empty. */
  lemma EmptyTechStackKept(i: SettingsInput, isUrl: FormatCheck, isEmail: FormatCheck)
    requires Accepts(i, isUrl, isEmail) && i.techStack == Some([])
    ensures Parse(i, isUrl, isEmail).Some? && Parse(i, isUrl, isEmail).value.techStack == []
  {
  }
}
