# Portfolio CMS core, modelled in Dafny

The portfolio site keeps four kinds of content: projects, blog posts,
experience entries and the site settings. It edits them through server
actions and admin forms. This project models the parts of it that carry
logic and proves what they guarantee:

- the string helpers in `src/lib/utils.ts`: `generateSlug`,
  `calculateReadTime`, and the short branch of `formatDate`
  (`utils.dfy`);
- the four Zod schemas, as acceptance predicates and parse functions that
  apply the schema defaults (`validation.dfy`, `*_schema.dfy`);
- the server actions, as classes holding the tables (`projects.dfy`,
  `blog.dfy`, `experiences.dfy`, `settings.dfy`):
  - each table is a `map` from ids to rows, with a counter handing out ids;
  - `now` stands for `new Date()`;
  - the paths passed to `revalidatePath` are recorded in a ghost sequence;
  - each action returns the `{ success, data | error }` shape (`Outcome`);
  - the queries are functions that filter and sort the rows (`sorting.dfy`);
- the admin forms, as classes holding the form values and the text of the
  list input boxes (`list_editing.dfy`, `*_form.dfy`).

Conventions:

- Characters are Unicode code points.
  - `\s` is the exact JavaScript whitespace set.
  - `\w` is exactly `[A-Za-z0-9_]`, as in JavaScript without the `u` flag; `toLowerCase` is its ASCII version.
  - Zod string lengths count UTF-16 code units (`JsLength`).
  - JavaScript numbers reaching `z.number().int()` are `real`s.
- URL and e-mail validity are abstract predicates (`FormatCheck`). The one
  thing assumed about them is that they reject the empty string.
- Dates are integer timestamps. What `z.coerce.date` makes of an input is
  one of five cases (`DateInput`).
- Prisma's `update` leaves a field alone when the data omits it, and
  `create` stores an omitted field as null. Both are modelled.

Where the code and its written description disagree, the model follows the
code:

- `generateSlug` keeps `_` and does not trim hyphens.
  - A title with a leading space gives a slug with a leading hyphen, which
    the slug pattern rejects (`LeadingSpaceExample`,
    `LeadingSpaceSlugRejected`).
- `publishedAt` is set to `now` on every save of a published item. It is
  not kept from the first publication.
- Only the experience form clears `endDate` when `current` is set. The
  server stores a current entry with an end date as given.
- A validation failure is reported as the action's generic message, not
  per field.
- The by-id lookups return a successful null for a missing id, not a
  not-found error.
- Settings e-mail and social fields are stored as given, so `""` stays
  `""`.

## Model

| member | source | states |
|---|---|---|
| Utils.Trim | src/lib/utils.ts:17 | The result has no leading or trailing whitespace, is empty exactly when the input is all whitespace, is the input itself when that is already trimmed, and uses only characters of the input |
| Utils.StripSpecial | src/lib/utils.ts:14 | The deletion step keeps only word characters, whitespace and `-` of the input and never lengthens it |
| Utils.StripSpecialSplits | src/lib/utils.ts:14 | The deletion distributes over concatenation; a single kept character survives and any other is dropped, so exactly the kept characters remain, in order |
| Utils.ReplaceRunsChars | src/lib/utils.ts:15-16 | After replacing runs, every character is the replacement or an input character outside the replaced class |
| Utils.ReplaceRunsNoAdjacent | src/lib/utils.ts:15-16 | After replacing runs, no two neighbouring characters belong to the replaced class |
| Utils.ReplaceRunsFixed | src/lib/utils.ts:15-16 | A string whose class members are already single replacement characters is left unchanged |
| Utils.GeneratedSlugShape | src/lib/utils.ts:11-18 | A slug uses only `a-z`, `0-9`, `_` and `-`, holds no whitespace, never has `--`, and is no longer than the title |
| Utils.TrimStepIsNoOp | src/lib/utils.ts:17 | The final `trim` never changes the slug, since no whitespace is left by then |
| Utils.SlugFixedPoint | src/lib/utils.ts:11-18 | A string of slug characters without `--` is its own slug |
| Utils.GenerateSlugIdempotent | src/lib/utils.ts:11-18 | Deriving a slug from a slug gives it back unchanged |
| Utils.LeadingSpaceGivesLeadingHyphen | src/lib/utils.ts:15-17 | A space before a slug-shaped word turns into a leading `-` that is not removed |
| Utils.LeadingSpaceExample | src/lib/utils.ts:11-18 | The title `" Hello"` gives the slug `"-hello"` |
| Utils.LowercasedTitleSameSlug | src/lib/utils.ts:13 | Lowercasing a title before deriving its slug changes nothing, since `toLowerCase` is idempotent |
| Utils.SplitPieces | src/lib/utils.ts:39 | The pieces of `split(/\s+/)` hold no whitespace and together are the input with its whitespace removed; on trimmed non-empty input no piece is empty and there is exactly one piece per maximal non-whitespace run (`RunCount`) |
| Utils.SplitCountsRuns | src/lib/utils.ts:39 | On trimmed non-empty input, the number of pieces equals an independent count of word starts |
| Utils.TrimKeepsRuns | src/lib/utils.ts:39 | `trim` removes no word: the count of word starts is the same before and after |
| Utils.WordCountIsRunCount | src/lib/utils.ts:39 | For content with a non-whitespace character, `content.trim().split(/\s+/).length` is the number of its whitespace-separated words |
| Utils.RemovedAroundGap | src/lib/utils.ts:39 | Removing whitespace from a word followed by a whitespace run keeps the word and drops the run |
| Utils.MinutesFor | src/lib/utils.ts:38-40 | `Math.ceil(words / 200)`: the least whole number of minutes at 200 words per minute |
| Utils.CalculateReadTime | src/lib/utils.ts:37-41 | The read time is at least 1 and is the ceiling of the word count over 200 |
| Utils.BlankContentReadsInOneMinute | src/lib/utils.ts:39-40 | Empty or all-whitespace content counts as one word and reads in one minute |
| Utils.MinutesMonotone | src/lib/utils.ts:40 | More words never give fewer minutes |
| Utils.ReadTimeExamples | src/lib/utils.ts:38-40 | 400 words give 2 minutes, 200 give 1, 201 give 2, 1 gives 1 |
| Utils.NatToDecimalDigits | src/lib/utils.ts:28 | The decimal rendering of a number uses only digits and reads back as that number |
| Utils.DecimalRoundTrip | src/lib/utils.ts:28 | The rendering of a year, negative ones included, parses back to the year |
| Utils.MonthNamesDistinct | src/lib/utils.ts:27 | Each month abbreviation is found at its own index and nowhere earlier |
| Utils.ShortDateLayout | src/lib/utils.ts:26-28 | The short date is the three-letter month, one space, then the year |
| Utils.ShortDateRoundTrip | src/lib/utils.ts:26-28 | The month index and the year can both be read back from the short date |
| Validation.JsLength | src/schemas/project.schema.ts:4 | A string's UTF-16 length lies between its code-point count and twice that |
| Validation.EmptyToNull | src/actions/projects.ts:29-30 | `value \|\| null`: present exactly when the value is present and non-empty, and then unchanged |
| Validation.SlugPatternCharacterised | src/schemas/project.schema.ts:9 | The slug regex matches exactly the non-empty strings of `[a-z0-9-]` that neither begin nor end with `-` and have no `--` |
| Validation.MatchImpliesShape | src/schemas/project.schema.ts:9 | Every match of the regex has that shape |
| Validation.ShapeImpliesMatch | src/schemas/project.schema.ts:9 | Every string of that shape matches the regex |
| Validation.DerivedSlugAccepted | src/lib/utils.ts:11-18 | A derived slug passes the slug regex exactly when it is non-empty, has no `_` and neither begins nor ends with `-` |
| Validation.LeadingSpaceSlugRejected | src/schemas/project.schema.ts:5-9 | The slug derived from `" Hello"` fails the slug regex |
| ProjectSchema.Parse | src/schemas/project.schema.ts:3-19 | Accepts exactly the inputs meeting every rule; accepted data has a well-formed slug of 1..200 units, a non-empty cover image and a tag; `featured`/`published` default to false and `order` to 0; every other field (title, slug, description, cover image, tags, content, both URLs) passes through unchanged |
| ProjectSchema.ParseIdempotent | src/schemas/project.schema.ts:3-19 | Validated data validates again to itself |
| ProjectSchema.EmptyUrls | src/schemas/project.schema.ts:11-14 | An empty cover image is rejected; empty demo and repository URLs are accepted as `""` |
| ProjectSchema.FractionalOrderRejected | src/schemas/project.schema.ts:17 | A non-integral `order` is rejected |
| BlogSchema.Parse | src/schemas/blog.schema.ts:3-17 | Accepts exactly the inputs meeting every rule; accepted data has a well-formed slug, at least 50 units of content and a tag; booleans default to false; a given `readTime` is integral; title, slug, excerpt, content, tags and cover image pass through unchanged |
| BlogSchema.ParseIdempotent | src/schemas/blog.schema.ts:3-17 | Validated data validates again to itself |
| BlogSchema.OptionalFields | src/schemas/blog.schema.ts:12-16 | An absent or empty cover image and an absent read time are accepted |
| ExperienceSchema.ParseType | src/schemas/experience.schema.ts:4-6 | Accepts exactly the names `work`, `education`, `volunteer`, giving the kind so named |
| ExperienceSchema.TypeNameRoundTrip | src/schemas/experience.schema.ts:4-6 | Every kind's name parses back to that kind |
| ExperienceSchema.CoerceDate | src/schemas/experience.schema.ts:12 | `z.coerce.date` on a start date: a parsed date gives its time and `null` gives the epoch; absent, empty and unparseable inputs are rejected |
| ExperienceSchema.ParseEndDate | src/schemas/experience.schema.ts:13-16 | `null` stays null; `""` and `undefined` become undefined; a date gives its time; only an unparseable value is rejected |
| ExperienceSchema.Parse | src/schemas/experience.schema.ts:3-19 | Accepts exactly the inputs meeting every rule; `skills` defaults to `[]`, `current` to false and `order` to 0; both dates are coerced as above; title, company, location and description pass through unchanged |
| ExperienceSchema.ParseIdempotent | src/schemas/experience.schema.ts:3-19 | Validated data validates again to itself |
| ExperienceSchema.CurrentWithEndDateAccepted | src/schemas/experience.schema.ts:3-19 | A current entry with an end date is accepted, and both are kept |
| ExperienceSchema.SkillsDefault | src/schemas/experience.schema.ts:11 | Absent skills become `[]` and an empty list is accepted |
| SettingsSchema.Parse | src/schemas/settings.schema.ts:3-13 | Accepts exactly the inputs meeting every rule; an absent tech stack becomes the eight-entry default and a given one is kept; name, tagline, bio, location, e-mail and social fields pass through unchanged |
| SettingsSchema.ParseIdempotent | src/schemas/settings.schema.ts:3-13 | Validated settings validate again to themselves |
| SettingsSchema.EmptyTechStackKept | src/schemas/settings.schema.ts:7 | An explicitly empty tech stack is accepted and stays empty |
| Sorting.Filter | src/actions/projects.ts:141-142 | A `where` keeps only matching records and never lengthens the list |
| Sorting.FilterMembers | src/actions/projects.ts:141-142 | A record is kept exactly when it is in the list and matches |
| Sorting.FilterCount | src/actions/projects.ts:141-142 | A matching record is kept as often as it occurs; others never |
| Sorting.SortBy | src/actions/projects.ts:126 | `orderBy` yields a list sorted by the key and holding the same records, each as often |
| Sorting.FilterSortCommute | src/actions/experience.ts:106-108 | Filtering then sorting gives the same list as sorting then filtering |
| Sorting.ListingCount | src/actions/projects.ts:125 | Listing the table gives every stored row once and nothing else |
| Projects.NewProject | src/actions/projects.ts:26-33 | A created row has the given id and `createdAt = now`; each URL is `EmptyToNull` of the validated one; title, slug, description, content, cover image, tags, featured, order and published are the validated values; the publication time is `now` exactly when published |
| Projects.UpdatedProject | src/actions/projects.ts:64-72 | An updated row keeps id and creation time and keeps content when none is given; each URL is `EmptyToNull` of the validated one; title, slug, description, cover image, tags, featured, order and published are the validated values; the publication time is `now` on every published save and null otherwise |
| Projects.WriteKeepsTable | src/actions/projects.ts:17-33 | Writing a row whose slug no other row holds keeps slugs unique and the table well-formed |
| Projects.RemovalKeepsTable | src/actions/projects.ts:88-101 | Deleting a row keeps the table well-formed |
| Projects.ProjectStore.Create | src/actions/projects.ts:11-43 | Invalid data and a taken slug each fail with their message and change nothing; otherwise exactly one new row is added and slugs stay unique |
| Projects.ProjectStore.Update | src/actions/projects.ts:48-83 | Validation, then the slug check excluding the row itself, then the id lookup; a failure changes nothing; success replaces only row `id` and keeps slugs unique |
| Projects.ProjectStore.Delete | src/actions/projects.ts:88-102 | Removes exactly row `id`; a missing id fails and changes nothing |
| Projects.ProjectStore.ById | src/actions/projects.ts:107-118 | The stored row with that id, or null when there is none |
| Projects.ProjectStore.All | src/actions/projects.ts:123-134 | Every project exactly once, by `order` ascending, then newest first |
| Projects.ProjectStore.Published | src/actions/projects.ts:139-151 | Exactly the published projects, each once, by `order` ascending, then latest publication first |
| Projects.ProjectStore.BySlug | src/actions/projects.ts:156-174 | A stored published project with that slug; "Project not found" exactly when there is none |
| Blog.NewPost | src/actions/blog.ts:24-31 | A created post has the read time computed from its content, zero views, the cover image as `EmptyToNull` of the validated one, title, slug, excerpt, content, tags, featured and published as validated, and a publication time of `now` exactly when published |
| Blog.UpdatedPost | src/actions/blog.ts:62-70 | An updated post keeps id, creation time and views, gets a recomputed read time, takes title, slug, excerpt, content, tags, featured and published as validated and the cover image as `EmptyToNull` of it, and gets a publication time of `now` on every published save and null otherwise |
| Blog.Viewed | src/actions/blog.ts:156-161 | The view count goes up by one and nothing else changes |
| Blog.WriteKeepsTable | src/actions/blog.ts:16-31 | Writing a post whose slug no other post holds keeps slugs unique and the table well-formed |
| Blog.RemovalKeepsTable | src/actions/blog.ts:86-99 | Deleting a post keeps the table well-formed |
| Blog.PostStore.Create | src/actions/blog.ts:11-41 | Invalid data and a taken slug each fail with their message and change nothing; otherwise exactly one post is added, its read time the computed one |
| Blog.PostStore.Update | src/actions/blog.ts:46-81 | The slug check excludes the post itself; a failure changes nothing; success replaces only post `id` |
| Blog.PostStore.Delete | src/actions/blog.ts:86-100 | Removes exactly post `id`; a missing id fails and changes nothing |
| Blog.PostStore.IncrementViews | src/actions/blog.ts:154-168 | Succeeds exactly when some post holds the slug, and then adds one view to it alone; otherwise fails and creates nothing |
| Blog.PostStore.ById | src/actions/blog.ts:105-116 | The stored post with that id, or null when there is none |
| Blog.PostStore.All | src/actions/blog.ts:121-132 | Every post exactly once, newest first |
| Blog.PostStore.Published | src/actions/blog.ts:137-149 | Exactly the published posts, each once, latest publication first |
| Experiences.CreatedEndDate | src/actions/experience.ts:14-16 | A created row has an end date exactly when one was given |
| Experiences.NewExperience | src/actions/experience.ts:14-16 | The created row is the validated input: kind, title, company, location, description, skills, start date, `current` and order as validated, and the end date as given (absent becomes null), with no clearing |
| Experiences.UpdatedExperience | src/actions/experience.ts:35-38 | The id is kept; kind, title, company, skills, start date, `current` and order are the validated values; absent location, description or end date keep the stored value; a null end date clears it |
| Experiences.ExperienceStore.Create | src/actions/experience.ts:10-26 | No uniqueness check: valid input adds exactly one row; invalid input fails and changes nothing |
| Experiences.ExperienceStore.Update | src/actions/experience.ts:31-48 | Replaces only row `id`; invalid input or a missing id fails and changes nothing |
| Experiences.ExperienceStore.Delete | src/actions/experience.ts:53-67 | Removes exactly row `id`; a missing id fails and changes nothing |
| Experiences.ExperienceStore.ById | src/actions/experience.ts:72-83 | The stored row with that id, or null when there is none |
| Experiences.ExperienceStore.All | src/actions/experience.ts:88-99 | Every row exactly once, by `order` ascending, then latest start first |
| Experiences.ExperienceStore.ByType | src/actions/experience.ts:104-116 | Exactly the rows of that kind, each once, in the order of the full listing |
| Experiences.UnknownTypeMatchesNothing | src/actions/experience.ts:104-109 | A kind name outside the enum selects no row |
| Experiences.CurrentKeepsEndDate | src/actions/experience.ts:14-16 | A current entry given an end date is stored with it |
| Settings.CreatedSettings | src/actions/settings.ts:44-50 | The created row has id `"default"` and exactly the validated name, tagline, bio, tech stack, e-mail, social links and location; an empty string stays an empty string |
| Settings.Overwrite | src/actions/settings.ts:52-55 | A present value, `""` included, replaces the stored one; an absent one keeps it |
| Settings.UpdatedSettings | src/actions/settings.ts:51-56 | The found row keeps its id and takes the validated name, tagline, bio and tech stack; each optional field is overwritten when given and kept when absent |
| Settings.SettingsStore.FindFirst | src/actions/settings.ts:12 | Some stored row, or null exactly when the table is empty |
| Settings.SettingsStore.Get | src/actions/settings.ts:10-32 | On an empty table creates and returns the default row; otherwise returns a stored row and changes nothing; the table never holds more than one row |
| Settings.SettingsStore.Update | src/actions/settings.ts:37-70 | Invalid input fails and changes nothing; on an empty table creates the `"default"` row from the input; otherwise updates the row found under its own id, keeping the row count |
| ListEditing.AddEntry | src/components/admin/ProjectForm.tsx:77-82 | A trimmed, non-blank, unlisted entry is appended and the box cleared; otherwise nothing changes; a duplicate-free list stays duplicate-free |
| ListEditing.RemoveAllCounts | src/components/admin/ProjectForm.tsx:85-90 | Removal drops every copy of the entry and keeps every other element as often as before |
| ListEditing.RemoveAllNoDuplicates | src/components/admin/ProjectForm.tsx:85-90 | Removal keeps a list free of duplicates |
| ListEditing.RemoveUndoesAdd | src/components/admin/ProjectForm.tsx:77-90 | Removing the entry just added gives back the earlier list |
| ListEditing.RemoveMissing | src/components/admin/ProjectForm.tsx:85-90 | Removing an entry that is not listed changes nothing |
| ProjectForm.CreateDefaults | src/components/admin/ProjectForm.tsx:50-62 | A blank form has no tags, an empty title and slug, booleans false and order 0 |
| ProjectForm.EditDefaults | src/components/admin/ProjectForm.tsx:37-49 | Null demo URL, repository URL and content are shown as `""` |
| ProjectForm.ResubmitUnchanged | src/components/admin/ProjectForm.tsx:43-45 | Saving an untouched edit form rewrites the project as it was, except that null content becomes `""` and the publication time is reset |
| ProjectForm.ResubmitFillsContent | src/components/admin/ProjectForm.tsx:45 | For a project without content, that round trip is not the identity |
| ProjectForm.Form.constructor | src/components/admin/ProjectForm.tsx:36-62 | Edit defaults for a given project, otherwise blank values; an empty tag box |
| ProjectForm.Form.ChangeTitle | src/components/admin/ProjectForm.tsx:69-74 | The slug becomes the title's slug in create mode and is untouched in edit mode |
| ProjectForm.Form.ChangeTagInput | src/components/admin/ProjectForm.tsx:226-228 | The tag box's `onChange`: only the box's text changes; the tag list and the form values are kept |
| ProjectForm.Form.AddTag | src/components/admin/ProjectForm.tsx:77-82 | The tag list and box change as `AddEntry` says; nothing else changes; no duplicates are introduced |
| ProjectForm.Form.RemoveTag | src/components/admin/ProjectForm.tsx:85-90 | Every copy of the tag is removed and the rest keep their order |
| BlogForm.CreateDefaults | src/components/admin/BlogForm.tsx:47-56 | A blank form has no tags, an empty title and slug, and no read time |
| BlogForm.EditDefaults | src/components/admin/BlogForm.tsx:37-46 | A null cover image is shown as `""` |
| BlogForm.ResubmitUnchanged | src/components/admin/BlogForm.tsx:42 | Saving an untouched edit form rewrites the post as it was except for the publication time |
| BlogForm.Form.constructor | src/components/admin/BlogForm.tsx:36-56 | Edit defaults for a given post, otherwise blank values |
| BlogForm.Form.ChangeTitle | src/components/admin/BlogForm.tsx:63-68 | The slug follows the title only in create mode |
| BlogForm.Form.ChangeTagInput | src/components/admin/BlogForm.tsx:203-205 | The tag box's `onChange`: only the box's text changes; the tag list and the form values are kept |
| BlogForm.Form.AddTag | src/components/admin/BlogForm.tsx:71-76 | The tag list and box change as `AddEntry` says; no duplicates are introduced |
| BlogForm.Form.RemoveTag | src/components/admin/BlogForm.tsx:79-84 | Every copy of the tag is removed and the rest keep their order |
| ExperienceForm.CreateDefaults | src/components/admin/ExperienceForm.tsx:48-59 | Kind `work`, no skills, not current, order 0, no end date, started now |
| ExperienceForm.EditDefaults | src/components/admin/ExperienceForm.tsx:36-47 | Null location and description are shown as `""`; a missing end date as null |
| ExperienceForm.ClearIfCurrent | src/components/admin/ExperienceForm.tsx:66-70 | After the effect a checked `current` goes with a null end date, and nothing else changes |
| ExperienceForm.CurrentSubmitsNoEndDate | src/components/admin/ExperienceForm.tsx:66-70 | A submitted current entry is written without an end date on create and on update |
| ExperienceForm.ResubmitUnchanged | src/components/admin/ExperienceForm.tsx:36-47 | Saving an untouched edit form rewrites the entry as it was, except that null texts become `""` and a current entry loses its end date |
| ExperienceForm.Form.constructor | src/components/admin/ExperienceForm.tsx:36-70 | The defaults with the effect applied once |
| ExperienceForm.Form.SetCurrent | src/components/admin/ExperienceForm.tsx:66-70 | Checking `current` nulls the end date; the effect's invariant is kept |
| ExperienceForm.Form.SetEndDate | src/components/admin/ExperienceForm.tsx:270 | The end date can only change while `current` is unchecked |
| ExperienceForm.Form.ChangeSkillInput | src/components/admin/ExperienceForm.tsx:203-205 | The skill box's `onChange`: only the box's text changes; the skill list and the form values are kept, and the end-date effect still holds |
| ExperienceForm.Form.AddSkill | src/components/admin/ExperienceForm.tsx:73-78 | The skill list and box change as `AddEntry` says; no duplicates are introduced |
| ExperienceForm.Form.RemoveSkill | src/components/admin/ExperienceForm.tsx:81-86 | Every copy of the skill is removed and the rest keep their order |
| SettingsForm.Defaults | src/components/admin/SettingsForm.tsx:36-46 | Null e-mail, social links and location are shown as `""` |
| SettingsForm.ResubmitUnchanged | src/components/admin/SettingsForm.tsx:36-46 | Saving the untouched form turns every null e-mail, social link and location into `""` |
| SettingsForm.Form.constructor | src/components/admin/SettingsForm.tsx:26-46 | The two copies of the tech stack start equal |
| SettingsForm.Form.ChangeNewTech | src/components/admin/SettingsForm.tsx:171-173 | The technology box's `onChange`: only the box's text changes; both copies of the list and the form values are kept and stay equal |
| SettingsForm.Form.AddTech | src/components/admin/SettingsForm.tsx:49-57 | Both copies get the trimmed, non-blank, unlisted entry and stay equal, and the box is cleared; otherwise nothing changes |
| SettingsForm.Form.RemoveTech | src/components/admin/SettingsForm.tsx:59-63 | Both copies lose every copy of the entry and stay equal |
| SettingsForm.Form.HandleKeyDown | src/components/admin/SettingsForm.tsx:65-70 | Enter adds the entry; any other key leaves the list and box alone |
| SettingsForm.Form.Submit | src/components/admin/SettingsForm.tsx:72-80 | An invalid form is not sent and leaves the table and the revalidated paths alone; otherwise the validated values with the component's tech stack are sent, the saved row is `CreatedSettings` of them on an empty table or `UpdatedSettings` of the stored row otherwise, it holds exactly that tech list, only that row changes, and the settings paths are revalidated |

## Left out

- Unicode case mapping: `toLowerCase` is modelled on ASCII letters only. (`\w` without the `u` flag is exactly `[A-Za-z0-9_]`, so it is modelled exactly.)
- Utils.GeneratedSlugShape: the bound "no longer than the title" holds only under the ASCII model of `toLowerCase`. Full Unicode lowercasing can lengthen a string.
- URL and e-mail validity, and the parsing inside `z.coerce.date`: these are library semantics. They are abstract checks and a five-way `DateInput`.
- The long branch of `formatDate` (`toLocaleDateString`) and the conversion of a `Date` to a month and a year: locale and clock behaviour. `FormatShortDate` takes the month index and the year.
- Database failures other than a missing id (lost connection, unique-index violations): the model has no database. This includes the "Failed to fetch …" messages of the queries.
- The slug check and the write are one atomic step in the model, so it does not capture two concurrent creates racing on a slug.
- Prisma's cuid ids are a counter.
- Ties in an `orderBy` after the named keys are broken by id order. The database leaves that order unspecified.
- `updatedAt` and any column the actions never write (such as a profile image) are not part of the rows: the Prisma schema is not part of this model.
- `revalidatePath` is recorded as a ghost sequence of paths; the cache itself is not modelled.
- Form rendering, error display, the `isSubmitting` flag, navigation after a save, and the project, blog and experience forms' `onSubmit` dispatch to the actions.
- ExperienceForm.Form.SetEndDate: how react-hook-form treats a disabled input's value on submit is library behaviour. The model keeps the value the effect set.
- The Enter key handlers of the project, blog and experience tag and skill boxes: they call the same `addTag`/`addSkill` that is modelled.
