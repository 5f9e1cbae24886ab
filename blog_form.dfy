/** The state of the admin blog form: the field values, the tag input box,
    and the handlers that change them. */
module BlogForm {
  import opened Wrappers
  import opened Utils
  import opened Validation
  import opened ListEditing
  import opened BlogSchema
  import opened Blog

  /** The values of a blank form; it carries no read time. */
  function CreateDefaults(): (i: BlogInput)
    ensures i.tags == [] && i.title == "" && i.slug == "" && i.readTime.None?
    ensures i.published == Some(false) && i.featured == Some(false)
  {
    BlogInput("", "", "", "", Some(""), [], Some(false), Some(false), None)
  }

  /** The values of a form opened on a stored post: a null cover image is
      shown as the empty string. The read time is not part of the form. */
  function EditDefaults(p: Post): (i: BlogInput)
    ensures i.coverImage == Some(p.coverImage.GetOr(""))
    ensures i.slug == p.slug && i.content == p.content && i.tags == p.tags && i.readTime.None?
  {
    BlogInput(p.title, p.slug, p.excerpt, p.content, Some(p.coverImage.GetOr("")), p.tags,
              Some(p.published), Some(p.featured), None)
  }

  /** Saving an edit form without touching it writes the post back as it
      was except for the publication time, which is reset: the null cover
      image shown as "" is stored as null again, and the read time computed
      from the unchanged content is the stored one. */
  lemma ResubmitUnchanged(p: Post, isUrl: FormatCheck, now: int)
    requires RowOk(p) && Accepts(EditDefaults(p), isUrl)
    ensures UpdatedPost(p, Parse(EditDefaults(p), isUrl).value, now)
            == p.(publishedAt := if p.published then Some(now) else None)
  {
  }

  class Form {
    const mode: Mode
    var values: BlogInput
    var tagInput: string

    /** The form opened in `mode`, on `post` when one is given. */
    constructor (mode: Mode, post: Option<Post>)
      ensures this.mode == mode && tagInput == ""
      ensures values == if post.Some? then EditDefaults(post.value) else CreateDefaults()
    {
      this.mode := mode;
      values := if post.Some? then EditDefaults(post.value) else CreateDefaults();
      tagInput := "";
    }

    /** Typing in the title: only in create mode does the slug follow it. */
    method ChangeTitle(newTitle: string)
      modifies this
      ensures mode == Create ==> values == old(values).(title := newTitle, slug := GenerateSlug(newTitle))
      ensures mode == Edit ==> values == old(values).(title := newTitle)
      ensures tagInput == old(tagInput)
    {
      values := values.(title := newTitle);
      if mode == Create {
        values := values.(slug := GenerateSlug(newTitle));
      }
    }

    /** Typing in the tag input box. */
    method ChangeTagInput(text: string)
      modifies this
      ensures tagInput == text && values == old(values)
    {
      tagInput := text;
    }

    /** `addTag`. */
    method AddTag()
      modifies this
      ensures (values.tags, tagInput) == AddEntry(old(values.tags), old(tagInput))
      ensures values == old(values).(tags := values.tags)
      ensures NoDuplicates(old(values.tags)) ==> NoDuplicates(values.tags)
    {
      var (tags, input) := AddEntry(values.tags, tagInput);
      values := values.(tags := tags);
      tagInput := input;
    }

    /** `removeTag`: drops every copy of `tag`. */
    method RemoveTag(tag: string)
      modifies this
      ensures values == old(values).(tags := RemoveAll(old(values.tags), tag))
      ensures tagInput == old(tagInput)
      ensures NoDuplicates(old(values.tags)) ==> NoDuplicates(values.tags)
    {
      if NoDuplicates(values.tags) { RemoveAllNoDuplicates(values.tags, tag); }
      values := values.(tags := RemoveAll(values.tags, tag));
    }
  }
}
