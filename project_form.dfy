/** The state of the admin project form: the field values the form holds,
    the tag input box, and the handlers that change them. */
module ProjectForm {
  import opened Wrappers
  import opened Utils
  import opened Validation
  import opened ListEditing
  import opened ProjectSchema
  import opened Projects

  /** The values of a blank form. */
  function CreateDefaults(): (i: ProjectInput)
    ensures i.tags == [] && i.title == "" && i.slug == ""
    ensures i.featured == Some(false) && i.published == Some(false) && i.order == Some(0.0)
  {
    ProjectInput("", "", "", "", [], Some(""), Some(""), Some(""), Some(false), Some(0.0), Some(false))
  }

  /** The values of a form opened on a stored project: a null demo URL,
      repository URL or content is shown as the empty string, so every one
      of them is present when the form is submitted. */
  function EditDefaults(p: Project): (i: ProjectInput)
    ensures i.demoUrl == Some(p.demoUrl.GetOr("")) && i.repoUrl == Some(p.repoUrl.GetOr(""))
    ensures i.content == Some(p.content.GetOr(""))
    ensures i.slug == p.slug && i.tags == p.tags && i.order == Some(p.order as real)
  {
    ProjectInput(p.title, p.slug, p.description, p.coverImage, p.tags,
                 Some(p.demoUrl.GetOr("")), Some(p.repoUrl.GetOr("")), Some(p.content.GetOr("")),
                 Some(p.featured), Some(p.order as real), Some(p.published))
  }

  /** Saving an edit form without touching it writes the project back as it
      was, except that a null content becomes the empty string and the
      publication time is reset. Null URLs survive the round trip, because
      the empty strings the form shows for them are stored as null again. */
  lemma ResubmitUnchanged(p: Project, isUrl: FormatCheck, now: int)
    requires RowOk(p) && Accepts(EditDefaults(p), isUrl)
    ensures UpdatedProject(p, Parse(EditDefaults(p), isUrl).value, now)
            == p.(content := Some(p.content.GetOr("")),
                  publishedAt := if p.published then Some(now) else None)
  {
    var d := Parse(EditDefaults(p), isUrl).value;
    assert (p.order as real).Floor == p.order;
    assert d.order == p.order;
  }

  /** A project with a null content that is resubmitted unchanged now holds
      the empty string: the round trip is not the identity. */
  lemma ResubmitFillsContent(p: Project, isUrl: FormatCheck, now: int)
    requires RowOk(p) && Accepts(EditDefaults(p), isUrl) && p.content.None?
    ensures UpdatedProject(p, Parse(EditDefaults(p), isUrl).value, now).content == Some("")
    ensures UpdatedProject(p, Parse(EditDefaults(p), isUrl).value, now) != p
  {
    ResubmitUnchanged(p, isUrl, now);
  }

  class Form {
    const mode: Mode
    var values: ProjectInput
    var tagInput: string

    /** The form opened in `mode`, on `project` when one is given. */
    constructor (mode: Mode, project: Option<Project>)
      ensures this.mode == mode && tagInput == ""
      ensures values == if project.Some? then EditDefaults(project.value) else CreateDefaults()
    {
      this.mode := mode;
      values := if project.Some? then EditDefaults(project.value) else CreateDefaults();
      tagInput := "";
    }

    /** Typing in the title: in create mode the slug follows the title; in
        edit mode the slug is left alone. */
    method ChangeTitle(newTitle: string)
      modifies this
      ensures mode == Create ==> values == old(values).(title := newTitle, slug := GenerateSlug(newTitle))
      ensures mode == Edit ==> values == old(values).(title := newTitle)
      ensures tagInput == old(tagInput)
    {
      values := values.(title := newTitle);
      if mode == Create {
        values := values.(slug := GenerateSlug(newTitle));
      }
    }

    /** Typing in the tag input box. */
    method ChangeTagInput(text: string)
      modifies this
      ensures tagInput == text && values == old(values)
    {
      tagInput := text;
    }

    /** `addTag`, also reached with the Enter key in the tag box. */
    method AddTag()
      modifies this
      ensures (values.tags, tagInput) == AddEntry(old(values.tags), old(tagInput))
      ensures values == old(values).(tags := values.tags)
      ensures NoDuplicates(old(values.tags)) ==> NoDuplicates(values.tags)
    {
      var (tags, input) := AddEntry(values.tags, tagInput);
      values := values.(tags := tags);
      tagInput := input;
    }

    /** `removeTag`: drops every copy of `tag`. */
    method RemoveTag(tag: string)
      modifies this
      ensures values == old(values).(tags := RemoveAll(old(values.tags), tag))
      ensures tagInput == old(tagInput)
      ensures NoDuplicates(old(values.tags)) ==> NoDuplicates(values.tags)
    {
      if NoDuplicates(values.tags) { RemoveAllNoDuplicates(values.tags, tag); }
      values := values.(tags := RemoveAll(values.tags, tag));
    }
  }
}
