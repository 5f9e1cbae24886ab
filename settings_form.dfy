/** The state of the admin settings form. The technology list is held
    twice, in component state and as a form value, and the handlers keep the
    two copies equal; on submit the component's copy is the one sent. */
module SettingsForm {
  import opened Wrappers
  import opened Utils
  import opened Validation
  import opened ListEditing
  import opened SettingsSchema
  import opened Settings

  /** The values of the form opened on the stored settings: null e-mail,
      social links and location are shown as the empty string. */
  function Defaults(s: SiteSettings): (i: SettingsInput)
    ensures i.techStack == Some(s.techStack)
    ensures i.email == Some(s.email.GetOr("")) && i.github == Some(s.github.GetOr(""))
    ensures i.linkedin == Some(s.linkedin.GetOr("")) && i.twitter == Some(s.twitter.GetOr(""))
    ensures i.location == Some(s.location.GetOr(""))
  {
    SettingsInput(s.name, s.tagline, s.bio, Some(s.techStack), Some(s.email.GetOr("")),
                  Some(s.github.GetOr("")), Some(s.linkedin.GetOr("")),
                  Some(s.twitter.GetOr("")), Some(s.location.GetOr("")))
  }

  /** Saving the form without touching it turns every null e-mail, social
      link and location into the empty string, since the server stores the
      empty string as it is. */
  lemma ResubmitUnchanged(s: SiteSettings, isUrl: FormatCheck, isEmail: FormatCheck)
    requires Accepts(Defaults(s), isUrl, isEmail)
    ensures UpdatedSettings(s, Parse(Defaults(s), isUrl, isEmail).value)
            == s.(email := Some(s.email.GetOr("")), github := Some(s.github.GetOr("")),
                  linkedin := Some(s.linkedin.GetOr("")), twitter := Some(s.twitter.GetOr("")),
                  location := Some(s.location.GetOr("")))
  {
  }

  class Form {
    var values: SettingsInput
    var techStack: seq<string>
    var newTech: string

    /** The form value of the technology list is the component's list. */
    predicate Valid()
      reads this
    {
      values.techStack == Some(techStack)
    }

    constructor (settings: SiteSettings)
      ensures Valid()
      ensures values == Defaults(settings) && techStack == settings.techStack && newTech == ""
    {
      values := Defaults(settings);
      techStack := settings.techStack;
      newTech := "";
    }

    /** Typing in the technology input box. */
    method ChangeNewTech(text: string)
      requires Valid()
      modifies this
      ensures Valid() && newTech == text && techStack == old(techStack) && values == old(values)
    {
      newTech := text;
    }

    /** `addTech`: both copies of the list get the entry. */
    method AddTech()
      requires Valid()
      modifies this
      ensures Valid()
      ensures (techStack, newTech) == AddEntry(old(techStack), old(newTech))
      ensures values == old(values).(techStack := Some(techStack))
      ensures NoDuplicates(old(techStack)) ==> NoDuplicates(techStack)
    {
      var trimmed := Trim(newTech);
      if trimmed != "" && trimmed !in techStack {
        var updated := techStack + [trimmed];
        techStack := updated;
        values := values.(techStack := Some(updated));
        newTech := "";
      }
    }

    /** `removeTech`: both copies lose every copy of `tech`. */
    method RemoveTech(tech: string)
      requires Valid()
      modifies this
      ensures Valid() && newTech == old(newTech)
      ensures techStack == RemoveAll(old(techStack), tech)
      ensures values == old(values).(techStack := Some(techStack))
      ensures NoDuplicates(old(techStack)) ==> NoDuplicates(techStack)
    {
      if NoDuplicates(techStack) { RemoveAllNoDuplicates(techStack, tech); }
      var updated := RemoveAll(techStack, tech);
      techStack := updated;
      values := values.(techStack := Some(updated));
    }

    /** `handleKeyDown` on the technology box: Enter adds the entry, any
        other key is left to the box. */
    method HandleKeyDown(key: string)
      requires Valid()
      modifies this
      ensures Valid()
      ensures key == "Enter" ==> (techStack, newTech) == AddEntry(old(techStack), old(newTech))
      ensures key != "Enter" ==> techStack == old(techStack) && newTech == old(newTech)
      ensures values == old(values).(techStack := Some(techStack))
    {
      if key == "Enter" {
        AddTech();
      }
    }

    /** `handleSubmit(onSubmit)`: the values are validated first, and an
        invalid form is not submitted (`None`); otherwise the validated data,
        its technology list replaced by the component's list, is passed to
        `updateSettings`, so a successful save stores exactly that list. */
    method Submit(store: SettingsStore, isUrl: FormatCheck, isEmail: FormatCheck)
      returns (r: Option<Outcome<SiteSettings>>)
      requires Valid() && store.Valid()
      modifies store
      ensures store.Valid()
      ensures r.None? <==> Parse(values, isUrl, isEmail).None?
      ensures r.None? ==> store.rows == old(store.rows)
      ensures r.Some? ==> r.value.Success?
      ensures r.Some? ==> r.value.data.techStack == techStack && r.value.data in store.rows.Values
      ensures r.None? ==> store.revalidated == old(store.revalidated)
      ensures r.Some? ==> store.revalidated == old(store.revalidated) + SettingsPaths
      ensures r.Some? && old(store.rows) == map[] ==>
                r.value.data == CreatedSettings(Parse(values, isUrl, isEmail).value)
                && store.rows == map[DefaultId := r.value.data]
      ensures r.Some? && old(store.rows) != map[] ==>
                && r.value.data.id in old(store.rows)
                && r.value.data == UpdatedSettings(old(store.rows)[r.value.data.id], Parse(values, isUrl, isEmail).value)
                && store.rows == old(store.rows)[r.value.data.id := r.value.data]
    {
      var checked := Parse(values, isUrl, isEmail);
      if checked.None? {
        return None;
      }
      var data := AsInput(checked.value).(techStack := Some(techStack));
      ParseIdempotent(values, isUrl, isEmail);
      var result := store.Update(data, isUrl, isEmail);
      assert result.data.id in store.rows && store.rows[result.data.id] == result.data;
      r := Some(result);
    }
  }
}
