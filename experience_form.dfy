/** The state of the admin experience form: the field values, the skill
    input box, the handlers that change them, and the effect that clears the
    end date whenever `current` is checked. */
module ExperienceForm {
  import opened Wrappers
  import opened ListEditing
  import opened ExperienceSchema
  import opened Experiences

  /** The values of a blank form, started at `now`. */
  function CreateDefaults(now: int): (i: ExperienceInput)
    ensures ParseType(i.kind) == Some(Work)
    ensures i.skills == Some([]) && i.current == Some(false) && i.order == Some(0.0)
    ensures i.endDate == Undefined && CoerceDate(i.startDate) == Some(now)
  {
    ExperienceInput("work", "", "", Some(""), Some(""), Some([]), Parsed(now), Undefined,
                    Some(false), Some(0.0))
  }

  /** The values of a form opened on a stored experience: a null location or
      description is shown as the empty string, a missing end date as null. */
  function EditDefaults(x: Experience): (i: ExperienceInput)
    ensures ParseType(i.kind) == Some(x.kind)
    ensures i.location == Some(x.location.GetOr("")) && i.description == Some(x.description.GetOr(""))
    ensures x.endDate.None? ==> i.endDate == Null
    ensures x.endDate.Some? ==> i.endDate == Parsed(x.endDate.value)
    ensures i.skills == Some(x.skills) && i.current == Some(x.current)
  {
    TypeNameRoundTrip(x.kind);
    ExperienceInput(TypeName(x.kind), x.title, x.company, Some(x.location.GetOr("")),
                    Some(x.description.GetOr("")), Some(x.skills), Parsed(x.startDate),
                    if x.endDate.Some? then Parsed(x.endDate.value) else Null,
                    Some(x.current), Some(x.order as real))
  }

  /** The effect run on mount and whenever `current` changes. */
  function ClearIfCurrent(i: ExperienceInput): (r: ExperienceInput)
    ensures EffectHolds(r)
    ensures r.(endDate := i.endDate) == i
    ensures !EffectHolds(i) ==> r.endDate == Null
    ensures EffectHolds(i) ==> r == i
  {
    if i.current == Some(true) then i.(endDate := Null) else i
  }

  /** A checked `current` goes with a null end date. */
  predicate EffectHolds(i: ExperienceInput) {
    i.current == Some(true) ==> i.endDate == Null
  }

  /** Whatever a form whose effect has run submits with `current` checked is
      written without an end date, on create and on update alike: the
      clearing the server does not do is done here. */
  lemma CurrentSubmitsNoEndDate(i: ExperienceInput, id: nat, prev: Experience)
    requires EffectHolds(i) && Parse(i).Some? && Parse(i).value.current
    ensures NewExperience(id, Parse(i).value).endDate.None?
    ensures UpdatedExperience(prev, Parse(i).value).endDate.None?
  {
    assert i.current == Some(true);
  }

  /** Saving an edit form without touching it writes the experience back as
      it was, except that a null location or description becomes the empty
      string and a current experience loses its end date. */
  lemma ResubmitUnchanged(x: Experience)
    requires Accepts(ClearIfCurrent(EditDefaults(x)))
    ensures UpdatedExperience(x, Parse(ClearIfCurrent(EditDefaults(x))).value)
            == x.(location := Some(x.location.GetOr("")),
                  description := Some(x.description.GetOr("")),
                  endDate := if x.current then None else x.endDate)
  {
    var i := ClearIfCurrent(EditDefaults(x));
    var d := Parse(i).value;
    TypeNameRoundTrip(x.kind);
    assert d.kind == x.kind;
    assert (x.order as real).Floor == x.order;
  }

  class Form {
    var values: ExperienceInput
    var skillInput: string

    /** The effect has run and the skill list is present. */
    predicate Valid()
      reads this
    {
      EffectHolds(values) && values.skills.Some?
    }

    /** The form opened on `experience` when one is given, otherwise blank
        and started at `now`; the effect runs once on mount. */
    constructor (experience: Option<Experience>, now: int)
      ensures Valid() && skillInput == ""
      ensures values == ClearIfCurrent(if experience.Some? then EditDefaults(experience.value)
                                       else CreateDefaults(now))
    {
      values := ClearIfCurrent(if experience.Some? then EditDefaults(experience.value)
                               else CreateDefaults(now));
      skillInput := "";
    }

    /** Ticking or clearing the `current` box; the effect follows. */
    method SetCurrent(b: bool)
      requires Valid()
      modifies this
      ensures Valid() && skillInput == old(skillInput)
      ensures values == ClearIfCurrent(old(values).(current := Some(b)))
      ensures b ==> values.endDate == Null
    {
      values := ClearIfCurrent(values.(current := Some(b)));
    }

    /** Typing an end date; the input is disabled while `current` is
        checked. */
    method SetEndDate(d: DateInput)
      requires Valid()
      modifies this
      ensures Valid() && skillInput == old(skillInput)
      ensures values == if old(values).current == Some(true) then old(values)
                        else old(values).(endDate := d)
    {
      if values.current != Some(true) {
        values := values.(endDate := d);
      }
    }

    /** Typing in the skill input box. */
    method ChangeSkillInput(text: string)
      requires Valid()
      modifies this
      ensures Valid() && skillInput == text && values == old(values)
    {
      skillInput := text;
    }

    /** `addSkill`. */
    method AddSkill()
      requires Valid()
      modifies this
      ensures Valid()
      ensures (values.skills.value, skillInput) == AddEntry(old(values.skills.value), old(skillInput))
      ensures values == old(values).(skills := values.skills)
      ensures NoDuplicates(old(values.skills.value)) ==> NoDuplicates(values.skills.value)
    {
      var (skills, input) := AddEntry(values.skills.value, skillInput);
      values := values.(skills := Some(skills));
      skillInput := input;
    }

    /** `removeSkill`: drops every copy of `skill`. */
    method RemoveSkill(skill: string)
      requires Valid()
      modifies this
      ensures Valid() && skillInput == old(skillInput)
      ensures values == old(values).(skills := Some(RemoveAll(old(values.skills.value), skill)))
      ensures NoDuplicates(old(values.skills.value)) ==> NoDuplicates(values.skills.value)
    {
      if NoDuplicates(values.skills.value) { RemoveAllNoDuplicates(values.skills.value, skill); }
      values := values.(skills := Some(RemoveAll(values.skills.value, skill)));
    }
  }
}
