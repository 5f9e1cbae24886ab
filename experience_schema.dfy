/** `experienceSchema`: the three experience kinds, the date coercions and
    the defaults the schema fills in. */
module ExperienceSchema {
  import opened Wrappers
  import opened Validation

  datatype ExperienceType = Work | Education | Volunteer

  /** The enum's string values. */
  function TypeName(t: ExperienceType): string {
    match t
    case Work => "work"
    case Education => "education"
    case Volunteer => "volunteer"
  }

  /** `z.enum(["work", "education", "volunteer"])`: exactly the three names are
      accepted, each as its own kind. */
  function ParseType(s: string): (r: Option<ExperienceType>)
    ensures r.Some? ==> TypeName(r.value) == s
    ensures (exists t :: TypeName(t) == s) ==> r.Some?
  {
    if s == "work" then Some(Work)
    else if s == "education" then Some(Education)
    else if s == "volunteer" then Some(Volunteer)
    else None
  }

  lemma TypeNameRoundTrip(t: ExperienceType)
    ensures ParseType(TypeName(t)) == Some(t)
  {
  }

  /** A date field as it arrives: left out, `null`, the empty string, a value
      `new Date(...)` turns into the timestamp `t`, or one it turns into an
      invalid date. */
  datatype DateInput = Undefined | Null | EmptyString | Parsed(t: int) | Unparseable

  /** `z.coerce.date()`: the argument goes through `new Date(...)`; `null`
      becomes the epoch, `undefined` and `""` an invalid date. */
  function CoerceDate(d: DateInput): (r: Option<int>)
    ensures d.Parsed? ==> r == Some(d.t)
    ensures d.Null? ==> r == Some(0)
    ensures d.Undefined? || d.EmptyString? || d.Unparseable? ==> r.None?
  {
    match d
    case Undefined => None
    case Null => Some(0)
    case EmptyString => None
    case Parsed(t) => Some(t)
    case Unparseable => None
  }

  /** The validated `endDate`: absent (`undefined`), explicitly `null`, or a
      timestamp. */
  datatype EndDate = EndUndefined | EndNull | EndAt(t: int)

  /** `z.preprocess(blank -> undefined, z.coerce.date().optional()).nullable()`:
      the outer `nullable` sees `null` first and keeps it, so only `""` and
      `undefined` become absent. */
  function ParseEndDate(d: DateInput): (r: Option<EndDate>)
    ensures r.None? <==> d.Unparseable?
    ensures d.Null? ==> r == Some(EndNull)
    ensures d.Undefined? || d.EmptyString? ==> r == Some(EndUndefined)
    ensures d.Parsed? ==> r == Some(EndAt(d.t))
  {
    match d
    case Null => Some(EndNull)
    case Undefined => Some(EndUndefined)
    case EmptyString => Some(EndUndefined)
    case _ =>
      match CoerceDate(d)
      case Some(t) => Some(EndAt(t))
      case None => None
  }

  /** What a caller passes to `createExperience` / `updateExperience`. */
  datatype ExperienceInput = ExperienceInput(
    kind: string,
    title: string,
    company: string,
    location: Option<string>,
    description: Option<string>,
    skills: Option<seq<string>>,
    startDate: DateInput,
    endDate: DateInput,
    current: Option<bool>,
    order: Option<real>)

  /** What `experienceSchema.parse` returns. */
  datatype ExperienceData = ExperienceData(
    kind: ExperienceType,
    title: string,
    company: string,
    location: Option<string>,
    description: Option<string>,
    skills: seq<string>,
    startDate: int,
    endDate: EndDate,
    current: bool,
    order: int)

  /** Every field rule of the schema. There is no rule that ties `current`
      to `endDate`. */
  predicate Accepts(i: ExperienceInput) {
    && ParseType(i.kind).Some?
    && MinLength(i.title, 1)
    && MinLength(i.company, 1)
    && CoerceDate(i.startDate).Some?
    && ParseEndDate(i.endDate).Some?
    && (i.order.None? || IsInteger(i.order.value))
  }

  /** `experienceSchema.parse`: `None` stands for the thrown validation error.
      `skills` defaults to the empty list, `current` to false and `order` to
      0; `endDate` is coerced as described above. */
  function Parse(i: ExperienceInput): (r: Option<ExperienceData>)
    ensures r.Some? <==> Accepts(i)
    ensures r.Some? ==> TypeName(r.value.kind) == i.kind
    ensures r.Some? ==> r.value.skills == i.skills.GetOr([])
    ensures r.Some? ==> r.value.current == i.current.GetOr(false)
    ensures r.Some? ==> r.value.order as real == i.order.GetOr(0 as real)
    ensures r.Some? ==> Some(r.value.startDate) == CoerceDate(i.startDate)
    ensures r.Some? ==> Some(r.value.endDate) == ParseEndDate(i.endDate)
    ensures r.Some? ==> r.value.title == i.title && r.value.company == i.company
    ensures r.Some? ==> r.value.location == i.location && r.value.description == i.description
  {
    if Accepts(i) then
      Some(ExperienceData(ParseType(i.kind).value, i.title, i.company, i.location,
                          i.description, i.skills.GetOr([]), CoerceDate(i.startDate).value,
                          ParseEndDate(i.endDate).value, i.current.GetOr(false),
                          if i.order.Some? then i.order.value.Floor else 0))
    else None
  }

  /** How a validated end date is handed back to the schema. */
  function EndDateInput(e: EndDate): DateInput {
    match e
    case EndUndefined => Undefined
    case EndNull => Null
    case EndAt(t) => Parsed(t)
  }

  function AsInput(d: ExperienceData): ExperienceInput {
    ExperienceInput(TypeName(d.kind), d.title, d.company, d.location, d.description,
                    Some(d.skills), Parsed(d.startDate), EndDateInput(d.endDate),
                    Some(d.current), Some(d.order as real))
  }

  /** Parsing is idempotent: validated data passes again, unchanged. */
  lemma ParseIdempotent(i: ExperienceInput)
    requires Parse(i).Some?
    ensures Parse(AsInput(Parse(i).value)) == Parse(i)
  {
    var d := Parse(i).value;
    TypeNameRoundTrip(d.kind);
    assert (d.order as real).Floor == d.order;
  }

  /** A current position with an end date is accepted as it is: the schema
      does not clear or reject the end date. */
  lemma CurrentWithEndDateAccepted(i: ExperienceInput, t: int)
    requires Accepts(i) && i.current == Some(true) && i.endDate == Parsed(t)
    ensures Parse(i).Some? && Parse(i).value.current && Parse(i).value.endDate == EndAt(t)
  {
  }

  /** Without a skills list the validated list is empty, and an empty list is
      accepted. */
  lemma SkillsDefault(i: ExperienceInput)
    requires Accepts(i)
    ensures Parse(i.(skills := None)).Some? && Parse(i.(skills := None)).value.skills == []
    ensures Parse(i.(skills := Some([]))).Some?
  {
  }
}
