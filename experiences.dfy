/** The experience actions: create, update and delete on the experience
    table, and the two list queries. There is no slug and no uniqueness
    check. Ids come from a counter and the revalidated paths are recorded in
    order. */
module Experiences {
  import opened Wrappers
  import opened Sorting
  import opened ExperienceSchema

  /** A stored experience row. */
  datatype Experience = Experience(
    id: nat,
    kind: ExperienceType,
    title: string,
    company: string,
    location: Option<string>,
    description: Option<string>,
    skills: seq<string>,
    startDate: int,
    endDate: Option<int>,
    current: bool,
    order: int)

  /** The column value a validated end date is written as on create: an
      absent end date is stored as null. */
  function CreatedEndDate(e: EndDate): (r: Option<int>)
    ensures r.Some? <==> e.EndAt?
    ensures e.EndAt? ==> r == Some(e.t)
  {
    match e
    case EndAt(t) => Some(t)
    case _ => None
  }

  /** `prisma.experience.create({ data: validated })`: the row is the
      validated input; `current` and `endDate` are written as given, with no
      clearing. */
  function NewExperience(id: nat, d: ExperienceData): (x: Experience)
    ensures x.id == id && x.kind == d.kind && x.skills == d.skills && x.order == d.order
    ensures x.current == d.current && x.endDate == CreatedEndDate(d.endDate)
    ensures x.location == d.location && x.description == d.description
    ensures x.title == d.title && x.company == d.company && x.startDate == d.startDate
  {
    Experience(id, d.kind, d.title, d.company, d.location, d.description, d.skills,
               d.startDate, CreatedEndDate(d.endDate), d.current, d.order)
  }

  /** `prisma.experience.update({ data: validated })`: fields absent from the
      validated data (`location`, `description`, an `undefined` end date)
      keep their stored values; an explicit `null` end date clears it. */
  function UpdatedExperience(prev: Experience, d: ExperienceData): (x: Experience)
    ensures x.id == prev.id && x.kind == d.kind && x.current == d.current
    ensures x.location == if d.location.Some? then d.location else prev.location
    ensures x.description == if d.description.Some? then d.description else prev.description
    ensures d.endDate.EndUndefined? ==> x.endDate == prev.endDate
    ensures d.endDate.EndNull? ==> x.endDate.None?
    ensures d.endDate.EndAt? ==> x.endDate == Some(d.endDate.t)
    ensures x.title == d.title && x.company == d.company && x.skills == d.skills
    ensures x.startDate == d.startDate && x.order == d.order
  {
    Experience(prev.id, d.kind, d.title, d.company,
               if d.location.Some? then d.location else prev.location,
               if d.description.Some? then d.description else prev.description,
               d.skills, d.startDate,
               match d.endDate
               case EndUndefined => prev.endDate
               case EndNull => None
               case EndAt(t) => Some(t),
               d.current, d.order)
  }

  /** `orderBy: [{ order: 'asc' }, { startDate: 'desc' }]` */
  function ListKey(x: Experience): Key { (x.order, -x.startDate, x.id) }

  function RowId(x: Experience): nat { x.id }

  /** `where: { type }` */
  function OfType(t: string): Experience -> bool {
    (x: Experience) => TypeName(x.kind) == t
  }

  /** Ids below the counter, each row under its own id. */
  predicate TableOk(rows: map<nat, Experience>, nextId: nat) {
    forall k :: k in rows ==> k < nextId && rows[k].id == k
  }

  /** The experience table. */
  class ExperienceStore {
    var rows: map<nat, Experience>
    var nextId: nat
    ghost var revalidated: seq<string>

    predicate Valid()
      reads this
    {
      TableOk(rows, nextId)
    }

    constructor ()
      ensures Valid() && rows == map[] && nextId == 0 && revalidated == []
    {
      rows := map[];
      nextId := 0;
      revalidated := [];
    }

    /** `createExperience`: no uniqueness check; a valid input adds exactly
        one row, an invalid one changes nothing. */
    method Create(input: ExperienceInput) returns (r: Outcome<Experience>)
      requires Valid()
      modifies this
      ensures Valid()
      ensures r.Success? <==> Parse(input).Some?
      ensures r.Failure? ==> r.error == "Failed to create experience"
      ensures r.Success? ==>
                && r.data == NewExperience(old(nextId), Parse(input).value)
                && old(nextId) !in old(rows)
                && rows == old(rows)[old(nextId) := r.data]
                && nextId == old(nextId) + 1
                && revalidated == old(revalidated) + ["/about", "/admin/experience"]
      ensures r.Failure? ==> rows == old(rows) && nextId == old(nextId) && revalidated == old(revalidated)
    {
      var parsed := Parse(input);
      if parsed.None? {
        return Failure("Failed to create experience");
      }
      var x := NewExperience(nextId, parsed.value);
      rows := rows[nextId := x];
      nextId := nextId + 1;
      revalidated := revalidated + ["/about", "/admin/experience"];
      r := Success(x);
    }

    /** `updateExperience`: replaces row `id` and nothing else; an invalid
        input or a missing id fails and changes nothing. */
    method Update(id: nat, input: ExperienceInput) returns (r: Outcome<Experience>)
      requires Valid()
      modifies this
      ensures Valid()
      ensures r.Success? <==> Parse(input).Some? && id in old(rows)
      ensures r.Failure? ==> r.error == "Failed to update experience"
      ensures r.Success? ==>
                && r.data == UpdatedExperience(old(rows)[id], Parse(input).value)
                && rows == old(rows)[id := r.data]
                && revalidated == old(revalidated) + ["/about", "/admin/experience"]
      ensures nextId == old(nextId)
      ensures r.Failure? ==> rows == old(rows) && revalidated == old(revalidated)
    {
      var parsed := Parse(input);
      if parsed.None? || id !in rows {
        return Failure("Failed to update experience");
      }
      var x := UpdatedExperience(rows[id], parsed.value);
      rows := rows[id := x];
      revalidated := revalidated + ["/about", "/admin/experience"];
      r := Success(x);
    }

    /** `deleteExperience`: removes exactly row `id`; a missing id is an
        error and changes nothing. */
    method Delete(id: nat) returns (r: Outcome<()>)
      requires Valid()
      modifies this
      ensures Valid()
      ensures r.Success? <==> id in old(rows)
      ensures r.Failure? ==> r.error == "Failed to delete experience"
      ensures r.Success? ==> rows == old(rows) - {id}
                             && revalidated == old(revalidated) + ["/about", "/admin/experience"]
      ensures r.Failure? ==> rows == old(rows) && revalidated == old(revalidated)
      ensures nextId == old(nextId)
    {
      if id !in rows {
        return Failure("Failed to delete experience");
      }
      rows := rows - {id};
      revalidated := revalidated + ["/about", "/admin/experience"];
      r := Success(());
    }

    /** `getExperienceById`: the row, or null when there is none. */
    function ById(id: nat): (r: Option<Experience>)
      reads this
      requires Valid()
      ensures r.Some? <==> id in rows
      ensures r.Some? ==> r.value in rows.Values && r.value.id == id
    {
      if id in rows then Some(rows[id]) else None
    }

    /** Every row once, in ascending id order. */
    function Rows(): (r: seq<Experience>)
      reads this
      requires Valid()
      ensures forall x :: multiset(r)[x] == if x in rows.Values then 1 else 0
    {
      var r := Listing(rows, nextId);
      assert forall x :: multiset(r)[x] == if x in rows.Values then 1 else 0 by {
        forall x ensures multiset(r)[x] == if x in rows.Values then 1 else 0 {
          ListingCount(rows, nextId, RowId, x);
          if x in rows.Values {
            var k :| k in rows && rows[k] == x;
          }
        }
      }
      r
    }

    /** `getAllExperiences`: every row exactly once, by `order` ascending,
        then latest start first. */
    function All(): (r: seq<Experience>)
      reads this
      requires Valid()
      ensures SortedBy(r, ListKey)
      ensures forall x :: multiset(r)[x] == if x in rows.Values then 1 else 0
    {
      SortBy(Rows(), ListKey)
    }

    /** `getExperiencesByType`: exactly the rows of kind `t`, in the order
        `getAllExperiences` lists them. */
    function ByType(t: string): (r: seq<Experience>)
      reads this
      requires Valid()
      ensures r == Filter(All(), OfType(t))
      ensures SortedBy(r, ListKey)
      ensures forall x :: multiset(r)[x] == if x in rows.Values && TypeName(x.kind) == t then 1 else 0
    {
      var listed := Rows();
      var kept := Filter(listed, OfType(t));
      FilterSortCommute(listed, ListKey, OfType(t));
      assert forall x :: multiset(kept)[x] == if x in rows.Values && TypeName(x.kind) == t then 1 else 0 by {
        forall x ensures multiset(kept)[x] == if x in rows.Values && TypeName(x.kind) == t then 1 else 0 {
          FilterCount(listed, OfType(t), x);
        }
      }
      SortBy(kept, ListKey)
    }
  }

  /** A kind name outside the enum matches no row. */
  lemma UnknownTypeMatchesNothing(store: ExperienceStore, t: string)
    requires store.Valid() && ParseType(t).None?
    ensures store.ByType(t) == []
  {
    var r := store.ByType(t);
    if r != [] {
      FilterMembers(store.All(), OfType(t), r[0]);
    }
  }

  /** The action stores a current position's end date as given; clearing it
      is left to the form. */
  lemma CurrentKeepsEndDate(id: nat, d: ExperienceData, t: int)
    requires d.current && d.endDate == EndAt(t)
    ensures NewExperience(id, d).current && NewExperience(id, d).endDate == Some(t)
  {
  }
}
