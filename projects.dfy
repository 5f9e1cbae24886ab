/** The project actions: create, update and delete on the project table, and
    the admin and public queries over it. The table is a map from ids to
    records; ids are handed out by a counter, and `now` stands for the
    clock. The paths passed to `revalidatePath` are recorded in order. */
module Projects {
  import opened Wrappers
  import opened Validation
  import opened Sorting
  import opened ProjectSchema

  /** A stored project row. */
  datatype Project = Project(
    id: nat,
    title: string,
    slug: string,
    description: string,
    content: Option<string>,
    coverImage: string,
    tags: seq<string>,
    demoUrl: Option<string>,
    repoUrl: Option<string>,
    featured: bool,
    order: int,
    published: bool,
    publishedAt: Option<int>,
    createdAt: int)

  /** What every row written by the actions satisfies: optional URLs are
      never the empty string, and a publication time is set exactly on
      published rows. */
  predicate RowOk(p: Project) {
    && p.demoUrl != Some("")
    && p.repoUrl != Some("")
    && (p.publishedAt.Some? <==> p.published)
  }

  /** The row `createProject` writes for validated data `d`. */
  function NewProject(id: nat, d: ProjectData, now: int): (p: Project)
    ensures RowOk(p)
    ensures p.id == id && p.createdAt == now && p.slug == d.slug && p.published == d.published
    ensures p.publishedAt == if d.published then Some(now) else None
    ensures p.content == d.content
    ensures p.demoUrl == EmptyToNull(d.demoUrl) && p.repoUrl == EmptyToNull(d.repoUrl)
    ensures p.title == d.title && p.description == d.description && p.coverImage == d.coverImage
    ensures p.tags == d.tags && p.featured == d.featured && p.order == d.order
  {
    Project(id, d.title, d.slug, d.description, d.content, d.coverImage, d.tags,
            EmptyToNull(d.demoUrl), EmptyToNull(d.repoUrl), d.featured, d.order,
            d.published, if d.published then Some(now) else None, now)
  }

  /** The row `updateProject` writes over `prev` for validated data `d`: the
      id and creation time are kept, an absent `content` keeps the old
      content, and the publication time is reset to `now` on every save of a
      published project. */
  function UpdatedProject(prev: Project, d: ProjectData, now: int): (p: Project)
    ensures RowOk(p)
    ensures p.id == prev.id && p.createdAt == prev.createdAt && p.slug == d.slug
    ensures p.content == if d.content.Some? then d.content else prev.content
    ensures p.publishedAt == if d.published then Some(now) else None
    ensures p.demoUrl == EmptyToNull(d.demoUrl) && p.repoUrl == EmptyToNull(d.repoUrl)
    ensures p.title == d.title && p.description == d.description && p.coverImage == d.coverImage
    ensures p.tags == d.tags && p.featured == d.featured && p.order == d.order
    ensures p.published == d.published
  {
    Project(prev.id, d.title, d.slug, d.description,
            if d.content.Some? then d.content else prev.content,
            d.coverImage, d.tags, EmptyToNull(d.demoUrl), EmptyToNull(d.repoUrl),
            d.featured, d.order, d.published, if d.published then Some(now) else None,
            prev.createdAt)
  }

  /** No two rows share a slug. */
  predicate SlugsUnique(rows: map<nat, Project>) {
    forall a, b :: a in rows && b in rows && rows[a].slug == rows[b].slug ==> a == b
  }

  /** Some row other than `except` holds `slug`. */
  predicate SlugTaken(rows: map<nat, Project>, slug: string, except: Option<nat>) {
    exists k :: k in rows && rows[k].slug == slug && except != Some(k)
  }

  /** `orderBy: [{ order: 'asc' }, { createdAt: 'desc' }]` */
  function AdminKey(p: Project): Key { (p.order, -p.createdAt, p.id) }

  /** `orderBy: [{ order: 'asc' }, { publishedAt: 'desc' }]`; published rows
      always have a publication time. */
  function PublicKey(p: Project): Key { (p.order, -p.publishedAt.GetOr(0), p.id) }

  function RowId(p: Project): nat { p.id }

  predicate IsPublished(p: Project) { p.published }

  /** The table invariant: ids below the counter, each row under its own id,
      every row as the actions write it, and slugs unique. */
  predicate TableOk(rows: map<nat, Project>, nextId: nat) {
    && (forall k :: k in rows ==> k < nextId && rows[k].id == k && RowOk(rows[k]))
    && SlugsUnique(rows)
  }

  /** Writing row `p` under its own id keeps the invariant when no other row
      holds its slug. */
  lemma WriteKeepsTable(rows: map<nat, Project>, nextId: nat, p: Project)
    requires TableOk(rows, nextId)
    requires p.id < nextId && RowOk(p) && !SlugTaken(rows, p.slug, Some(p.id))
    ensures TableOk(rows[p.id := p], nextId)
  {
  }

  lemma RemovalKeepsTable(rows: map<nat, Project>, nextId: nat, id: nat)
    requires TableOk(rows, nextId)
    ensures TableOk(rows - {id}, nextId)
  {
    var rest := rows - {id};
    assert forall k :: k in rest ==> k in rows && rest[k] == rows[k];
  }

  /** The project table. */
  class ProjectStore {
    var rows: map<nat, Project>
    var nextId: nat
    ghost var revalidated: seq<string>

    predicate Valid()
      reads this
    {
      TableOk(rows, nextId)
    }

    constructor ()
      ensures Valid() && rows == map[] && nextId == 0 && revalidated == []
    {
      rows := map[];
      nextId := 0;
      revalidated := [];
    }

    /** `createProject`: a validation failure and a slug held by any project
        both leave the table as it was; otherwise exactly one row is added. */
    method Create(input: ProjectInput, isUrl: FormatCheck, now: int) returns (r: Outcome<Project>)
      requires Valid()
      modifies this
      ensures Valid()
      ensures Parse(input, isUrl).None? ==> r == Failure("Failed to create project")
      ensures (Parse(input, isUrl).Some? && SlugTaken(old(rows), Parse(input, isUrl).value.slug, None))
              ==> r == Failure("A project with this slug already exists")
      ensures r.Success? <==> Parse(input, isUrl).Some? && !SlugTaken(old(rows), Parse(input, isUrl).value.slug, None)
      ensures r.Success? ==>
                && r.data == NewProject(old(nextId), Parse(input, isUrl).value, now)
                && old(nextId) !in old(rows)
                && rows == old(rows)[old(nextId) := r.data]
                && nextId == old(nextId) + 1
                && revalidated == old(revalidated) + ["/projects", "/admin/projects"]
      ensures r.Failure? ==> rows == old(rows) && nextId == old(nextId) && revalidated == old(revalidated)
    {
      var parsed := Parse(input, isUrl);
      if parsed.None? {
        return Failure("Failed to create project");
      }
      var d := parsed.value;
      if SlugTaken(rows, d.slug, None) {
        return Failure("A project with this slug already exists");
      }
      var p := NewProject(nextId, d, now);
      WriteKeepsTable(rows, nextId + 1, p);
      rows := rows[nextId := p];
      nextId := nextId + 1;
      revalidated := revalidated + ["/projects", "/admin/projects"];
      r := Success(p);
    }

    /** `updateProject`: validation comes first, then the slug check that
        ignores the row itself, then the lookup of `id`; only a success
        changes the table, and then only row `id`. */
    method Update(id: nat, input: ProjectInput, isUrl: FormatCheck, now: int) returns (r: Outcome<Project>)
      requires Valid()
      modifies this
      ensures Valid()
      ensures Parse(input, isUrl).None? ==> r == Failure("Failed to update project")
      ensures (Parse(input, isUrl).Some? && SlugTaken(old(rows), Parse(input, isUrl).value.slug, Some(id)))
              ==> r == Failure("A project with this slug already exists")
      ensures (Parse(input, isUrl).Some? && !SlugTaken(old(rows), Parse(input, isUrl).value.slug, Some(id))
               && id !in old(rows))
              ==> r == Failure("Failed to update project")
      ensures r.Success? <==> Parse(input, isUrl).Some? && id in old(rows)
                              && !SlugTaken(old(rows), Parse(input, isUrl).value.slug, Some(id))
      ensures r.Success? ==>
                && r.data == UpdatedProject(old(rows)[id], Parse(input, isUrl).value, now)
                && rows == old(rows)[id := r.data]
                && revalidated == old(revalidated) + ["/projects", "/projects/" + r.data.slug, "/admin/projects"]
      ensures nextId == old(nextId)
      ensures r.Failure? ==> rows == old(rows) && revalidated == old(revalidated)
    {
      var parsed := Parse(input, isUrl);
      if parsed.None? {
        return Failure("Failed to update project");
      }
      var d := parsed.value;
      if SlugTaken(rows, d.slug, Some(id)) {
        return Failure("A project with this slug already exists");
      }
      if id !in rows {
        return Failure("Failed to update project");
      }
      var p := UpdatedProject(rows[id], d, now);
      WriteKeepsTable(rows, nextId, p);
      rows := rows[id := p];
      revalidated := revalidated + ["/projects", "/projects/" + p.slug, "/admin/projects"];
      r := Success(p);
    }

    /** `deleteProject`: removes exactly row `id`; a missing id is an error
        and changes nothing. */
    method Delete(id: nat) returns (r: Outcome<()>)
      requires Valid()
      modifies this
      ensures Valid()
      ensures r.Success? <==> id in old(rows)
      ensures r.Failure? ==> r.error == "Failed to delete project"
      ensures r.Success? ==> rows == old(rows) - {id}
                             && revalidated == old(revalidated) + ["/projects", "/admin/projects"]
      ensures r.Failure? ==> rows == old(rows) && revalidated == old(revalidated)
      ensures nextId == old(nextId)
    {
      if id !in rows {
        return Failure("Failed to delete project");
      }
      RemovalKeepsTable(rows, nextId, id);
      rows := rows - {id};
      revalidated := revalidated + ["/projects", "/admin/projects"];
      r := Success(());
    }

    /** `getProjectById`: the row, or null when there is none. */
    function ById(id: nat): (r: Option<Project>)
      reads this
      requires Valid()
      ensures r.Some? <==> id in rows
      ensures r.Some? ==> r.value in rows.Values && r.value.id == id
    {
      if id in rows then Some(rows[id]) else None
    }

    /** Every row once, in ascending id order. */
    function Rows(): (r: seq<Project>)
      reads this
      requires Valid()
      ensures forall p :: multiset(r)[p] == if p in rows.Values then 1 else 0
    {
      var r := Listing(rows, nextId);
      assert forall p :: multiset(r)[p] == if p in rows.Values then 1 else 0 by {
        forall p ensures multiset(r)[p] == if p in rows.Values then 1 else 0 {
          ListingCount(rows, nextId, RowId, p);
          if p in rows.Values {
            var k :| k in rows && rows[k] == p;
          }
        }
      }
      r
    }

    /** `getAllProjects`: every project exactly once, by `order` ascending,
        then newest first. */
    function All(): (r: seq<Project>)
      reads this
      requires Valid()
      ensures SortedBy(r, AdminKey)
      ensures forall p :: multiset(r)[p] == if p in rows.Values then 1 else 0
    {
      SortBy(Rows(), AdminKey)
    }

    /** `getPublishedProjects`: exactly the published projects, each once, by
        `order` ascending, then most recently published first. */
    function Published(): (r: seq<Project>)
      reads this
      requires Valid()
      ensures SortedBy(r, PublicKey)
      ensures forall p :: multiset(r)[p] == if p in rows.Values && p.published then 1 else 0
    {
      var listed := Rows();
      var kept := Filter(listed, IsPublished);
      assert forall p :: multiset(kept)[p] == if p in rows.Values && p.published then 1 else 0 by {
        forall p ensures multiset(kept)[p] == if p in rows.Values && p.published then 1 else 0 {
          FilterCount(listed, IsPublished, p);
        }
      }
      SortBy(kept, PublicKey)
    }

    /** `getProjectBySlug`: a published project with that slug, or "Project
        not found" when there is none; a draft is never returned. */
    function BySlug(slug: string): (r: Outcome<Project>)
      reads this
      requires Valid()
      ensures r.Success? ==> r.data in rows.Values && r.data.slug == slug && r.data.published
      ensures r.Failure? <==> forall k :: k in rows ==> !(rows[k].slug == slug && rows[k].published)
      ensures r.Failure? ==> r.error == "Project not found"
    {
      var listed := Rows();
      var hits := Filter(listed, (p: Project) => p.slug == slug && p.published);
      if hits == [] then
        assert forall k :: k in rows ==> !(rows[k].slug == slug && rows[k].published) by {
          forall k | k in rows ensures !(rows[k].slug == slug && rows[k].published) {
            FilterMembers(listed, (p: Project) => p.slug == slug && p.published, rows[k]);
            assert multiset(listed)[rows[k]] == 1;
          }
        }
        Failure("Project not found")
      else
        FilterMembers(listed, (p: Project) => p.slug == slug && p.published, hits[0]);
        assert multiset(listed)[hits[0]] > 0;
        Success(hits[0])
    }
  }
}
