/** The blog actions: create, update and delete on the post table, the view
    counter, and the admin and public queries. As for projects, the table is
    a map from ids to rows, ids come from a counter, `now` stands for the
    clock and the revalidated paths are recorded in order. */
module Blog {
  import opened Wrappers
  import opened Utils
  import opened Validation
  import opened Sorting
  import opened BlogSchema

  /** A stored blog post row. */
  datatype Post = Post(
    id: nat,
    title: string,
    slug: string,
    excerpt: string,
    content: string,
    coverImage: Option<string>,
    tags: seq<string>,
    published: bool,
    featured: bool,
    readTime: nat,
    views: nat,
    publishedAt: Option<int>,
    createdAt: int)

  /** What every row written by the actions satisfies: the cover image is
      never the empty string, a publication time is set exactly on published
      posts, and the read time is the one computed from the content. */
  predicate RowOk(p: Post) {
    && p.coverImage != Some("")
    && (p.publishedAt.Some? <==> p.published)
    && p.readTime == CalculateReadTime(p.content)
  }

  /** The row `createBlogPost` writes: any `readTime` in the input is
      replaced by the computed one, and the view counter starts at zero. */
  function NewPost(id: nat, d: BlogData, now: int): (p: Post)
    ensures RowOk(p)
    ensures p.id == id && p.createdAt == now && p.views == 0
    ensures p.slug == d.slug && p.content == d.content && p.published == d.published
    ensures p.publishedAt == if d.published then Some(now) else None
    ensures p.readTime >= 1
    ensures p.coverImage == EmptyToNull(d.coverImage)
    ensures p.title == d.title && p.excerpt == d.excerpt && p.tags == d.tags && p.featured == d.featured
  {
    Post(id, d.title, d.slug, d.excerpt, d.content, EmptyToNull(d.coverImage), d.tags,
         d.published, d.featured, CalculateReadTime(d.content), 0,
         if d.published then Some(now) else None, now)
  }

  /** The row `updateBlogPost` writes over `prev`: id, creation time and view
      count are kept; the read time is recomputed and the publication time is
      reset to `now` on every save of a published post. */
  function UpdatedPost(prev: Post, d: BlogData, now: int): (p: Post)
    ensures RowOk(p)
    ensures p.id == prev.id && p.createdAt == prev.createdAt && p.views == prev.views
    ensures p.slug == d.slug && p.content == d.content
    ensures p.publishedAt == if d.published then Some(now) else None
    ensures p.coverImage == EmptyToNull(d.coverImage)
    ensures p.title == d.title && p.excerpt == d.excerpt && p.tags == d.tags
    ensures p.featured == d.featured && p.published == d.published
  {
    Post(prev.id, d.title, d.slug, d.excerpt, d.content, EmptyToNull(d.coverImage), d.tags,
         d.published, d.featured, CalculateReadTime(d.content), prev.views,
         if d.published then Some(now) else None, prev.createdAt)
  }

  /** `views: { increment: 1 }` */
  function Viewed(p: Post): (q: Post)
    ensures q.views == p.views + 1
    ensures q.(views := p.views) == p
    ensures RowOk(p) ==> RowOk(q)
  {
    p.(views := p.views + 1)
  }

  predicate SlugsUnique(rows: map<nat, Post>) {
    forall a, b :: a in rows && b in rows && rows[a].slug == rows[b].slug ==> a == b
  }

  /** Some row other than `except` holds `slug`. */
  predicate SlugTaken(rows: map<nat, Post>, slug: string, except: Option<nat>) {
    exists k :: k in rows && rows[k].slug == slug && except != Some(k)
  }

  /** `orderBy: { createdAt: 'desc' }` */
  function AdminKey(p: Post): Key { (-p.createdAt, p.id, 0) }

  /** `orderBy: { publishedAt: 'desc' }`; published posts always have a
      publication time. */
  function PublicKey(p: Post): Key { (-p.publishedAt.GetOr(0), p.id, 0) }

  function RowId(p: Post): nat { p.id }

  predicate IsPublished(p: Post) { p.published }

  /** The table invariant: ids below the counter, each row under its own id,
      every row as the actions write it, and slugs unique. */
  predicate TableOk(rows: map<nat, Post>, nextId: nat) {
    && (forall k :: k in rows ==> k < nextId && rows[k].id == k && RowOk(rows[k]))
    && SlugsUnique(rows)
  }

  lemma RemovalKeepsTable(rows: map<nat, Post>, nextId: nat, id: nat)
    requires TableOk(rows, nextId)
    ensures TableOk(rows - {id}, nextId)
  {
    var rest := rows - {id};
    assert forall k :: k in rest ==> k in rows && rest[k] == rows[k];
  }

  /** Writing row `p` under its own id keeps the invariant when no other row
      holds its slug. */
  lemma WriteKeepsTable(rows: map<nat, Post>, nextId: nat, p: Post)
    requires TableOk(rows, nextId)
    requires p.id < nextId && RowOk(p) && !SlugTaken(rows, p.slug, Some(p.id))
    ensures TableOk(rows[p.id := p], nextId)
  {
  }

  /** The blog post table. */
  class PostStore {
    var rows: map<nat, Post>
    var nextId: nat
    ghost var revalidated: seq<string>

    predicate Valid()
      reads this
    {
      TableOk(rows, nextId)
    }

    constructor ()
      ensures Valid() && rows == map[] && nextId == 0 && revalidated == []
    {
      rows := map[];
      nextId := 0;
      revalidated := [];
    }

    /** `createBlogPost`: a validation failure and a slug held by any post
        both leave the table as it was; otherwise exactly one row is added. */
    method Create(input: BlogInput, isUrl: FormatCheck, now: int) returns (r: Outcome<Post>)
      requires Valid()
      modifies this
      ensures Valid()
      ensures Parse(input, isUrl).None? ==> r == Failure("Failed to create blog post")
      ensures (Parse(input, isUrl).Some? && SlugTaken(old(rows), Parse(input, isUrl).value.slug, None))
              ==> r == Failure("A blog post with this slug already exists")
      ensures r.Success? <==> Parse(input, isUrl).Some? && !SlugTaken(old(rows), Parse(input, isUrl).value.slug, None)
      ensures r.Success? ==>
                && r.data == NewPost(old(nextId), Parse(input, isUrl).value, now)
                && old(nextId) !in old(rows)
                && rows == old(rows)[old(nextId) := r.data]
                && nextId == old(nextId) + 1
                && revalidated == old(revalidated) + ["/blog", "/admin/blog"]
      ensures r.Failure? ==> rows == old(rows) && nextId == old(nextId) && revalidated == old(revalidated)
    {
      var parsed := Parse(input, isUrl);
      if parsed.None? {
        return Failure("Failed to create blog post");
      }
      var d := parsed.value;
      if SlugTaken(rows, d.slug, None) {
        return Failure("A blog post with this slug already exists");
      }
      var p := NewPost(nextId, d, now);
      WriteKeepsTable(rows, nextId + 1, p);
      rows := rows[nextId := p];
      nextId := nextId + 1;
      revalidated := revalidated + ["/blog", "/admin/blog"];
      r := Success(p);
    }

    /** `updateBlogPost`: validation, then the slug check that ignores the
        row itself, then the lookup of `id`; only a success changes the table,
        and then only row `id`. */
    method Update(id: nat, input: BlogInput, isUrl: FormatCheck, now: int) returns (r: Outcome<Post>)
      requires Valid()
      modifies this
      ensures Valid()
      ensures Parse(input, isUrl).None? ==> r == Failure("Failed to update blog post")
      ensures (Parse(input, isUrl).Some? && SlugTaken(old(rows), Parse(input, isUrl).value.slug, Some(id)))
              ==> r == Failure("A blog post with this slug already exists")
      ensures (Parse(input, isUrl).Some? && !SlugTaken(old(rows), Parse(input, isUrl).value.slug, Some(id))
               && id !in old(rows))
              ==> r == Failure("Failed to update blog post")
      ensures r.Success? <==> Parse(input, isUrl).Some? && id in old(rows)
                              && !SlugTaken(old(rows), Parse(input, isUrl).value.slug, Some(id))
      ensures r.Success? ==>
                && r.data == UpdatedPost(old(rows)[id], Parse(input, isUrl).value, now)
                && rows == old(rows)[id := r.data]
                && revalidated == old(revalidated) + ["/blog", "/blog/" + r.data.slug, "/admin/blog"]
      ensures nextId == old(nextId)
      ensures r.Failure? ==> rows == old(rows) && revalidated == old(revalidated)
    {
      var parsed := Parse(input, isUrl);
      if parsed.None? {
        return Failure("Failed to update blog post");
      }
      var d := parsed.value;
      if SlugTaken(rows, d.slug, Some(id)) {
        return Failure("A blog post with this slug already exists");
      }
      if id !in rows {
        return Failure("Failed to update blog post");
      }
      var p := UpdatedPost(rows[id], d, now);
      WriteKeepsTable(rows, nextId, p);
      rows := rows[id := p];
      revalidated := revalidated + ["/blog", "/blog/" + p.slug, "/admin/blog"];
      r := Success(p);
    }

    /** `deleteBlogPost`: removes exactly row `id`; a missing id is an error
        and changes nothing. */
    method Delete(id: nat) returns (r: Outcome<()>)
      requires Valid()
      modifies this
      ensures Valid()
      ensures r.Success? <==> id in old(rows)
      ensures r.Failure? ==> r.error == "Failed to delete blog post"
      ensures r.Success? ==> rows == old(rows) - {id}
                             && revalidated == old(revalidated) + ["/blog", "/admin/blog"]
      ensures r.Failure? ==> rows == old(rows) && revalidated == old(revalidated)
      ensures nextId == old(nextId)
    {
      if id !in rows {
        return Failure("Failed to delete blog post");
      }
      RemovalKeepsTable(rows, nextId, id);
      rows := rows - {id};
      revalidated := revalidated + ["/blog", "/admin/blog"];
      r := Success(());
    }

    /** `incrementBlogViews`: the post holding `slug` (published or not) gets
        one more view and nothing else changes; with no such post the call
        fails and no row is created. */
    method IncrementViews(slug: string) returns (r: Outcome<()>)
      requires Valid()
      modifies this
      ensures Valid()
      ensures r.Success? <==> SlugTaken(old(rows), slug, None)
      ensures r.Failure? ==> r.error == "Failed to increment views" && rows == old(rows)
      ensures r.Success? ==> exists k :: k in old(rows) && old(rows)[k].slug == slug
                                         && rows == old(rows)[k := Viewed(old(rows)[k])]
      ensures nextId == old(nextId) && revalidated == old(revalidated)
    {
      if !SlugTaken(rows, slug, None) {
        return Failure("Failed to increment views");
      }
      var k :| k in rows && rows[k].slug == slug;
      var viewed := Viewed(rows[k]);
      assert viewed.slug == rows[k].slug && viewed.id == k;
      rows := rows[k := viewed];
      r := Success(());
    }

    /** `getBlogPostById`: the row, or null when there is none. */
    function ById(id: nat): (r: Option<Post>)
      reads this
      requires Valid()
      ensures r.Some? <==> id in rows
      ensures r.Some? ==> r.value in rows.Values && r.value.id == id
    {
      if id in rows then Some(rows[id]) else None
    }

    /** Every row once, in ascending id order. */
    function Rows(): (r: seq<Post>)
      reads this
      requires Valid()
      ensures forall p :: multiset(r)[p] == if p in rows.Values then 1 else 0
    {
      var r := Listing(rows, nextId);
      assert forall p :: multiset(r)[p] == if p in rows.Values then 1 else 0 by {
        forall p ensures multiset(r)[p] == if p in rows.Values then 1 else 0 {
          ListingCount(rows, nextId, RowId, p);
          if p in rows.Values {
            var k :| k in rows && rows[k] == p;
          }
        }
      }
      r
    }

    /** `getAllBlogPosts`: every post exactly once, newest first. */
    function All(): (r: seq<Post>)
      reads this
      requires Valid()
      ensures SortedBy(r, AdminKey)
      ensures forall p :: multiset(r)[p] == if p in rows.Values then 1 else 0
    {
      SortBy(Rows(), AdminKey)
    }

    /** `getPublishedBlogPosts`: exactly the published posts, each once, most
        recently published first. */
    function Published(): (r: seq<Post>)
      reads this
      requires Valid()
      ensures SortedBy(r, PublicKey)
      ensures forall p :: multiset(r)[p] == if p in rows.Values && p.published then 1 else 0
    {
      var listed := Rows();
      var kept := Filter(listed, IsPublished);
      assert forall p :: multiset(kept)[p] == if p in rows.Values && p.published then 1 else 0 by {
        forall p ensures multiset(kept)[p] == if p in rows.Values && p.published then 1 else 0 {
          FilterCount(listed, IsPublished, p);
        }
      }
      SortBy(kept, PublicKey)
    }
  }
}
