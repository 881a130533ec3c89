/** The Project table of the tasks application: one row per project, with the
    field bounds and the slug uniqueness that the model class declares, and the
    queryset operations (filter, exclude, exists) the forms and views run on it. */
module Projects {
  import opened Results

  /** Primary key of a row of the user table; a project refers to its owner by it. */
  type UserId = nat

  const TitleMaxLength: nat := 120
  const SlugMaxLength: nat := 120
  const ColorMaxLength: nat := 20

  /** One row of the table. `owner` is the foreign key `user`: every project has
      exactly one owner. */
  datatype Project = Project(title: string, slug: string, color: string, owner: UserId)

  /** The string form of a project is its title. */
  function Str(p: Project): (s: string)
    ensures s == p.title
  {
    p.title
  }

  /** The max_length bounds of the title, slug and colour columns. */
  predicate WithinBounds(p: Project) {
    |p.title| <= TitleMaxLength && |p.slug| <= SlugMaxLength && |p.color| <= ColorMaxLength
  }

  /** `unique=True` on the slug: no two rows share a slug, whoever owns them. */
  predicate SlugsUnique(t: seq<Project>) {
    forall i, j :: 0 <= i < j < |t| ==> t[i].slug != t[j].slug
  }

  /** What the table itself guarantees of every state. Note what is NOT here:
      nothing at the storage level keeps one owner's titles or colours apart. */
  predicate TableInvariant(t: seq<Project>) {
    (forall i :: 0 <= i < |t| ==> WithinBounds(t[i])) && SlugsUnique(t)
  }

  /** No row of `t` has slug `slug`. */
  predicate SlugFree(t: seq<Project>, slug: string) {
    forall i :: 0 <= i < |t| ==> t[i].slug != slug
  }

  /** A conjunction of exact-match field lookups, as in
      `Project.objects.filter(title=..., user=...)`; an absent component
      places no condition on its field. */
  datatype Lookup = Lookup(title: Option<string>, color: Option<string>, owner: Option<UserId>, slug: Option<string>)

  function ByOwner(u: UserId): Lookup { Lookup(None, None, Some(u), None) }
  function BySlug(s: string): Lookup { Lookup(None, None, None, Some(s)) }
  function ByTitleAndOwner(title: string, u: UserId): Lookup { Lookup(Some(title), None, Some(u), None) }
  function ByColorAndOwner(color: string, u: UserId): Lookup { Lookup(None, Some(color), Some(u), None) }

  predicate Matches(q: Lookup, p: Project) {
    && (q.title.Some? ==> p.title == q.title.value)
    && (q.color.Some? ==> p.color == q.color.value)
    && (q.owner.Some? ==> p.owner == q.owner.value)
    && (q.slug.Some? ==> p.slug == q.slug.value)
  }

  /** The rows of `t` that match `q` (keep == true: `filter`) or that do not
      (keep == false: `exclude`), in table order. */
  function Select(t: seq<Project>, q: Lookup, keep: bool): (r: seq<Project>)
    ensures |r| <= |t|
    ensures forall p :: p in r <==> p in t && Matches(q, p) == keep
  {
    if t == [] then []
    else if Matches(q, t[0]) == keep then [t[0]] + Select(t[1..], q, keep)
    else Select(t[1..], q, keep)
  }

  function Filter(t: seq<Project>, q: Lookup): seq<Project> { Select(t, q, true) }

  function Exclude(t: seq<Project>, q: Lookup): seq<Project> { Select(t, q, false) }

  /** `queryset.exists()`. */
  predicate Exists(t: seq<Project>, q: Lookup) { Filter(t, q) != [] }

  lemma ExistsIff(t: seq<Project>, q: Lookup)
    ensures Exists(t, q) <==> exists i :: 0 <= i < |t| && Matches(q, t[i])
  {
    if Exists(t, q) {
      var p := Filter(t, q)[0];
      assert p in Filter(t, q);
      var i :| 0 <= i < |t| && t[i] == p;
    } else {
      forall i | 0 <= i < |t| ensures !Matches(q, t[i]) {
        assert t[i] in t;
      }
    }
  }

  /** Selecting from a concatenation selects from each part, in order. */
  lemma {:induction false} SelectAppend(a: seq<Project>, b: seq<Project>, q: Lookup, keep: bool)
    ensures Select(a + b, q, keep) == Select(a, q, keep) + Select(b, q, keep)
  {
    if a == [] {
      assert a + b == b;
    } else {
      assert (a + b)[0] == a[0];
      assert (a + b)[1..] == a[1..] + b;
      SelectAppend(a[1..], b, q, keep);
    }
  }

  /** Every row lands on exactly one side of a lookup: the sizes of `filter`
      and `exclude` add up to the size of the table. */
  lemma {:induction false} FilterExcludeCount(t: seq<Project>, q: Lookup)
    ensures |Filter(t, q)| + |Exclude(t, q)| == |t|
  {
    if t != [] {
      FilterExcludeCount(t[1..], q);
    }
  }

  /** Adding a row that respects the bounds and carries a fresh slug keeps
      the table invariant. */
  lemma AppendKeepsInvariant(t: seq<Project>, p: Project)
    requires TableInvariant(t) && WithinBounds(p) && SlugFree(t, p.slug)
    ensures TableInvariant(t + [p])
  {
    var t' := t + [p];
    forall i, j | 0 <= i < j < |t'| ensures t'[i].slug != t'[j].slug {
      if j < |t| {
        assert t'[i] == t[i] && t'[j] == t[j];
      } else {
        assert t'[i] == t[i] && t'[j] == p;
      }
    }
  }

  /** Removing rows (a selection) keeps the table invariant. */
  lemma {:induction false} SelectKeepsInvariant(t: seq<Project>, q: Lookup, keep: bool)
    requires TableInvariant(t)
    ensures TableInvariant(Select(t, q, keep))
  {
    if t != [] {
      var rest := t[1..];
      assert TableInvariant(rest) by {
        forall i, j | 0 <= i < j < |rest| ensures rest[i].slug != rest[j].slug {
          assert rest[i] == t[i + 1] && rest[j] == t[j + 1];
        }
      }
      SelectKeepsInvariant(rest, q, keep);
      var s := Select(rest, q, keep);
      if Matches(q, t[0]) == keep {
        var r := [t[0]] + s;
        forall i, j | 0 <= i < j < |r| ensures r[i].slug != r[j].slug {
          if i == 0 {
            assert r[j] in s;
            var k :| 0 <= k < |rest| && rest[k] == r[j];
            assert t[k + 1] == r[j];
          } else {
            assert r[i] == s[i - 1] && r[j] == s[j - 1];
          }
        }
        forall i | 0 <= i < |r| ensures WithinBounds(r[i]) {
          if i > 0 { assert r[i] == s[i - 1]; }
        }
      }
    }
  }

  /** The row a slug identifies: `Project.objects.get(slug=...)`, None when
      the lookup would raise DoesNotExist. */
  function FindBySlug(t: seq<Project>, slug: string): (r: Option<nat>)
    ensures r.Some? ==> r.value < |t| && t[r.value].slug == slug
    ensures r.None? <==> SlugFree(t, slug)
  {
    if t == [] then None
    else if t[|t| - 1].slug == slug then Some(|t| - 1)
    else FindBySlug(t[..|t| - 1], slug)
  }

  /** Since slugs are unique, the row a slug finds is the only row with it. */
  lemma FindBySlugUnique(t: seq<Project>, i: nat)
    requires TableInvariant(t) && i < |t|
    ensures FindBySlug(t, t[i].slug) == Some(i)
  {
    var r := FindBySlug(t, t[i].slug);
    assert !SlugFree(t, t[i].slug);
    if r.value != i {
      assert false;
    }
  }
}
