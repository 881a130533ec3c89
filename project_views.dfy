/** The project views: the list filter, the ownership guard shared by the
    update and delete views, and the project table as a store whose create,
    update and delete operations change it in place. */
module ProjectViews {
  import opened Results
  import opened Projects
  import opened ProjectForms

  /** The logged-in request user, as the views see it: its primary key and
      its is_superuser flag. */
  datatype Actor = Actor(id: UserId, isSuperuser: bool)

  /** The route every successful create, update and delete redirects to. */
  const ProjectListRoute := "tasks:project_list"

  const CreatedMessage := "Success: Project was created."
  const UpdatedMessage := "Success: Project was updated."
  const DeletedMessage := "Success: Project was deleted."

  /** What a POST to one of the views answers. */
  datatype Response =
    | Redirect(route: string, flash: string)  // 302 after a successful write
    | FormInvalid(errors: seq<FormError>)     // 200, the form re-rendered with its errors
    | Forbidden                               // 403 from the test_func guard
    | NotFound                                // 404 from get_object
    | StorageError                            // the database refused the row (slug taken or too long)
    | ServerError                             // 500: the form's clean raised an exception that is not a ValidationError

  /** test_func of ProjectUpdateView and of ProjectDeleteView: the request
      user owns the project or is a superuser. */
  predicate CanModify(actor: Actor, owner: UserId): (r: bool)
    ensures actor.isSuperuser ==> r
    ensures actor.id == owner ==> r
    ensures r && !actor.isSuperuser ==> actor.id == owner
  {
    actor.id == owner || actor.isSuperuser
  }

  /** ProjectListView.get_queryset: the request user's projects. */
  function ProjectList(t: seq<Project>, user: UserId): (r: seq<Project>)
    ensures forall p :: p in r <==> p in t && p.owner == user
    ensures r == [] <==> forall i :: 0 <= i < |t| ==> t[i].owner != user
  {
    var r := Filter(t, ByOwner(user));
    assert r != [] ==> r[0] in r;
    assert (exists i :: 0 <= i < |t| && t[i].owner == user) ==> r != [] by {
      if i :| 0 <= i < |t| && t[i].owner == user {
        assert t[i] in r;
      }
    }
    r
  }

  /** A project created by `p.owner` shows up at the end of that user's list
      and in nobody else's. */
  lemma ListAfterCreate(t: seq<Project>, p: Project, user: UserId)
    ensures ProjectList(t + [p], user) == ProjectList(t, user) + (if p.owner == user then [p] else [])
  {
    SelectAppend(t, [p], ByOwner(user), true);
    assert [p][1..] == [];
  }

  /** The projects listed for a user and those of everybody else add up to
      the whole table. */
  lemma ListCountsAddUp(t: seq<Project>, user: UserId)
    ensures |ProjectList(t, user)| + |Exclude(t, ByOwner(user))| == |t|
  {
    FilterExcludeCount(t, ByOwner(user));
  }

  /** The same user creating a second project with a title fails on the
      title (on the required check when the title is empty); another user
      creating one with that title is unaffected. */
  lemma SecondCreateOfTitle(t: seq<Project>, p: Project, other: UserId, color: string)
    requires other != p.owner
    ensures p.title != "" ==> TitleReused in CreateErrors(t + [p], p.owner, p.title, color)
    ensures CreateErrors(t + [p], p.owner, p.title, color) != []
    ensures CreateErrors(t + [p], other, p.title, color) == CreateErrors(t, other, p.title, color)
  {
    assert p in t + [p];
    assert TitleUsedBy(t + [p], other, p.title) == TitleUsedBy(t, other, p.title) by {
      forall q | q in t + [p] && q.owner == other ensures q in t {
      }
    }
    assert ColorUsedBy(t + [p], other, color) == ColorUsedBy(t, other, color) by {
      forall q | q in t + [p] && q.owner == other ensures q in t {
      }
    }
  }

  /** The update check is scoped to the request user, not to the owner: a
      superuser can rename a project to a title its owner already uses. */
  lemma SuperuserRenameMayDuplicateTitle()
    ensures var t := [Project("a", "a-1", "red", 1), Project("b", "b-1", "blue", 1)];
      var admin := Actor(2, true);
      && PerOwnerUnique(t)
      && CanModify(admin, t[1].owner)
      && UpdateErrors(t, admin.id, "b-1", "a", "blue") == []
      && !PerOwnerUnique(t[1 := t[1].(title := "a")])
  {
    var t := [Project("a", "a-1", "red", 1), Project("b", "b-1", "blue", 1)];
    assert !TitleUsedByAnother(t, 2, "b-1", "a") by {
      forall p | p in t ensures p.owner != 2 {
        assert p == t[0] || p == t[1];
      }
    }
    var t' := t[1 := t[1].(title := "a")];
    assert t'[0].owner == t'[1].owner && t'[0].title == t'[1].title;
  }

  /** The project table. Every state satisfies the table invariant: column
      bounds and unique slugs. */
  class ProjectStore {
    var projects: seq<Project>

    ghost predicate Valid()
      reads this
    {
      TableInvariant(projects)
    }

    constructor ()
      ensures Valid() && projects == []
    {
      projects := [];
    }

    /** POST to ProjectCreateView: validate the form against the acting
        user's projects, then insert a row owned by the acting user. */
    method Create(actor: Actor, title: string, color: string, slug: string) returns (r: Response)
      requires Valid()
      modifies this
      ensures Valid()
      ensures var errs := CreateErrors(old(projects), actor.id, title, color);
        && (errs != [] ==> r == FormInvalid(errs) && projects == old(projects))
        && (errs == [] && (|slug| > SlugMaxLength || !SlugFree(old(projects), slug)) ==>
              r == StorageError && projects == old(projects))
        && (errs == [] && |slug| <= SlugMaxLength && SlugFree(old(projects), slug) ==>
              r == Redirect(ProjectListRoute, CreatedMessage)
              && projects == old(projects) + [Project(title, slug, color, actor.id)])
    {
      var errs := CreateErrors(projects, actor.id, title, color);
      if errs != [] {
        return FormInvalid(errs);
      }
      if |slug| > SlugMaxLength || FindBySlug(projects, slug).Some? {
        return StorageError;
      }
      // form_valid: the new row's owner is the request user
      var p := Project(title, slug, color, actor.id);
      AppendKeepsInvariant(projects, p);
      projects := projects + [p];
      r := Redirect(ProjectListRoute, CreatedMessage);
    }

    /** POST to ProjectUpdateView: look the project up by slug (404), run the
        guard (403), validate the form with the request user (an empty value
        makes clean raise: 500), then replace the title and colour of that
        one row. The slug is kept. */
    method Update(actor: Actor, slug: string, title: string, color: string) returns (r: Response)
      requires Valid()
      modifies this
      ensures Valid()
      ensures match FindBySlug(old(projects), slug)
        case None => r == NotFound && projects == old(projects)
        case Some(i) =>
          if !CanModify(actor, old(projects)[i].owner) then
            r == Forbidden && projects == old(projects)
          else if UpdateRaises(title, color) then
            r == ServerError && projects == old(projects)
          else if UpdateErrors(old(projects), actor.id, slug, title, color) != [] then
            r == FormInvalid(UpdateErrors(old(projects), actor.id, slug, title, color))
            && projects == old(projects)
          else
            r == Redirect(ProjectListRoute, UpdatedMessage)
            && projects == old(projects)[i := old(projects)[i].(title := title, color := color)]
    {
      var found := FindBySlug(projects, slug);
      if found.None? {
        return NotFound;
      }
      var i := found.value;
      if !CanModify(actor, projects[i].owner) {
        return Forbidden;
      }
      if UpdateRaises(title, color) {
        return ServerError;
      }
      var errs := UpdateErrors(projects, actor.id, slug, title, color);
      if errs != [] {
        return FormInvalid(errs);
      }
      var t := projects;
      projects := projects[i := projects[i].(title := title, color := color)];
      assert forall k :: 0 <= k < |t| ==> projects[k].slug == t[k].slug;
      r := Redirect(ProjectListRoute, UpdatedMessage);
    }

    /** POST to ProjectDeleteView: look the project up by slug (404), run the
        guard (403), then remove that one row. */
    method Delete(actor: Actor, slug: string) returns (r: Response)
      requires Valid()
      modifies this
      ensures Valid()
      ensures match FindBySlug(old(projects), slug)
        case None => r == NotFound && projects == old(projects)
        case Some(i) =>
          if !CanModify(actor, old(projects)[i].owner) then
            r == Forbidden && projects == old(projects)
          else
            r == Redirect(ProjectListRoute, DeletedMessage)
            && projects == old(projects)[..i] + old(projects)[i + 1..]
      ensures r.Redirect? ==> FindBySlug(projects, slug) == None
    {
      var found := FindBySlug(projects, slug);
      if found.None? {
        return NotFound;
      }
      var i := found.value;
      if !CanModify(actor, projects[i].owner) {
        return Forbidden;
      }
      var t := projects;
      projects := projects[..i] + projects[i + 1..];
      assert forall k :: 0 <= k < |projects| ==> projects[k] == (if k < i then t[k] else t[k + 1]);
      r := Redirect(ProjectListRoute, DeletedMessage);
    }

    /** on_delete=CASCADE: deleting user `u` deletes exactly the projects
        it owns and leaves every other row as it was, in order. */
    method DeleteOwner(u: UserId)
      requires Valid()
      modifies this
      ensures Valid()
      ensures projects == Exclude(old(projects), ByOwner(u))
      ensures forall p :: p in projects <==> p in old(projects) && p.owner != u
    {
      SelectKeepsInvariant(projects, ByOwner(u), false);
      projects := Exclude(projects, ByOwner(u));
    }
  }
}
