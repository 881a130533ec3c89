/** The project create and update forms: per-user title and colour checks
    run against the table, plus the column bounds the model validation
    applies to the submitted values. Every check is a function of the table
    value it is given, so validation cannot change the table. */
module ProjectForms {
  import opened Results
  import opened Projects

  const TitleReusedMessage := "You cann't use this title again."
  const ColorReusedMessage := "You cann't use this color again."

  datatype ProjectField = TitleField | ColorField

  datatype FormError =
    | Required(field: ProjectField) // the field's own required check rejected an empty value
    | TitleReused      // clean_title / clean raised its ValidationError
    | ColorReused      // clean_color raised its ValidationError
    | TooLong(field: ProjectField)  // a max_length validator rejected the value

  /** The text the forms' own ValidationErrors carry; the framework's
      required and max_length messages are not modelled. */
  function ReuseMessage(e: FormError): string
    requires e.TitleReused? || e.ColorReused?
  {
    if e.TitleReused? then TitleReusedMessage else ColorReusedMessage
  }

  /** The form field an error is reported under. */
  function FieldOf(e: FormError): ProjectField {
    match e
    case Required(f) => f
    case TitleReused => TitleField
    case ColorReused => ColorField
    case TooLong(f) => f
  }

  /** Reference definitions of the existence queries the forms run. */
  ghost predicate TitleUsedBy(t: seq<Project>, user: UserId, title: string) {
    exists p :: p in t && p.title == title && p.owner == user
  }

  ghost predicate ColorUsedBy(t: seq<Project>, user: UserId, color: string) {
    exists p :: p in t && p.color == color && p.owner == user
  }

  /** A project other than the one with slug `slug` has this title and user. */
  ghost predicate TitleUsedByAnother(t: seq<Project>, user: UserId, slug: string, title: string) {
    exists p :: p in t && p.slug != slug && p.title == title && p.owner == user
  }

  /** ProjectCreateForm.clean_title, scoped to the user the view passes in. */
  function CleanTitle(t: seq<Project>, user: UserId, title: string): (r: Result<string, FormError>)
    ensures r.Failure? <==> TitleUsedBy(t, user, title)
    ensures r.Failure? ==> r.error == TitleReused
    ensures r.Success? ==> r.value == title
  {
    ExistsIff(t, ByTitleAndOwner(title, user));
    if Exists(t, ByTitleAndOwner(title, user)) then Failure(TitleReused) else Success(title)
  }

  /** ProjectCreateForm.clean_color, scoped to the same user. */
  function CleanColor(t: seq<Project>, user: UserId, color: string): (r: Result<string, FormError>)
    ensures r.Failure? <==> ColorUsedBy(t, user, color)
    ensures r.Failure? ==> r.error == ColorReused
    ensures r.Success? ==> r.value == color
  {
    ExistsIff(t, ByColorAndOwner(color, user));
    if Exists(t, ByColorAndOwner(color, user)) then Failure(ColorReused) else Success(color)
  }

  /** The errors of a ProjectCreateForm bound to `title` and `color`, grouped
      by field. An empty value fails the field's required
      check, and nothing else runs for that field. The title field declares
      no max_length, so the column bound is checked after clean_title, in
      model validation, and only if clean_title passed; the colour field
      inherits max_length=20 from the model, so that bound is checked before
      clean_color runs. */
  function CreateErrors(t: seq<Project>, user: UserId, title: string, color: string): (errs: seq<FormError>)
    ensures errs == [] <==>
      title != "" && color != ""
      && !TitleUsedBy(t, user, title) && !ColorUsedBy(t, user, color)
      && |title| <= TitleMaxLength && |color| <= ColorMaxLength
    ensures Required(TitleField) in errs <==> title == ""
    ensures Required(ColorField) in errs <==> color == ""
    ensures TitleReused in errs <==> title != "" && TitleUsedBy(t, user, title)
    ensures ColorReused in errs <==> color != "" && |color| <= ColorMaxLength && ColorUsedBy(t, user, color)
    ensures TooLong(TitleField) in errs <==> title != "" && !TitleUsedBy(t, user, title) && |title| > TitleMaxLength
    ensures TooLong(ColorField) in errs <==> |color| > ColorMaxLength
    ensures |errs| <= 2
    ensures forall i, j :: 0 <= i < j < |errs| ==> FieldOf(errs[i]) != FieldOf(errs[j])
  {
    var titleErrs :=
      if title == "" then [Required(TitleField)]
      else match CleanTitle(t, user, title)
           case Failure(e) => [e]
           case Success(_) => if |title| > TitleMaxLength then [TooLong(TitleField)] else [];
    var colorErrs :=
      if color == "" then [Required(ColorField)]
      else if |color| > ColorMaxLength then [TooLong(ColorField)]
      else match CleanColor(t, user, color)
           case Failure(e) => [e]
           case Success(_) => [];
    assert forall e :: e in titleErrs ==> FieldOf(e) == TitleField;
    assert forall e :: e in colorErrs ==> FieldOf(e) == ColorField;
    titleErrs + colorErrs
  }

  /** ProjectUpdateForm.clean: the title check excludes the project being
      edited (by slug) and is scoped to `user`, the request user the view
      passes in. The colour is read but not checked. */
  function CleanUpdate(t: seq<Project>, user: UserId, slug: string, title: string, color: string): (r: Result<(), FormError>)
    ensures r.Failure? <==> TitleUsedByAnother(t, user, slug, title)
    ensures r.Failure? ==> r.error == TitleReused
  {
    var others := Exclude(t, BySlug(slug));
    ExistsIff(others, ByTitleAndOwner(title, user));
    assert TitleUsedByAnother(t, user, slug, title) ==> Exists(others, ByTitleAndOwner(title, user)) by {
      if TitleUsedByAnother(t, user, slug, title) {
        var p :| p in t && p.slug != slug && p.title == title && p.owner == user;
        assert p in others;
        var i :| 0 <= i < |others| && others[i] == p;
      }
    }
    if Exists(others, ByTitleAndOwner(title, user)) then Failure(TitleReused) else Success(())
  }

  /** The errors of a ProjectUpdateForm whose two values are both non-empty
      (see UpdateRaises for the other case): the non-field error of clean,
      then model validation of both fields, which the update form declares
      without max_length and which a non-field error does not exclude. */
  function UpdateErrors(t: seq<Project>, user: UserId, slug: string, title: string, color: string): (errs: seq<FormError>)
    requires !UpdateRaises(title, color)
    ensures errs == [] <==>
      !TitleUsedByAnother(t, user, slug, title) && |title| <= TitleMaxLength && |color| <= ColorMaxLength
    ensures TitleReused in errs <==> TitleUsedByAnother(t, user, slug, title)
    ensures TooLong(TitleField) in errs <==> |title| > TitleMaxLength
    ensures TooLong(ColorField) in errs <==> |color| > ColorMaxLength
    ensures ColorReused !in errs
    ensures forall e :: e in errs ==> e == TitleReused || e.TooLong?
    ensures |errs| <= 3
    ensures forall i, j :: 0 <= i < j < |errs| ==> errs[i] != errs[j]
  {
    var cleanErrs :=
      match CleanUpdate(t, user, slug, title, color)
      case Failure(e) => [e]
      case Success(_) => [];
    cleanErrs
      + (if |title| > TitleMaxLength then [TooLong(TitleField)] else [])
      + (if |color| > ColorMaxLength then [TooLong(ColorField)] else [])
  }

  /** ProjectUpdateForm.clean reads both cleaned values without a guard. An
      empty value fails its field's required check and is then missing from
      the cleaned data, so clean raises KeyError rather than a
      ValidationError, and the request fails instead of re-rendering. */
  predicate UpdateRaises(title: string, color: string) {
    title == "" || color == ""
  }

  /** Titles and colours used only by other users' projects are accepted,
      whatever else the acting user owns: both create checks look at the
      acting user's rows alone. */
  lemma CreateChecksIgnoreOtherUsers(t: seq<Project>, user: UserId, title: string, color: string)
    requires forall i :: 0 <= i < |t| && t[i].owner == user ==> t[i].title != title && t[i].color != color
    ensures CleanTitle(t, user, title) == Success(title)
    ensures CleanColor(t, user, color) == Success(color)
  {
    forall p | p in t && p.owner == user ensures p.title != title && p.color != color {
      var i :| 0 <= i < |t| && t[i] == p;
    }
  }

  /** The update form never checks the colour: two submissions that differ
      only in an in-bounds colour get the same verdict, so a colour another
      project of the same user already has passes. */
  lemma UpdateIgnoresColor(t: seq<Project>, user: UserId, slug: string, title: string, c1: string, c2: string)
    requires !UpdateRaises(title, c1) && !UpdateRaises(title, c2)
    requires |c1| <= ColorMaxLength && |c2| <= ColorMaxLength
    ensures UpdateErrors(t, user, slug, title, c1) == UpdateErrors(t, user, slug, title, c2)
  {
  }

  /** What the forms are meant to maintain: no two projects of one owner
      share a title or a colour. The table does not enforce this itself. */
  ghost predicate PerOwnerUnique(t: seq<Project>) {
    forall i, j :: 0 <= i < j < |t| && t[i].owner == t[j].owner ==>
      t[i].title != t[j].title && t[i].color != t[j].color
  }

  /** Creating a project that passed the create form keeps PerOwnerUnique. */
  lemma CreateKeepsPerOwnerUnique(t: seq<Project>, user: UserId, title: string, slug: string, color: string)
    requires PerOwnerUnique(t)
    requires CreateErrors(t, user, title, color) == []
    ensures PerOwnerUnique(t + [Project(title, slug, color, user)])
  {
    var p := Project(title, slug, color, user);
    var t' := t + [p];
    forall i, j | 0 <= i < j < |t'| && t'[i].owner == t'[j].owner
      ensures t'[i].title != t'[j].title && t'[i].color != t'[j].color
    {
      assert t'[i] == t[i] && t'[i] in t;
      if j == |t| {
        assert t'[j] == p;
      } else {
        assert t'[j] == t[j];
      }
    }
  }

  /** Only other rows can block an update: the title check of the update
      for row i holds exactly when a row other than i has that title and
      user. The row being edited is excluded by its unique slug. */
  lemma UpdateBlockedOnlyByOthers(t: seq<Project>, i: nat, user: UserId, title: string)
    requires TableInvariant(t) && i < |t|
    ensures TitleUsedByAnother(t, user, t[i].slug, title) <==>
      exists j :: 0 <= j < |t| && j != i && t[j].title == title && t[j].owner == user
  {
    if TitleUsedByAnother(t, user, t[i].slug, title) {
      var p :| p in t && p.slug != t[i].slug && p.title == title && p.owner == user;
      var j :| 0 <= j < |t| && t[j] == p;
      assert j != i;
    }
    if j :| 0 <= j < |t| && j != i && t[j].title == title && t[j].owner == user {
      assert t[j].slug != t[i].slug;
      assert t[j] in t;
    }
  }

  /** When a project's owner resubmits its current title, its own row never
      makes the update fail, provided no other project of that owner has the
      same title. */
  lemma OwnTitleNeverBlocksUpdate(t: seq<Project>, i: nat, color: string)
    requires TableInvariant(t) && i < |t|
    requires forall j :: 0 <= j < |t| && j != i && t[j].owner == t[i].owner ==> t[j].title != t[i].title
    requires !UpdateRaises(t[i].title, color) && |color| <= ColorMaxLength
    ensures UpdateErrors(t, t[i].owner, t[i].slug, t[i].title, color) == []
  {
    UpdateBlockedOnlyByOthers(t, i, t[i].owner, t[i].title);
  }

  /** Without that proviso the promise fails: when the owner already has a
      second project with the same title, resubmitting the title is refused. */
  lemma DuplicateTitleBlocksOwnUpdate()
    ensures var t := [Project("a", "s1", "red", 1), Project("a", "s2", "blue", 1)];
      && TableInvariant(t)
      && UpdateErrors(t, 1, "s1", "a", "red") == [TitleReused]
  {
    var t := [Project("a", "s1", "red", 1), Project("a", "s2", "blue", 1)];
    assert t[1] in t;
    assert TitleUsedByAnother(t, 1, "s1", "a");
  }

  /** Because the update form does not check the colour, an update it
      accepts can give an owner two projects of the same colour. */
  lemma UpdateMayDuplicateColor()
    ensures var t := [Project("a", "a-1", "red", 1), Project("b", "b-1", "blue", 1)];
      && PerOwnerUnique(t)
      && UpdateErrors(t, 1, "b-1", "b", "red") == []
      && !PerOwnerUnique(t[1 := t[1].(color := "red")])
  {
    var t := [Project("a", "a-1", "red", 1), Project("b", "b-1", "blue", 1)];
    assert !TitleUsedByAnother(t, 1, "b-1", "b") by {
      forall p | p in t ensures !(p.slug != "b-1" && p.title == "b") {
        assert p == t[0] || p == t[1];
      }
    }
    var t' := t[1 := t[1].(color := "red")];
    assert t'[0].owner == t'[1].owner && t'[0].color == t'[1].color;
  }
}
