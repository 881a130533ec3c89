# To-do app core: projects, ownership and registration rules

This project models the business rules of a small multi-user to-do web
application and proves properties of them in Dafny. Most of the app is
framework configuration. What remains is modelled here:

- **The project table** (`Projects`, projects.dfy). Each row is
  `Project(title, slug, color, owner)`. The table invariant holds the column
  bounds (title and slug at most 120 characters, colour at most 20) and a slug
  that is unique across all users. The module also models the queryset
  operations the forms and views run on the table: `filter`, `exclude`,
  `exists` and a lookup by slug. They are written once, as `Select` over a
  `Lookup` of exact-match field conditions.
- **The project forms** (`ProjectForms`, project_forms.dfy). The create form
  rejects a title or a colour that the acting user already uses. The update
  form rejects a title used by another project (different slug) of the
  acting user, and never checks the colour. Both forms also apply the column
  bounds, in the order the form machinery applies them. Every check is a
  function of the table value, so validation cannot change the table.
- **The project views** (`ProjectViews`, project_views.dfy). This module has
  the list filter and the ownership guard `CanModify`: the request user is
  the owner or a superuser. The update view and the delete view share that
  guard. The class `ProjectStore` holds the table and changes it in place.
  Its operations are `Create`, `Update`, `Delete` and `DeleteOwner`, the
  cascade that runs when an owner is deleted. For each outcome they state a
  response of its own: redirect to the project list, the form with its errors,
  forbidden (403), not found (404) or a server error. Only the target row changes.
- **The user model** (`Users`, users.dfy). This covers the username character
  class `[a-zA-Z0-9.+-]*` with its 75-character bound and `normalize_email`.
  It also covers `_create_user` and `create_superuser` on a `UserManager`
  class, with the keyword arguments as a map that `setdefault` updates. The
  user record's string form, short name and permission answers are modelled
  too.
- **The registration form** (`Registration`, registration.dfy). It models the
  username-taken check, the password confirmation and the ordered e-mail chain
  (`@`, then `.`, then already registered, then the library syntax check).
  The first failing e-mail check decides the message. All four fields are
  required: an empty value gets the required error, and its clean method
  does not run.

The actor of a view is `Actor(id, isSuperuser)`: the request user's primary
key and its superuser flag. A slug is an input to `Create`. No code in the
core derives it. The database's unique index rejects a taken slug, and the
model returns `StorageError` for that. The model also returns `StorageError`
for a slug over 120 characters, which assumes the database enforces the
column's length (see "Left out").

Points where the code's behaviour is easy to misread, and which the model
states as the code has them:

- No code in the core recomputes a slug. `Update` keeps the row's slug.
- The update form does not check the colour.
  `ProjectForms.UpdateMayDuplicateColor` exhibits an accepted update that
  gives one owner two projects of the same colour.
- The update form's title check is scoped to the request user
  (todo_api/tasks/views.py:48), not to the project's owner. So a superuser's
  rename can give the owner two projects with the same title
  (`ProjectViews.SuperuserRenameMayDuplicateTitle`).
- The update form's `clean` reads both cleaned values without a guard
  (todo_api/tasks/forms.py:44-45). When a value is empty, its field's
  required check has already failed and the value is missing, so `clean`
  raises `KeyError`. The request then fails with a server error and the
  table is unchanged; `Update` answers `ServerError` for it.
- `normalize_email` lowers only the domain part of an address.
- The Task entity is not declared in the model file, and no view handles it.

## Model

| member | source | states |
|---|---|---|
| Projects.Str | todo_api/tasks/models.py:12-13 | a project's string form is its title |
| Projects.Select | todo_api/tasks/forms.py:47 | `filter` keeps exactly the rows matching the lookup and `exclude` exactly the others; neither adds rows |
| Projects.ExistsIff | todo_api/tasks/forms.py:18 | `exists()` holds iff some row of the table matches the lookup |
| Projects.SelectAppend | todo_api/tasks/views.py:19-20 | filtering a concatenation filters each part, in the model's insertion order |
| Projects.FilterExcludeCount | todo_api/tests/tasks/tests_project.py:78-88 | the rows a lookup keeps and the rows it drops add up to the table size (5 + 2 = 7) |
| Projects.AppendKeepsInvariant | todo_api/tasks/models.py:6-8 | a row within the column bounds whose slug is free keeps bounds and slug uniqueness when added |
| Projects.SelectKeepsInvariant | todo_api/tasks/models.py:7-9 | removing any selection of rows keeps bounds and slug uniqueness |
| Projects.FindBySlug | todo_api/tasks/views.py:56-58 | `get_object` finds a row carrying the slug, and finds none iff no row carries it |
| Projects.FindBySlugUnique | todo_api/tasks/models.py:7 | with unique slugs, the lookup of a row's slug finds exactly that row |
| ProjectForms.CleanTitle | todo_api/tasks/forms.py:12-20 | fails iff some project has this title and the form's user; otherwise returns the title unchanged |
| ProjectForms.CleanColor | todo_api/tasks/forms.py:22-26 | fails iff some project has this colour and the form's user; otherwise returns the colour unchanged |
| ProjectForms.CreateErrors | todo_api/tasks/forms.py:5-26 | the create form is valid iff title and colour are non-empty, unused by the user and within the column bounds; an empty value reports only its required error; at most one error per field |
| ProjectForms.CleanUpdate | todo_api/tasks/forms.py:38-48 | fails iff a project with another slug has this title and the user passed in |
| ProjectForms.UpdateErrors | todo_api/tasks/forms.py:29-48 | for non-empty values (an empty one makes `clean` raise), the update form is valid iff no other project of the user has the title and both values are within bounds; it reports only title reuse and length errors, each at most once, never a colour reuse |
| ProjectForms.CreateChecksIgnoreOtherUsers | todo_api/tasks/forms.py:16-26 | a title and colour that none of the user's own projects carries pass both create checks, whatever the user owns and whoever else uses them |
| ProjectForms.UpdateIgnoresColor | todo_api/tasks/forms.py:43-48 | two update submissions with a non-empty title that differ only in a non-empty, in-bounds colour get the same verdict |
| ProjectForms.CreateKeepsPerOwnerUnique | todo_api/tasks/forms.py:16-26 | inserting what the create form accepted keeps every owner's titles and colours distinct |
| ProjectForms.UpdateBlockedOnlyByOthers | todo_api/tasks/forms.py:47-48 | in a valid table, the update of row i is refused on its title exactly when a row other than i has that title and user; the edited row itself never counts |
| ProjectForms.OwnTitleNeverBlocksUpdate | todo_api/tasks/forms.py:47-48 | resubmitting a project's own non-empty title with a non-empty, in-bounds colour passes the update form, provided no other project of the owner has that title |
| ProjectForms.DuplicateTitleBlocksOwnUpdate | todo_api/tasks/forms.py:47-48 | when the owner already has a second project with the title, resubmitting it is refused |
| ProjectForms.UpdateMayDuplicateColor | todo_api/tasks/forms.py:43-48 | an accepted update can give an owner two projects of one colour |
| ProjectViews.CanModify | todo_api/tasks/views.py:56-60 | the request user is the owner or a superuser; a non-superuser passes only on its own projects; the delete view's guard (71-75) is the same predicate |
| ProjectViews.ProjectList | todo_api/tasks/views.py:19-20 | the list holds exactly the request user's projects, and is empty iff the user owns none |
| ProjectViews.ListAfterCreate | todo_api/tasks/views.py:32-34 | after a create, the creator's list gains the new project (last, in the model's insertion order) and every other list is unchanged |
| ProjectViews.ListCountsAddUp | todo_api/tests/tasks/tests_project.py:83-88 | a user's list and everybody else's projects add up to the table |
| ProjectViews.SecondCreateOfTitle | todo_api/tasks/forms.py:16-19 | the same user reusing a title is rejected (on the title check unless it is empty); another user's verdict is unaffected by it |
| ProjectViews.SuperuserRenameMayDuplicateTitle | todo_api/tasks/views.py:46-50 | the update check uses the request user, so a superuser's accepted rename can duplicate a title of the owner |
| ProjectViews.ProjectStore.Create | todo_api/tasks/views.py:23-38 | invalid form: errors, table unchanged; taken or long slug: storage error, unchanged; else one row owned by the request user is appended and the view redirects to the list |
| ProjectViews.ProjectStore.Update | todo_api/tasks/views.py:41-60 | unknown slug: 404; guard fails: 403; an empty title or colour: server error; invalid form: errors; in each case unchanged. Else only that row's title and colour change, then redirect to the list |
| ProjectViews.ProjectStore.Delete | todo_api/tasks/views.py:63-75 | unknown slug: 404; guard fails: 403, unchanged; else exactly that row is removed, a later lookup of the slug finds nothing, and the view redirects to the list |
| ProjectViews.ProjectStore.DeleteOwner | todo_api/tasks/models.py:9 | deleting an owner removes exactly its projects and keeps the others in order |
| Users.MatchesUsernameRegex | todo_api/users/models.py:8 | a string matches iff every character is in `[a-zA-Z0-9.+-]`; the empty string matches |
| Users.UsernameRegexAsWritten | todo_api/users/models.py:36-40 | the validator as applied accepts every string the class matches, and every such string followed by one newline; anything else it accepts differs from a class string only by a final newline |
| Users.TrailingNewlineAccepted | todo_api/users/models.py:8 | `"alice\n"` passes the validator as written but is not drawn from the class |
| Users.UsernameErrors | todo_api/users/models.py:36-40 | with the corrected class test, a username passes the column's validators iff all characters are in the class and it has at most 75; each failing validator reports |
| Users.LastAt | todo_api/users/models.py:16 | finds the last `@`, where `rsplit('@', 1)` splits, or none iff there is no `@` |
| Users.NormalizeEmail | todo_api/users/models.py:16 | normalising keeps the length, and an address without `@` is unchanged |
| Users.NormalizeEmailParts | todo_api/users/models.py:16 | for `local@domain` with no `@` in the domain, the local part is kept and the domain is lower-cased |
| Users.NormalizeEmailIdempotent | todo_api/users/models.py:16 | normalising a normalised address changes nothing |
| Users.NormalizeEmailExample | todo_api/tests/users/tests_users.py:27-30 | `test@GMAIL.COM` (local part `test`, domain `GMAIL.COM`) becomes `test@gmail.com` |
| Users.SetDefault | todo_api/users/models.py:23-25 | `setdefault` adds the key with the value only when absent and keeps every supplied entry |
| Users.BuildUser | todo_api/users/models.py:17 | the user gets the given e-mail, the supplied username and each supplied boolean flag, true or false; absent flags take the column defaults: not staff, not superuser, active, not admin |
| Users.SuperuserFieldsDefaults | todo_api/users/models.py:23-25 | the three flags default to True and every supplied keyword argument survives the defaulting |
| Users.UserStr | todo_api/users/models.py:58-59 | a user's string form is its e-mail |
| Users.ShortName | todo_api/users/models.py:61-62 | the short name is the string form, the e-mail |
| Users.HasPerm | todo_api/users/models.py:65-66 | every permission check answers true |
| Users.HasModulePerms | todo_api/users/models.py:68-69 | every application check answers true |
| Users.UserManager.CreateUser | todo_api/users/models.py:13-20 | no or empty e-mail: error, nobody created; else the user with the normalised e-mail is appended unless a unique column clashes |
| Users.UserManager.CreateSuperuser | todo_api/users/models.py:22-31 | after defaulting, is_staff or is_superuser other than exactly True is an error, nobody created; a created superuser is staff and superuser |
| Registration.AnyUser | todo_api/users/forms.py:57 | the existence query holds iff some stored user matches |
| Registration.CleanUsername | todo_api/users/forms.py:55-59 | fails iff a user has this username; otherwise returns it unchanged |
| Registration.CleanPassword2 | todo_api/users/forms.py:62-67 | fails iff password1 (None when its field failed) is not the submitted password2; otherwise returns password2 |
| Registration.CleanEmail | todo_api/users/forms.py:70-82 | no `@`: the @ message; `@` but no `.`: the . message; registered: a message embedding the address; accepted iff all checks pass, returned unchanged |
| Registration.EmailFirstFailureWins | todo_api/users/forms.py:70-81 | a rejected address gets the message of the first failing check in the chain |
| Registration.UsernameFieldErrors | todo_api/users/forms.py:46 | an empty username gets only the required error; otherwise the field reports nothing iff clean_username passes, and exactly its message when it fails |
| Registration.EmailFieldErrors | todo_api/users/forms.py:47 | an empty address gets only the required error; otherwise the field reports nothing iff clean_email passes, and exactly its message when it fails |
| Registration.Password2FieldErrors | todo_api/users/forms.py:49 | an empty password2 gets only the required error; otherwise the mismatch error iff the passwords differ |
| Registration.RegistrationErrors | todo_api/users/forms.py:45-82 | the required checks and the three clean methods report nothing iff all four values are non-empty, the username and address pass their checks and the passwords agree; each empty value gets the required error; no field reports twice |
| Registration.RegistrationAcceptsFullInfo | todo_api/tests/users/tests_users.py:98-100 | fresh username, address and matching passwords pass |
| Registration.RegistrationRejectsMissingUsername | todo_api/tests/users/tests_users.py:102-106 | no username gives exactly the one required error |
| Registration.RegistrationRejectsTakenUsername | todo_api/tests/users/tests_users.py:108-112 | a taken username gives exactly its one error |
| Registration.RegistrationRejectsDifferentPasswords | todo_api/tests/users/tests_users.py:114-118 | differing passwords give exactly the mismatch error |
| Registration.RegistrationRejectsTakenEmail | todo_api/tests/users/tests_users.py:120-124 | a registered address gives exactly the already-exists error embedding it |
| Registration.RegistrationRejectsMissingAt | todo_api/tests/users/tests_users.py:126-130 | `testing#test.com` gives exactly the missing-@ error |
| Registration.RegistrationRejectsMissingDot | todo_api/tests/users/tests_users.py:132-136 | `testing@test,com` gives exactly the missing-. error |

## Findings

| source | as written | input that shows it | evidently intended | confidence | as-written member | corrected member |
|---|---|---|---|---|---|---|
| todo_api/users/models.py:8 | `^[a-zA-Z0-9.+-]*$` is applied with `re.search` and no MULTILINE flag. There `$` also matches just before a final newline. | `"alice\n"` passes (Users.TrailingNewlineAccepted) | only characters of the class are accepted | high; not executed | Users.UsernameRegexAsWritten | Users.MatchesUsernameRegex |

`Users.UsernameErrors` uses the corrected matcher. The registration form's
username field strips surrounding whitespace before model validation.
Through that form, then, the trailing newline cannot arrive.

## Left out

- Slug derivation: no code in the core computes a slug, so it is an input. The admin prepopulation runs client-side, and the factories assign slugs directly.
- Tasks: the Task model is not part of this model. It is imported by the test factories but is not declared in the model file, and no view handles it.
- Project validation inputs are the values after the framework's field cleaning has stripped surrounding whitespace; the stripping itself is not modelled. An all-whitespace value therefore arrives as the empty string, which the model handles: the create form reports a required error, and the update form's `clean` raises (`ServerError`).
- Users.UsernameErrors: it uses the corrected class test, so a username ending in one `"\n"` is rejected where the column's validator accepts it. The registration form's stripping field makes that input unreachable through the form.
- Slug length: neither form validates the slug, and whether the database refuses a value over 120 characters depends on the backend (SQLite does not). `ProjectStore.Create` assumes it does, so the slug bound of the table invariant rests on that assumption.
- Row order: the model keeps the table in insertion order, so a new project is listed last. The project model declares no ordering and the list query has no `order_by`, so the program's list order is whatever the database returns.
- Model validation of the registration form's user instance is not modelled. That covers the username validators, uniqueness checks of the base form and password-strength validators. Neither is saving the registered user.
- Password hashing (`set_password`, `check_password`) is not modelled. `_create_user` and `create_superuser` take no password.
- Registration.CleanEmail: Django's `validate_email` is a library predicate. Its verdict on the address is the `syntaxOk` parameter.
- Users.NormalizeEmail: Python's `strip()` before the split is not modelled. Lower-casing covers ASCII letters only, not Unicode case mapping.
- Users.BuildUser: a keyword argument of the wrong type for a flag (an integer, say) is read as the default. Django would coerce or reject it on save. Unknown keyword arguments, which make the model constructor raise, are ignored.
- Column bounds of the user table (e-mail 255 and username 75 as database limits) are not enforced by `CreateUser`. Nothing in `_create_user` validates them.
- `CustomAuthenticationForm`: its `clean_username` is never invoked, because the form has no username field. Its `clean_password` rests on an ORM `get` and on password hashing.
- Login, logout, sessions and the login-required redirect are not modelled. The create, update and delete operations assume an authenticated actor. Listing for the anonymous user is not modelled either.
- GET requests (rendering the update form and the delete confirmation), flash-message storage, templates, internationalization, URL prefixes and admin registrations are not modelled. A redirect names its route and carries its flash text.
- Concurrency: each operation is one atomic step. The check-then-write race between concurrent requests is outside the model.
