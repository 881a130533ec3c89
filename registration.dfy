/** The registration form's own checks: the username is not taken, the two
    passwords agree, and the e-mail passes an ordered chain of checks in
    which the first failure wins. */
module Registration {
  import opened Results
  import opened Users

  const UsernameTakenMessage := "User with this name already exist."
  const PasswordsDifferMessage := "Your passwords don't match."
  const MissingAtMessage := "Missed the @ symbol in the email address."
  const MissingDotMessage := "Missed the . symbol in the email address."
  const IncorrectEmailMessage := "Incorrect email."
  const RequiredMessage := "This field is required."

  function EmailTakenMessage(email: string): string {
    "User with email " + email + " already exists."
  }

  /** The exact-match lookups the form runs on the user table. */
  datatype UserLookup = ByEmail(email: string) | ByUsername(name: string)

  predicate MatchesUser(q: UserLookup, u: User) {
    match q
    case ByEmail(e) => u.email == e
    case ByUsername(n) => u.username == n
  }

  /** `User.objects.filter(...).exists()`. */
  function AnyUser(users: seq<User>, q: UserLookup): (r: bool)
    ensures r <==> exists i :: 0 <= i < |users| && MatchesUser(q, users[i])
  {
    if users == [] then false
    else MatchesUser(q, users[0]) || AnyUser(users[1..], q)
  }

  /** clean_username. */
  function CleanUsername(users: seq<User>, username: string): (r: Result<string, string>)
    ensures r.Failure? <==> exists i :: 0 <= i < |users| && users[i].username == username
    ensures r.Failure? ==> r.error == UsernameTakenMessage
    ensures r.Success? ==> r.value == username
  {
    if AnyUser(users, ByUsername(username)) then Failure(UsernameTakenMessage) else Success(username)
  }

  /** clean_password2, which runs only once password2 passed its own field;
      password1 is None when its field failed. */
  function CleanPassword2(password1: Option<string>, password2: string): (r: Result<string, string>)
    ensures r.Failure? <==> password1 != Some(password2)
    ensures r.Failure? ==> r.error == PasswordsDifferMessage
    ensures r.Success? ==> r.value == password2 && password1 == Some(password2)
  {
    if password1 != Some(password2) then Failure(PasswordsDifferMessage) else Success(password2)
  }

  /** clean_email: '@' present, then '.' present, then not registered, then
      the library syntax check, whose verdict on `email` is `syntaxOk`. */
  function CleanEmail(users: seq<User>, email: string, syntaxOk: bool): (r: Result<string, string>)
    ensures '@' !in email ==> r == Failure(MissingAtMessage)
    ensures '@' in email && '.' !in email ==> r == Failure(MissingDotMessage)
    ensures '@' in email && '.' in email && (exists i :: 0 <= i < |users| && users[i].email == email) ==>
      r == Failure(EmailTakenMessage(email))
    ensures r.Success? <==>
      '@' in email && '.' in email && syntaxOk && forall i :: 0 <= i < |users| ==> users[i].email != email
    ensures r.Success? ==> r.value == email
  {
    if '@' !in email then Failure(MissingAtMessage)
    else if '.' !in email then Failure(MissingDotMessage)
    else if AnyUser(users, ByEmail(email)) then Failure(EmailTakenMessage(email))
    else if !syntaxOk then Failure(IncorrectEmailMessage)
    else Success(email)
  }

  /** The e-mail error, when there is one, is the message of the first
      check in the chain that fails: an address failing several checks
      gets exactly one message. */
  lemma EmailFirstFailureWins(users: seq<User>, email: string, syntaxOk: bool)
    ensures CleanEmail(users, email, syntaxOk).Failure? ==>
      CleanEmail(users, email, syntaxOk).error ==
        if '@' !in email then MissingAtMessage
        else if '.' !in email then MissingDotMessage
        else if exists i :: 0 <= i < |users| && users[i].email == email then EmailTakenMessage(email)
        else IncorrectEmailMessage
  {
  }

  datatype RegistrationField = UsernameField | EmailField | Password1Field | Password2Field

  /** The errors of one registration field: at most one, reported under
      that field. */
  predicate OneFieldErrors(errs: seq<(RegistrationField, string)>, f: RegistrationField) {
    |errs| <= 1 && forall k :: 0 <= k < |errs| ==> errs[k].0 == f
  }

  /** The username field: required, then clean_username. */
  function UsernameFieldErrors(users: seq<User>, username: string): (errs: seq<(RegistrationField, string)>)
    ensures OneFieldErrors(errs, UsernameField)
    ensures errs == [] <==> username != "" && CleanUsername(users, username).Success?
    ensures username != "" && CleanUsername(users, username).Failure? ==>
      errs == [(UsernameField, CleanUsername(users, username).error)]
    ensures (UsernameField, RequiredMessage) in errs <==> username == ""
  {
    if username == "" then [(UsernameField, RequiredMessage)]
    else match CleanUsername(users, username) case Failure(m) => [(UsernameField, m)] case Success(_) => []
  }

  /** The e-mail field: required, then clean_email. */
  function EmailFieldErrors(users: seq<User>, email: string, syntaxOk: bool): (errs: seq<(RegistrationField, string)>)
    ensures OneFieldErrors(errs, EmailField)
    ensures errs == [] <==> email != "" && CleanEmail(users, email, syntaxOk).Success?
    ensures email != "" && CleanEmail(users, email, syntaxOk).Failure? ==>
      errs == [(EmailField, CleanEmail(users, email, syntaxOk).error)]
    ensures (EmailField, RequiredMessage) in errs <==> email == ""
  {
    var e := CleanEmail(users, email, syntaxOk);
    assert e.Failure? ==> e.error != RequiredMessage by {
      if e.Failure? && e.error == EmailTakenMessage(email) {
        assert e.error[0] == 'U';
      }
    }
    if email == "" then [(EmailField, RequiredMessage)]
    else match e case Failure(m) => [(EmailField, m)] case Success(_) => []
  }

  /** The second password field: required, then clean_password2, which sees
      None for password1 when that field failed. */
  function Password2FieldErrors(password1: string, password2: string): (errs: seq<(RegistrationField, string)>)
    ensures OneFieldErrors(errs, Password2Field)
    ensures errs == [] <==> password2 != "" && password1 == password2
    ensures (Password2Field, RequiredMessage) in errs <==> password2 == ""
    ensures (Password2Field, PasswordsDifferMessage) in errs <==> password2 != "" && password1 != password2
  {
    if password2 == "" then [(Password2Field, RequiredMessage)]
    else match CleanPassword2(if password1 == "" then None else Some(password1), password2)
         case Failure(m) => [(Password2Field, m)] case Success(_) => []
  }

  /** Four single-field error lists, one per field in the form's order,
      never report a field twice once concatenated. */
  lemma FieldsInOrder(u: seq<(RegistrationField, string)>, e: seq<(RegistrationField, string)>,
                      p1: seq<(RegistrationField, string)>, p2: seq<(RegistrationField, string)>)
    requires OneFieldErrors(u, UsernameField) && OneFieldErrors(e, EmailField)
    requires OneFieldErrors(p1, Password1Field) && OneFieldErrors(p2, Password2Field)
    ensures var errs := u + e + p1 + p2;
      forall i, j :: 0 <= i < j < |errs| ==> errs[i].0 != errs[j].0
  {
    var errs := u + e + p1 + p2;
    assert forall k :: 0 <= k < |errs| ==>
      errs[k].0 == (if k < |u| then UsernameField
                    else if k < |u| + |e| then EmailField
                    else if k < |u| + |e| + |p1| then Password1Field
                    else Password2Field);
  }

  /** The errors of the registration form's fields, each reported under its
      field. All four are required character fields; a value is the
      submitted one after stripping, and "" stands for a missing or blank
      one. An empty value gets the required error and its clean method does
      not run. clean_password2 still runs when password1 failed, and then
      sees None for it. */
  function RegistrationErrors(users: seq<User>, username: string, email: string,
                              password1: string, password2: string,
                              syntaxOk: bool): (errs: seq<(RegistrationField, string)>)
    ensures errs == [] <==>
      username != "" && email != "" && password1 != "" && password2 != ""
      && CleanUsername(users, username).Success? && CleanEmail(users, email, syntaxOk).Success?
      && password1 == password2
    ensures (UsernameField, RequiredMessage) in errs <==> username == ""
    ensures (EmailField, RequiredMessage) in errs <==> email == ""
    ensures (Password1Field, RequiredMessage) in errs <==> password1 == ""
    ensures (Password2Field, RequiredMessage) in errs <==> password2 == ""
    ensures (Password2Field, PasswordsDifferMessage) in errs <==> password2 != "" && password1 != password2
    ensures forall i, j :: 0 <= i < j < |errs| ==> errs[i].0 != errs[j].0
  {
    var u := UsernameFieldErrors(users, username);
    var e := EmailFieldErrors(users, email, syntaxOk);
    var p1 := if password1 == "" then [(Password1Field, RequiredMessage)] else [];
    var p2 := Password2FieldErrors(password1, password2);
    var errs := u + e + p1 + p2;
    assert forall x :: x in errs <==> x in u || x in e || x in p1 || x in p2;
    FieldsInOrder(u, e, p1, p2);
    errs
  }

  /** The registered user the registration tests start from. */
  function TestingUser(): User {
    User("testing@gmail.com", "testing", false, false, true, false)
  }

  lemma RegistrationAcceptsFullInfo()
    ensures RegistrationErrors([TestingUser()], "test", "test@test.com", "123123123", "123123123", true) == []
  {
    assert "test@test.com"[4] == '@' && "test@test.com"[9] == '.';
  }

  /** No username: only the required error; the other fields pass. */
  lemma RegistrationRejectsMissingUsername()
    ensures RegistrationErrors([TestingUser()], "", "test@test.com", "123123123", "123123123", true)
      == [(UsernameField, RequiredMessage)]
  {
    assert "test@test.com"[4] == '@' && "test@test.com"[9] == '.';
  }

  lemma RegistrationRejectsTakenUsername()
    ensures RegistrationErrors([TestingUser()], "testing", "test@test.com", "123123123", "123123123", true)
      == [(UsernameField, UsernameTakenMessage)]
  {
    assert "test@test.com"[4] == '@' && "test@test.com"[9] == '.';
  }

  lemma RegistrationRejectsDifferentPasswords()
    ensures RegistrationErrors([TestingUser()], "test", "test@test.com", "123123123", "12121212", true)
      == [(Password2Field, PasswordsDifferMessage)]
  {
    assert "test@test.com"[4] == '@' && "test@test.com"[9] == '.';
  }

  lemma RegistrationRejectsTakenEmail()
    ensures RegistrationErrors([TestingUser()], "test", "testing@gmail.com", "123123123", "123123123", true)
      == [(EmailField, EmailTakenMessage("testing@gmail.com"))]
  {
    assert "testing@gmail.com"[7] == '@' && "testing@gmail.com"[13] == '.';
  }

  lemma RegistrationRejectsMissingAt()
    ensures RegistrationErrors([TestingUser()], "test", "testing#test.com", "123123123", "123123123", true)
      == [(EmailField, MissingAtMessage)]
  {
    var email := "testing#test.com";
    assert forall i :: 0 <= i < |email| ==> email[i] != '@';
  }

  lemma RegistrationRejectsMissingDot()
    ensures RegistrationErrors([TestingUser()], "test", "testing@test,com", "123123123", "123123123", true)
      == [(EmailField, MissingDotMessage)]
  {
    var email := "testing@test,com";
    assert email[7] == '@';
    assert forall i :: 0 <= i < |email| ==> email[i] != '.';
  }
}
