/** The custom user model and its manager: the username character rule,
    e-mail normalisation, _create_user and create_superuser with their
    keyword arguments, and the user record's constant answers. */
module Users {
  import opened Results

  const UsernameMaxLength: nat := 75

  /** A member of the character class [a-zA-Z0-9.+-]. */
  predicate IsUsernameChar(c: char) {
    ('a' <= c <= 'z') || ('A' <= c <= 'Z') || ('0' <= c <= '9') || c == '.' || c == '+' || c == '-'
  }

  /** `^[a-zA-Z0-9.+-]*$` as intended: the whole string is drawn from the
      class. The star admits the empty string. */
  function MatchesUsernameRegex(s: string): (r: bool)
    ensures r <==> forall i :: 0 <= i < |s| ==> IsUsernameChar(s[i])
  {
    if s == [] then true else IsUsernameChar(s[0]) && MatchesUsernameRegex(s[1..])
  }

  /** The same pattern as RegexValidator applies it (`re.search`): without
      the MULTILINE flag `$` also matches just before a final newline, so
      one trailing "\n" slips through. */
  function UsernameRegexAsWritten(s: string): (r: bool)
    ensures MatchesUsernameRegex(s) ==> r
    ensures r ==> forall i :: 0 <= i < |s| && !IsUsernameChar(s[i]) ==> i == |s| - 1 && s[i] == '\n'
    ensures s != [] && s[|s| - 1] == '\n' && MatchesUsernameRegex(s[..|s| - 1]) ==> r
  {
    MatchesUsernameRegex(s) || (s != [] && s[|s| - 1] == '\n' && MatchesUsernameRegex(s[..|s| - 1]))
  }

  lemma TrailingNewlineAccepted()
    ensures UsernameRegexAsWritten("alice\n") && !MatchesUsernameRegex("alice\n")
  {
    assert "alice\n"[..5] == "alice";
    assert !IsUsernameChar("alice\n"[5]);
  }

  datatype UsernameError = InvalidUsername | UsernameTooLong

  /** The validators of the username column, in the order the field runs
      them (the RegexValidator it is given, then its max_length check); all
      failures are reported. */
  function UsernameErrors(s: string): (errs: seq<UsernameError>)
    ensures errs == [] <==> |s| <= UsernameMaxLength && forall i :: 0 <= i < |s| ==> IsUsernameChar(s[i])
    ensures InvalidUsername in errs <==> exists i :: 0 <= i < |s| && !IsUsernameChar(s[i])
    ensures UsernameTooLong in errs <==> |s| > UsernameMaxLength
  {
    (if MatchesUsernameRegex(s) then [] else [InvalidUsername])
      + (if |s| > UsernameMaxLength then [UsernameTooLong] else [])
  }

  /** ASCII lower case. */
  function LowerChar(c: char): (r: char)
    ensures 'A' <= c <= 'Z' ==> 'a' <= r <= 'z' && r as int == c as int + 32
    ensures !('A' <= c <= 'Z') ==> r == c
  {
    if 'A' <= c <= 'Z' then (c as int + 32) as char else c
  }

  function Lower(s: string): (r: string)
    ensures |r| == |s|
    ensures forall i :: 0 <= i < |s| ==> r[i] == LowerChar(s[i])
  {
    if s == [] then [] else [LowerChar(s[0])] + Lower(s[1..])
  }

  lemma LowerIdempotent(s: string)
    ensures Lower(Lower(s)) == Lower(s)
  {
  }

  /** Position of the last '@', where `rsplit('@', 1)` splits. */
  function LastAt(s: string): (r: Option<nat>)
    ensures r.None? <==> '@' !in s
    ensures r.Some? ==> r.value < |s| && s[r.value] == '@' && '@' !in s[r.value + 1..]
  {
    if s == [] then None
    else if s[|s| - 1] == '@' then Some(|s| - 1)
    else
      assert s == s[..|s| - 1] + [s[|s| - 1]];
      var r := LastAt(s[..|s| - 1]);
      if r.Some? then assert s[r.value + 1..] == s[..|s| - 1][r.value + 1..] + [s[|s| - 1]]; r else r
  }

  lemma LastAtIs(s: string, i: nat)
    requires i < |s| && s[i] == '@' && '@' !in s[i + 1..]
    ensures LastAt(s) == Some(i)
  {
    var r := LastAt(s);
    assert r.Some? by { assert s[i] in s; }
    if r.value != i {
      assert false;
    }
  }

  /** BaseUserManager.normalize_email: the domain part, after the last '@',
      is lower-cased; the local part is kept; without '@' the address is
      returned unchanged. */
  function NormalizeEmail(email: string): (r: string)
    ensures |r| == |email|
    ensures '@' !in email ==> r == email
  {
    match LastAt(email)
    case None => email
    case Some(i) => email[..i] + "@" + Lower(email[i + 1..])
  }

  /** The domain part is lower-cased and everything up to the last '@' is
      kept as it was. */
  lemma NormalizeEmailParts(local: string, domain: string)
    requires '@' !in domain
    ensures NormalizeEmail(local + "@" + domain) == local + "@" + Lower(domain)
  {
    var e := local + "@" + domain;
    assert e[|local|] == '@';
    assert e[|local| + 1..] == domain;
    assert e[..|local|] == local;
    LastAtIs(e, |local|);
  }

  /** Normalising twice is normalising once. */
  lemma NormalizeEmailIdempotent(email: string)
    ensures NormalizeEmail(NormalizeEmail(email)) == NormalizeEmail(email)
  {
    match LastAt(email)
    case None =>
    case Some(i) =>
      var d := email[i + 1..];
      assert email == email[..i] + "@" + d;
      NormalizeEmailParts(email[..i], d);
      assert '@' !in Lower(d) by {
        forall k | 0 <= k < |d| ensures Lower(d)[k] != '@' {
          assert d[k] in d;
        }
      }
      NormalizeEmailParts(email[..i], Lower(d));
      LowerIdempotent(d);
  }

  /** The address of the normalisation test, given by its two parts: the
      parts are parameters because the verifier unfolds the recursive
      functions completely on a literal address. */
  lemma NormalizeEmailExample(local: string, domain: string)
    requires local == "test" && domain == "GMAIL.COM"
    ensures NormalizeEmail(local + "@" + domain) == "test@gmail.com"
  {
    assert '@' !in domain by {
      assert forall k :: 0 <= k < |domain| ==> domain[k] != '@';
    }
    NormalizeEmailParts(local, domain);
    LowerDomainExample(domain);
  }

  lemma LowerDomainExample(d: string)
    requires d == "GMAIL.COM"
    ensures Lower(d) == "gmail.com"
  {
    var l := Lower(d);
    assert l[0] == 'g' && l[1] == 'm' && l[2] == 'a' && l[3] == 'i' && l[4] == 'l';
    assert l[5] == '.' && l[6] == 'c' && l[7] == 'o' && l[8] == 'm';
  }

  /** A keyword-argument value. `is not True` holds of every value except
      the boolean True itself (an integer 1 included). */
  datatype Value = Bool(b: bool) | Int(i: int) | Text(s: string)

  const True := Bool(true)

  /** `extra_fields.setdefault(key, value)`. */
  function SetDefault(m: map<string, Value>, key: string, value: Value): (r: map<string, Value>)
    ensures key in r && r[key] == (if key in m then m[key] else value)
    ensures r.Keys == m.Keys + {key}
    ensures forall k :: k in m ==> r[k] == m[k]
  {
    if key in m then m else m[key := value]
  }

  datatype User = User(email: string, username: string, isStaff: bool, isSuperuser: bool, isActive: bool, isAdmin: bool)

  /** A boolean column set from a keyword argument, or its default. */
  function FlagOf(extra: map<string, Value>, key: string, default: bool): bool {
    if key in extra && extra[key].Bool? then extra[key].b else default
  }

  /** `self.model(email=email, **extra_fields)` with the column defaults:
      is_staff, is_superuser and is_admin False, is_active True, username empty. */
  function BuildUser(email: string, extra: map<string, Value>): (u: User)
    ensures u.email == email
    ensures "username" in extra && extra["username"].Text? ==> u.username == extra["username"].s
    ensures "is_staff" in extra && extra["is_staff"].Bool? ==> u.isStaff == extra["is_staff"].b
    ensures "is_superuser" in extra && extra["is_superuser"].Bool? ==> u.isSuperuser == extra["is_superuser"].b
    ensures "is_active" in extra && extra["is_active"].Bool? ==> u.isActive == extra["is_active"].b
    ensures "is_admin" in extra && extra["is_admin"].Bool? ==> u.isAdmin == extra["is_admin"].b
    ensures "is_staff" !in extra ==> !u.isStaff
    ensures "is_superuser" !in extra ==> !u.isSuperuser
    ensures "is_active" !in extra ==> u.isActive
    ensures "is_admin" !in extra ==> !u.isAdmin
  {
    User(email,
         if "username" in extra && extra["username"].Text? then extra["username"].s else "",
         FlagOf(extra, "is_staff", false),
         FlagOf(extra, "is_superuser", false),
         FlagOf(extra, "is_active", true),
         FlagOf(extra, "is_admin", false))
  }

  /** The keyword arguments create_superuser hands on after defaulting. */
  function SuperuserFields(extra: map<string, Value>): map<string, Value> {
    SetDefault(SetDefault(SetDefault(extra, "is_staff", True), "is_superuser", True), "is_active", True)
  }

  /** The three flags default to True; whatever the caller supplied is kept. */
  lemma SuperuserFieldsDefaults(extra: map<string, Value>)
    ensures var f := SuperuserFields(extra);
      && (forall k :: k in extra ==> k in f && f[k] == extra[k])
      && f.Keys == extra.Keys + {"is_staff", "is_superuser", "is_active"}
      && ("is_staff" !in extra ==> f["is_staff"] == True)
      && ("is_superuser" !in extra ==> f["is_superuser"] == True)
      && ("is_active" !in extra ==> f["is_active"] == True)
  {
  }

  datatype CreateUserError =
    | EmailNotSet       // ValueError('The Email must be set')
    | NotStaff          // ValueError('Superuser must have is_staff=True.')
    | NotSuperuser      // ValueError('Superuser must have is_superuser=True.')
    | IntegrityError    // the e-mail or the username is already stored

  function UserStr(u: User): (s: string)
    ensures s == u.email
  {
    u.email
  }

  function ShortName(u: User): (s: string)
    ensures s == UserStr(u)
  {
    u.email
  }

  /** Every user holds every permission, on every object ... */
  function HasPerm<T>(u: User, perm: string, obj: Option<T>): (r: bool)
    ensures r
  {
    true
  }

  /** ... and may use every application. */
  function HasModulePerms(u: User, appLabel: string): (r: bool)
    ensures r
  {
    true
  }

  /** Both e-mail and username are unique columns. */
  ghost predicate UsersUnique(users: seq<User>) {
    forall i, j :: 0 <= i < j < |users| ==>
      users[i].email != users[j].email && users[i].username != users[j].username
  }

  /** No stored user clashes with `u` on a unique column. */
  predicate Insertable(users: seq<User>, u: User) {
    forall i :: 0 <= i < |users| ==> users[i].email != u.email && users[i].username != u.username
  }

  /** The user table and `User.objects`. */
  class UserManager {
    var users: seq<User>

    ghost predicate Valid()
      reads this
    {
      UsersUnique(users)
    }

    constructor ()
      ensures Valid() && users == []
    {
      users := [];
    }

    /** _create_user: reject a missing or empty e-mail, normalise it, build
        the user from the keyword arguments and save it. Setting the
        password is not modelled. */
    method CreateUser(email: Option<string>, extra: map<string, Value>) returns (r: Result<User, CreateUserError>)
      requires Valid()
      modifies this
      ensures Valid()
      ensures email == None || email == Some("") ==> r == Failure(EmailNotSet) && users == old(users)
      ensures email.Some? && email.value != "" ==>
        var u := BuildUser(NormalizeEmail(email.value), extra);
        if Insertable(old(users), u) then r == Success(u) && users == old(users) + [u]
        else r == Failure(IntegrityError) && users == old(users)
    {
      if email.None? || email.value == "" {
        return Failure(EmailNotSet);
      }
      var normalized := NormalizeEmail(email.value);
      var u := BuildUser(normalized, extra);
      if !Insertable(users, u) {
        return Failure(IntegrityError);
      }
      users := users + [u];
      r := Success(u);
    }

    /** create_superuser: default the three flags to True in the keyword
        arguments, insist that is_staff and is_superuser are exactly True,
        then create the user. */
    method CreateSuperuser(email: Option<string>, extra: map<string, Value>) returns (r: Result<User, CreateUserError>)
      requires Valid()
      modifies this
      ensures Valid()
      ensures var f := SuperuserFields(extra);
        if f["is_staff"] != True then r == Failure(NotStaff) && users == old(users)
        else if f["is_superuser"] != True then r == Failure(NotSuperuser) && users == old(users)
        else if email == None || email == Some("") then r == Failure(EmailNotSet) && users == old(users)
        else
          var u := BuildUser(NormalizeEmail(email.value), f);
          if Insertable(old(users), u) then r == Success(u) && users == old(users) + [u]
          else r == Failure(IntegrityError) && users == old(users)
      ensures r.Success? ==> r.value.isStaff && r.value.isSuperuser
    {
      var fields := extra;
      fields := SetDefault(fields, "is_staff", True);
      fields := SetDefault(fields, "is_superuser", True);
      fields := SetDefault(fields, "is_active", True);
      if fields["is_staff"] != True {
        return Failure(NotStaff);
      }
      if fields["is_superuser"] != True {
        return Failure(NotSuperuser);
      }
      r := CreateUser(email, fields);
    }
  }
}
