/** User accounts: the user row, its serializer and registration (accounts/serializers.py, accounts/models.py). */
module Accounts {
  import opened Common

  /**
   * A user row. `password` stands for the credential handed to `create_user`; hashing it
   * belongs to the authentication library and is not modelled.
   */
  datatype User = User(
    id: nat,
    email: string,
    username: string,
    firstName: string,
    lastName: string,
    password: string,
    createdAt: nat,
    updatedAt: nat)

  /** UserSerializer's output: id (read-only), email, first_name, last_name, username. */
  datatype UserRepr = UserRepr(id: nat, email: string, firstName: string, lastName: string, username: string)

  function Serialize(u: User): UserRepr {
    UserRepr(u.id, u.email, u.firstName, u.lastName, u.username)
  }

  /** The password is write-only: two users that differ only in it serialize alike. */
  lemma SerializeHidesPassword(u: User, password: string)
    ensures Serialize(u.(password := password)) == Serialize(u)
  {
  }

  /** The serializer keeps the identifying fields of the row. */
  lemma SerializeKeepsIdentity(u: User)
    ensures Serialize(u).id == u.id && Serialize(u).email == u.email && Serialize(u).username == u.username
  {
  }

  /** `get_full_name`: first and last name joined by a space, surrounding whitespace stripped. */
  function FullName(u: User): string {
    Strip(u.firstName + " " + u.lastName)
  }

  /** `str(user)` is the email address. */
  function UserString(u: User): string {
    u.email
  }

  /** The registration body; a field the client left out is None. */
  datatype RegisterRequest = RegisterRequest(
    email: Option<string>,
    username: Option<string>,
    firstName: Option<string>,
    lastName: Option<string>,
    password: Option<string>,
    passwordConfirm: Option<string>)

  /** The validated data after `validate` popped `password_confirm`: what `create_user` receives. */
  datatype UserFields = UserFields(email: string, username: string, firstName: string, lastName: string, password: string)

  const MIN_PASSWORD_LENGTH: nat := 8
  const EMAIL_TAKEN_MESSAGE := "user with this email already exists."
  const USERNAME_TAKEN_MESSAGE := "A user with that username already exists."
  const PASSWORD_MISMATCH_MESSAGE := "Passwords do not match."

  /** The position of the last `c` in `s`, as `str.rsplit(c, 1)` finds it. */
  function LastIndexOf(s: string, c: char): (r: Option<nat>)
    ensures r.Some? ==> r.value < |s| && s[r.value] == c && forall j :: r.value < j < |s| ==> s[j] != c
    ensures r.None? ==> forall j :: 0 <= j < |s| ==> s[j] != c
    decreases |s|
  {
    if s == [] then None
    else if s[|s| - 1] == c then Some(|s| - 1)
    else LastIndexOf(s[..|s| - 1], c)
  }

  /**
   * `UserManager.normalize_email`, which `create_user` applies before the insert: the part
   * after the last '@' is lowercased (ASCII letters only here) and the rest is kept; an
   * address without '@' is stored as given.
   */
  function NormalizeEmail(email: string): (r: string)
    ensures |r| == |email|
    ensures LastIndexOf(email, '@').None? ==> r == email
    ensures LastIndexOf(email, '@').Some? ==>
      var at := LastIndexOf(email, '@').value;
      (forall j :: 0 <= j <= at ==> r[j] == email[j]) &&
      (forall j :: at < j < |email| ==> r[j] == Lower(email[j]))
  {
    match LastIndexOf(email, '@')
    case None => email
    case Some(at) => email[..at + 1] + LowerStr(email[at + 1..])
  }

  /** Lowercasing maps '@' to itself and nothing else to '@'. */
  lemma LowerKeepsAt(c: char)
    ensures Lower(c) == '@' <==> c == '@'
  {
  }

  /** Normalising twice is normalising once: the last '@' stays where it was. */
  lemma NormalizeEmailIdempotent(email: string)
    ensures NormalizeEmail(NormalizeEmail(email)) == NormalizeEmail(email)
  {
    var r := NormalizeEmail(email);
    match LastIndexOf(email, '@')
    case None =>
    case Some(at) =>
      forall j | at < j < |r| ensures r[j] != '@' {
        LowerKeepsAt(email[j]);
      }
      assert LastIndexOf(r, '@') == Some(at) by {
        LastIndexOfIsLast(r, '@', at);
      }
      LowerStrIdempotent(email[at + 1..]);
      assert r[at + 1..] == LowerStr(email[at + 1..]);
  }

  /** The last occurrence is unique: an index holding `c` with none after it is the one found. */
  lemma {:induction false} LastIndexOfIsLast(s: string, c: char, i: nat)
    requires i < |s| && s[i] == c
    requires forall j :: i < j < |s| ==> s[j] != c
    ensures LastIndexOf(s, c) == Some(i)
    decreases |s|
  {
    if i < |s| - 1 {
      var t := s[..|s| - 1];
      LastIndexOfIsLast(t, c, i);
    }
  }

  /** Two addresses that differ only in the case of their domain are stored alike. */
  lemma DomainCaseFolded()
    ensures NormalizeEmail("a@X.com") == "a@x.com"
  {
    LastIndexOfIsLast("a@X.com", '@', 1);
    assert "a@X.com"[2..] == "X.com";
    assert LowerStr("X.com") == "x.com";
  }

  /** A required field, not blank once trimmed, whose trimmed text must also be unique among the existing rows. */
  function UniqueFieldErrors(field: string, value: Option<string>, taken: set<string>, takenMessage: string): (errs: seq<FieldError>)
    ensures errs == [] <==> Filled(value) && Strip(value.value) !in taken
    ensures forall e :: e in errs ==> e.field == field
  {
    var e := CharFieldErrors(field, value, true, false, 0, None);
    if e == [] && Strip(value.value) in taken then [FieldError(field, takenMessage)] else e
  }

  /** The field-level errors of RegisterSerializer, in the order of its fields. */
  function RegistrationFieldErrors(req: RegisterRequest, emails: set<string>, usernames: set<string>): (errs: seq<FieldError>)
    ensures errs == [] <==>
      Filled(req.email) && Strip(req.email.value) !in emails &&
      Filled(req.username) && Strip(req.username.value) !in usernames &&
      req.password.Some? && |Strip(req.password.value)| >= MIN_PASSWORD_LENGTH &&
      req.passwordConfirm.Some? && |Strip(req.passwordConfirm.value)| >= MIN_PASSWORD_LENGTH
  {
    UniqueFieldErrors("email", req.email, emails, EMAIL_TAKEN_MESSAGE)
    + UniqueFieldErrors("username", req.username, usernames, USERNAME_TAKEN_MESSAGE)
    + CharFieldErrors("first_name", req.firstName, false, true, 0, None)
    + CharFieldErrors("last_name", req.lastName, false, true, 0, None)
    + CharFieldErrors("password", req.password, true, false, MIN_PASSWORD_LENGTH, None)
    + CharFieldErrors("password_confirm", req.passwordConfirm, true, false, MIN_PASSWORD_LENGTH, None)
  }

  /**
   * `is_valid` on RegisterSerializer: field validation first, then `validate`, which pops
   * `password_confirm` and compares it with `password`. Every field is a string field that
   * trims its text, the two passwords included, so the comparison and the saved values are
   * the trimmed ones.
   */
  function ValidateRegistration(req: RegisterRequest, emails: set<string>, usernames: set<string>): (r: Result<UserFields, seq<FieldError>>)
    ensures r.Err? ==> r.error != []
    ensures r.Ok? ==>
      Cleaned(req.password) == Cleaned(req.passwordConfirm) == Some(r.value.password) &&
      |r.value.password| >= MIN_PASSWORD_LENGTH &&
      Cleaned(req.email) == Some(r.value.email) && r.value.email != "" && r.value.email !in emails &&
      Cleaned(req.username) == Some(r.value.username) && r.value.username != "" && r.value.username !in usernames &&
      r.value.firstName == Cleaned(req.firstName).GetOr("") && r.value.lastName == Cleaned(req.lastName).GetOr("")
  {
    var errs := RegistrationFieldErrors(req, emails, usernames);
    if errs != [] then Err(errs)
    else if Strip(req.password.value) != Strip(req.passwordConfirm.value) then
      Err([FieldError("password", PASSWORD_MISMATCH_MESSAGE)])
    else
      Ok(UserFields(Strip(req.email.value), Strip(req.username.value), Cleaned(req.firstName).GetOr(""),
                    Cleaned(req.lastName).GetOr(""), Strip(req.password.value)))
  }

  /** Registration is accepted exactly when every field check passes and the two trimmed passwords agree. */
  lemma RegistrationAcceptedIff(req: RegisterRequest, emails: set<string>, usernames: set<string>)
    ensures ValidateRegistration(req, emails, usernames).Ok? <==>
      Filled(req.email) && Strip(req.email.value) !in emails &&
      Filled(req.username) && Strip(req.username.value) !in usernames &&
      req.password.Some? && |Strip(req.password.value)| >= MIN_PASSWORD_LENGTH &&
      Cleaned(req.passwordConfirm) == Cleaned(req.password)
  {
  }

  /** Otherwise-valid data with different passwords fails with one error keyed on `password`. */
  lemma MismatchKeyedOnPassword(req: RegisterRequest, emails: set<string>, usernames: set<string>)
    requires RegistrationFieldErrors(req, emails, usernames) == []
    requires Cleaned(req.password) != Cleaned(req.passwordConfirm)
    ensures ValidateRegistration(req, emails, usernames) == Err([FieldError("password", PASSWORD_MISMATCH_MESSAGE)])
  {
  }

  /** A password or confirmation shorter than eight characters once trimmed is rejected. */
  lemma ShortPasswordRejected(req: RegisterRequest, emails: set<string>, usernames: set<string>)
    requires (req.password.Some? && |Strip(req.password.value)| < MIN_PASSWORD_LENGTH) ||
             (req.passwordConfirm.Some? && |Strip(req.passwordConfirm.value)| < MIN_PASSWORD_LENGTH)
    ensures ValidateRegistration(req, emails, usernames).Err?
  {
  }

  /** An email that, trimmed, already belongs to a user is rejected. */
  lemma TakenEmailRejected(req: RegisterRequest, emails: set<string>, usernames: set<string>)
    requires Filled(req.email) && Strip(req.email.value) in emails
    ensures ValidateRegistration(req, emails, usernames).Err?
    ensures FieldError("email", EMAIL_TAKEN_MESSAGE) in ValidateRegistration(req, emails, usernames).error
  {
    var errs := RegistrationFieldErrors(req, emails, usernames);
    assert UniqueFieldErrors("email", req.email, emails, EMAIL_TAKEN_MESSAGE) == [FieldError("email", EMAIL_TAKEN_MESSAGE)];
    assert errs[0] == FieldError("email", EMAIL_TAKEN_MESSAGE);
  }

  /** Users newest first by `created_at` (the model's `ordering = ['-created_at']`), with no ties. */
  predicate NewestFirst(rows: seq<User>) {
    forall a, b :: 0 <= a < b < |rows| ==> rows[a].createdAt > rows[b].createdAt
  }
}
