/** The request models of the user endpoints: creation, partial update,
    list pagination and the user-id path parameter. */
module UserSchemas {
  import opened Wrappers
  import opened PyStr
  import opened PyValue
  import opened Constants
  import opened Validators
  import opened Schema
  import UserModel

  /** A validated creation request. */
  datatype UserCreate = UserCreate(
    firstName: string,
    lastName: string,
    email: string,
    password: string,
    confirmPassword: string,
    permissions: Option<seq<string>>)

  /** A name field of `UserCreate` (`what` is "First name" or "Last name"):
      a string, stripped, not blank and at most 100 characters. */
  function CreateName(what: string, v: Value): Result<string, Exc> {
    if !v.VStr? then Failure(ValueError(what + " must be a string"))
    else
      var s := Strip(v.s);
      if s == "" then Failure(ValueError(what + " cannot be empty or whitespace only"))
      else if |s| > UserModel.MAX_NAME_LENGTH then Failure(ValueError(what + " cannot exceed 100 characters"))
      else Success(s)
  }

  /** A password field of `UserCreate` (`what` is "Password" or "Confirm
      password"): a string, stripped, then checked for strength. */
  function CreatePassword(what: string, v: Value): Result<string, Exc> {
    if !v.VStr? then Failure(ValueError(what + " must be a string"))
    else
      var s := Strip(v.s);
      if s == "" then Failure(ValueError(what + " cannot be empty or whitespace only"))
      else PasswordVerdict(s)
  }

  /** The `permissions` field: `validate_permissions` on the raw value. */
  function PermissionsField(v: Value): Result<Option<seq<string>>, Exc> {
    match ValidatePermissions(v)
    case Failure(e) => Failure(e)
    case Success(w) => Success(if IsStrList(w) then Some(Strings(w.items)) else None)
  }

  const MISMATCH := FieldError("", "Password and confirm_password do not match")

  /** Building `UserCreate` from a JSON body: all six field validators run
      (the email's followed by the `EmailStr` check) and their errors are
      reported together; only when every field is valid does the
      password/confirmation match check run. */
  function ParseUserCreate(refusal: EmailStrCheck, body: Dict): Parsed<UserCreate> {
    var first := Required(body, "first_name", CreateName("First name", Input(body, "first_name")));
    var last := Required(body, "last_name", CreateName("Last name", Input(body, "last_name")));
    var email := Required(body, "email", EmailStr(refusal, ValidateEmailFormat(Input(body, "email"))));
    var password := Required(body, "password", CreatePassword("Password", Input(body, "password")));
    var confirm := Required(body, "confirm_password",
      CreatePassword("Confirm password", Input(body, "confirm_password")));
    var perms := Defaulted(body, "permissions", None, PermissionsField(Input(body, "permissions")));
    if first.Escaped? || last.Escaped? || email.Escaped? || password.Escaped? || confirm.Escaped? || perms.Escaped? then
      Raised
    else if !(first.Ok? && last.Ok? && email.Ok? && password.Ok? && confirm.Ok? && perms.Ok?) then
      Invalid(first.Errors() + last.Errors() + email.Errors() + password.Errors() + confirm.Errors() + perms.Errors())
    else if password.value != confirm.value then
      Invalid([MISMATCH])
    else
      Valid(UserCreate(first.value, last.value, email.value, password.value, confirm.value, perms.value))
  }

  /** A name is accepted exactly when it is a string that is not blank and
      at most 100 characters once stripped; the stripped name is kept. */
  lemma CreateNameIff(what: string, v: Value)
    ensures CreateName(what, v).Success? <==>
      (v.VStr? && !AllSpace(v.s) && |Strip(v.s)| <= UserModel.MAX_NAME_LENGTH)
    ensures CreateName(what, v).Success? ==> CreateName(what, v).value == Strip(v.s)
  {
    if v.VStr? {
      StripEmpty(v.s);
    }
  }

  /** A password is stripped before the strength check, and accepted
      exactly when the stripped password is strong. */
  lemma CreatePasswordIff(what: string, v: Value)
    ensures CreatePassword(what, v).Success? <==> (v.VStr? && PasswordVerdict(Strip(v.s)).Success?)
    ensures CreatePassword(what, v).Success? ==> CreatePassword(what, v).value == Strip(v.s)
  {
  }

  /** A valid creation request has stripped names of 1 to 100 characters,
      an address the email validator returns and `EmailStr` accepts, a
      strong stripped password equal to its stripped confirmation, and
      known permissions if any. */
  lemma UserCreateValid(refusal: EmailStrCheck, body: Dict)
    requires ParseUserCreate(refusal, body).Valid?
    ensures var u := ParseUserCreate(refusal, body).value;
      && "first_name" in body && body["first_name"].VStr? && u.firstName == Strip(body["first_name"].s)
      && 1 <= |u.firstName| <= UserModel.MAX_NAME_LENGTH && 1 <= |u.lastName| <= UserModel.MAX_NAME_LENGTH
      && "email" in body && ValidateEmailFormat(body["email"]) == Success(u.email) && refusal(u.email).None?
      && "password" in body && body["password"].VStr? && u.password == Strip(body["password"].s)
      && PasswordVerdict(u.password).Success?
      && u.password == u.confirmPassword
      && (u.permissions.Some? ==> forall k :: 0 <= k < |u.permissions.value| ==> IsPermission(u.permissions.value[k]))
  {
    var u := ParseUserCreate(refusal, body).value;
    CreateNameIff("First name", body["first_name"]);
    CreateNameIff("Last name", body["last_name"]);
    CreatePasswordIff("Password", body["password"]);
    if "permissions" in body {
      PermissionsAcceptedIff(body["permissions"]);
    }
  }

  /** Leading whitespace does not survive `strip()`. */
  lemma StripLeadingSpace(p: string)
    ensures Strip(" " + p) == Strip(p)
  {
    assert (" " + p)[1..] == p;
    assert StripLeft(" " + p) == StripLeft(p);
  }

  /** A password and its confirmation with a leading space both pass, and
      both are kept stripped, hence equal. */
  lemma PasswordAndPaddedConfirm(body: Dict, p: string)
    requires "password" in body && "confirm_password" in body
    requires body["password"] == VStr(p) && body["confirm_password"] == VStr(" " + p)
    requires CreatePassword("Password", VStr(p)).Success?
    ensures var password := Required(body, "password", CreatePassword("Password", Input(body, "password")));
      var confirm := Required(body, "confirm_password", CreatePassword("Confirm password", Input(body, "confirm_password")));
      password.Ok? && confirm.Ok? && password.value == confirm.value == Strip(p)
  {
    StripLeadingSpace(p);
    CreatePasswordIff("Password", VStr(p));
    CreatePasswordIff("Confirm password", VStr(" " + p));
  }

  /** Stripping happens before the comparison: a confirmation that differs
      from the password only by surrounding whitespace matches it. */
  lemma ConfirmComparedStripped(refusal: EmailStrCheck, body: Dict, p: string)
    requires "first_name" in body && "last_name" in body && "email" in body
    requires "password" in body && "confirm_password" in body && "permissions" !in body
    requires CreateName("First name", body["first_name"]).Success?
    requires CreateName("Last name", body["last_name"]).Success?
    requires EmailStr(refusal, ValidateEmailFormat(body["email"])).Success?
    requires body["password"] == VStr(p) && body["confirm_password"] == VStr(" " + p)
    requires CreatePassword("Password", VStr(p)).Success?
    ensures ParseUserCreate(refusal, body).Valid?
  {
    PasswordAndPaddedConfirm(body, p);
    assert Required(body, "first_name", CreateName("First name", Input(body, "first_name"))).Ok?;
    assert Required(body, "last_name", CreateName("Last name", Input(body, "last_name"))).Ok?;
    assert Required(body, "email", EmailStr(refusal, ValidateEmailFormat(Input(body, "email")))).Ok?;
    assert Defaulted(body, "permissions", None, PermissionsField(Input(body, "permissions"))).Ok?;
  }

  /** Field errors are reported together, before the match check: when
      both names are rejected and no validator raises anything but a
      `ValueError`, the validation error lists both. */
  lemma UserCreateCollectsErrors(refusal: EmailStrCheck, body: Dict)
    requires "first_name" in body && "last_name" in body
    requires CreateName("First name", body["first_name"]).Failure?
    requires CreateName("Last name", body["last_name"]).Failure?
    requires !ParseUserCreate(refusal, body).Raised?
    ensures ParseUserCreate(refusal, body).Invalid?
    ensures FieldError("first_name", CreateName("First name", body["first_name"]).error.msg) in ParseUserCreate(refusal, body).errors
    ensures FieldError("last_name", CreateName("Last name", body["last_name"]).error.msg) in ParseUserCreate(refusal, body).errors
  {
    var first := Required(body, "first_name", CreateName("First name", Input(body, "first_name")));
    var last := Required(body, "last_name", CreateName("Last name", Input(body, "last_name")));
    assert first.Errors() == [FieldError("first_name", CreateName("First name", body["first_name"]).error.msg)];
    assert last.Errors() == [FieldError("last_name", CreateName("Last name", body["last_name"]).error.msg)];
  }

  /** An address the format check lets through but `EmailStr` refuses
      makes the request invalid, and the validation error carries the
      `EmailStr` message against the `email` field. */
  lemma UserCreateReportsEmailStr(refusal: EmailStrCheck, body: Dict, a: string, reason: string)
    requires "email" in body && ValidateEmailFormat(body["email"]) == Success(a)
    requires refusal(a) == Some(reason)
    requires !ParseUserCreate(refusal, body).Raised?
    ensures ParseUserCreate(refusal, body).Invalid?
    ensures FieldError("email", EMAIL_STR_ERROR + reason) in ParseUserCreate(refusal, body).errors
  {
    var first := Required(body, "first_name", CreateName("First name", Input(body, "first_name")));
    var last := Required(body, "last_name", CreateName("Last name", Input(body, "last_name")));
    var email := Required(body, "email", EmailStr(refusal, ValidateEmailFormat(Input(body, "email"))));
    var e := FieldError("email", EMAIL_STR_ERROR + reason);
    assert email.Errors() == [e];
    assert ParseUserCreate(refusal, body).errors[|first.Errors() + last.Errors()|] == e;
  }

  /** A partial-update field: not sent, sent as `null` (or turned into
      `None` by its validator), or given a value. */
  datatype Provided<T> = Unset | Null | Given(value: T)

  /** A validated partial update. */
  datatype UserUpdate = UserUpdate(
    firstName: Provided<string>,
    lastName: Provided<string>,
    email: Provided<string>,
    password: Provided<string>,
    permissions: Provided<seq<string>>)

  /** A name field of `UserUpdate`. A non-string passes the validator
      untouched and is then refused by the field's `Optional[str]` type. */
  function UpdateName(what: string, v: Value): Result<Option<string>, Exc> {
    if v.VNone? then Success(None)
    else if !v.VStr? then Failure(ValueError("Input should be a valid string"))
    else
      var s := Strip(v.s);
      if s == "" then Failure(ValueError(what + " cannot be empty or whitespace only"))
      else if |s| > UserModel.MAX_NAME_LENGTH then Failure(ValueError(what + " cannot exceed 100 characters"))
      else Success(Some(s))
  }

  /** The password field of `UserUpdate`: a non-string becomes `None`. */
  function UpdatePassword(v: Value): Result<Option<string>, Exc> {
    if !v.VStr? then Success(None)
    else
      var s := Strip(v.s);
      if s == "" then Failure(ValueError("Password cannot be empty or whitespace only"))
      else
        match PasswordVerdict(s)
        case Success(p) => Success(Some(p))
        case Failure(e) => Failure(e)
  }

  /** The email field of `UserUpdate`: a non-string becomes `None`; a
      validated address then meets the `Optional[EmailStr]` type. */
  function UpdateEmail(refusal: EmailStrCheck, v: Value): (r: Result<Option<string>, Exc>)
    ensures r.Success? && r.value.Some? ==> MatchesEmail(r.value.value) && r.value.value != "" && refusal(r.value.value).None?
  {
    if !v.VStr? then Success(None)
    else
      var s := Strip(v.s);
      if s == "" then Failure(ValueError("Email cannot be empty or whitespace only"))
      else
        match EmailStr(refusal, ValidateEmailFormat(VStr(s)))
        case Success(e) => Success(Some(e))
        case Failure(e) => Failure(e)
  }

  /** A field of the update body: absent is `Unset`, a validated `None` is
      `Null`. */
  function UpdateField<T>(body: Dict, key: string, r: Result<Option<T>, Exc>): (c: Checked<Provided<T>>)
    ensures key !in body ==> c == Ok(Unset)
    ensures c.Ok? && c.value.Given? ==> r.Success? && r.value == Some(c.value.value)
  {
    if key !in body then Ok(Unset)
    else
      match Report(key, r)
      case Ok(o) => Ok(if o.Some? then Given(o.value) else Null)
      case Bad(errs) => Bad(errs)
      case Escaped => Escaped
  }

  /** Building `UserUpdate` from a JSON body; errors of all fields are
      reported together. */
  function ParseUserUpdate(refusal: EmailStrCheck, body: Dict): Parsed<UserUpdate> {
    var first := UpdateField(body, "first_name", UpdateName("First name", Input(body, "first_name")));
    var last := UpdateField(body, "last_name", UpdateName("Last name", Input(body, "last_name")));
    var email := UpdateField(body, "email", UpdateEmail(refusal, Input(body, "email")));
    var password := UpdateField(body, "password", UpdatePassword(Input(body, "password")));
    var perms := UpdateField(body, "permissions", PermissionsField(Input(body, "permissions")));
    if first.Escaped? || last.Escaped? || email.Escaped? || password.Escaped? || perms.Escaped? then
      Raised
    else if !(first.Ok? && last.Ok? && email.Ok? && password.Ok? && perms.Ok?) then
      Invalid(first.Errors() + last.Errors() + email.Errors() + password.Errors() + perms.Errors())
    else
      Valid(UserUpdate(first.value, last.value, email.value, password.value, perms.value))
  }

  /** An empty body is a valid update that sets nothing. */
  lemma EmptyUpdate(refusal: EmailStrCheck)
    ensures ParseUserUpdate(refusal, map[]) == Valid(UserUpdate(Unset, Unset, Unset, Unset, Unset))
  {
  }

  /** An explicit null validates to `None` in every field (which the
      service cannot apply; see `UserService.UpdateDict`), and a non-string
      password or email is turned into `None` rather than rejected. */
  lemma UpdateNoneFields(refusal: EmailStrCheck, v: Value)
    requires !v.VStr?
    ensures UpdatePassword(v) == Success(None)
    ensures UpdateEmail(refusal, v) == Success(None)
    ensures UpdateName("First name", VNone) == Success(None)
    ensures PermissionsField(VNone) == Success(None)
  {
  }

  /** A given update password is stripped and strong; a given email is what
      the email validator makes of the stripped input, and `EmailStr`
      accepts it. An address the format check lets through but `EmailStr`
      refuses is a validation error of the field. */
  lemma UpdateGivenValues(refusal: EmailStrCheck, v: Value)
    ensures UpdatePassword(v).Success? && UpdatePassword(v).value.Some? ==>
      v.VStr? && UpdatePassword(v).value.value == Strip(v.s) && PasswordVerdict(Strip(v.s)).Success?
    ensures UpdateEmail(refusal, v).Success? && UpdateEmail(refusal, v).value.Some? ==>
      v.VStr? && ValidateEmailFormat(VStr(Strip(v.s))) == Success(UpdateEmail(refusal, v).value.value)
      && refusal(UpdateEmail(refusal, v).value.value).None?
    ensures (v.VStr? && !AllSpace(v.s) && ValidateEmailFormat(VStr(Strip(v.s))).Success?
             && refusal(ValidateEmailFormat(VStr(Strip(v.s))).value).Some?) ==>
      UpdateEmail(refusal, v) ==
        Failure(ValueError(EMAIL_STR_ERROR + refusal(ValidateEmailFormat(VStr(Strip(v.s))).value).value))
  {
    if v.VStr? {
      StripEmpty(v.s);
    }
  }

  /** `UserListQueryParams`: `skip >= 0` (default 0), `1 <= limit <= 100`
      (default 20). */
  function ParseUserListQuery(skip: Option<int>, limit: Option<int>): Parsed<Page> {
    ParsePage(skip, limit, 20)
  }

  lemma UserListQueryDefaults()
    ensures ParseUserListQuery(None, None) == Valid(Page(0, 20))
    ensures ParseUserListQuery(None, Some(101)).Invalid?
    ensures ParseUserListQuery(Some(-1), Some(0)).Invalid?
  {
  }

  /** `UserIdPathParams.user_id`: not null, a string, not blank; the
      stripped id, with no prefix requirement. */
  function ParseUserIdPath(v: Value): Result<string, Exc> {
    if v.VNone? then Failure(ValueError("User ID is required and cannot be null"))
    else if !v.VStr? then Failure(ValueError("User ID must be a string"))
    else
      var s := Strip(v.s);
      if s == "" then Failure(ValueError("User ID cannot be empty or whitespace only"))
      else ValidateUserId(VStr(s), false)
  }

  /** A path id is accepted exactly when it is a string that is not blank;
      the stripped id is returned, whatever its prefix. */
  lemma UserIdPathIff(v: Value)
    ensures ParseUserIdPath(v).Success? <==> (v.VStr? && !AllSpace(v.s))
    ensures ParseUserIdPath(v).Success? ==> ParseUserIdPath(v).value == Strip(v.s)
  {
    if v.VStr? {
      var s := Strip(v.s);
      StripEmpty(v.s);
      if s != "" {
        IdAcceptedIff(VStr(s), false, "User", "user");
        StripIdempotent(v.s);
      }
    }
  }
}
