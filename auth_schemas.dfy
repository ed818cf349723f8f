/** The login request and the token response. */
module AuthSchemas {
  import opened Wrappers
  import opened PyStr
  import opened PyValue
  import opened Validators
  import opened Schema

  datatype LoginRequest = LoginRequest(email: string, password: string)

  /** `TokenResponse`; `token_type` defaults to "bearer". */
  datatype TokenResponse = TokenResponse(accessToken: string, tokenType: string)

  const DEFAULT_TOKEN_TYPE := "bearer"

  function MakeTokenResponse(accessToken: string, tokenType: Option<string>): (r: TokenResponse)
    ensures tokenType.None? ==> r.tokenType == "bearer"
    ensures tokenType.Some? ==> r.tokenType == tokenType.value
    ensures r.accessToken == accessToken
  {
    TokenResponse(accessToken, tokenType.GetOr(DEFAULT_TOKEN_TYPE))
  }

  /** The `email` validator of `LoginRequest`, followed by the field's
      `EmailStr` type. */
  function LoginEmail(refusal: EmailStrCheck, v: Value): Result<string, Exc> {
    if !v.VStr? then Failure(ValueError("Email must be a string"))
    else
      var s := Strip(v.s);
      if s == "" then Failure(ValueError("Email cannot be empty or whitespace only"))
      else EmailStr(refusal, ValidateEmailFormat(VStr(s)))
  }

  /** The `password` field has no validator; its `str` type refuses anything
      but a string. */
  function LoginPassword(v: Value): Result<string, Exc> {
    if v.VStr? then Success(v.s) else Failure(ValueError("Input should be a valid string"))
  }

  function ParseLoginRequest(refusal: EmailStrCheck, body: Dict): Parsed<LoginRequest> {
    var email := Required(body, "email", LoginEmail(refusal, Input(body, "email")));
    var password := Required(body, "password", LoginPassword(Input(body, "password")));
    if email.Escaped? || password.Escaped? then Raised
    else if !(email.Ok? && password.Ok?) then Invalid(email.Errors() + password.Errors())
    else Valid(LoginRequest(email.value, password.value))
  }

  /** A non-string or blank login email is rejected; an accepted one is the
      stripped, lower-cased input, as the shared email validator makes it,
      and `EmailStr` accepts it. An address the format check lets through
      but `EmailStr` refuses is a 422, never reaching authentication. */
  lemma LoginEmailFacts(refusal: EmailStrCheck, v: Value)
    ensures !v.VStr? ==> LoginEmail(refusal, v) == Failure(ValueError("Email must be a string"))
    ensures v.VStr? && AllSpace(v.s) ==>
      LoginEmail(refusal, v) == Failure(ValueError("Email cannot be empty or whitespace only"))
    ensures LoginEmail(refusal, v).Success? ==>
      v.VStr? && LoginEmail(refusal, v) == ValidateEmailFormat(VStr(Strip(v.s)))
      && LoginEmail(refusal, v).value == Lower(Strip(v.s)) && refusal(LoginEmail(refusal, v).value).None?
    ensures (v.VStr? && !AllSpace(v.s) && ValidateEmailFormat(VStr(Strip(v.s))).Success?
             && refusal(ValidateEmailFormat(VStr(Strip(v.s))).value).Some?) ==>
      LoginEmail(refusal, v) ==
        Failure(ValueError(EMAIL_STR_ERROR + refusal(ValidateEmailFormat(VStr(Strip(v.s))).value).value))
  {
    if v.VStr? {
      StripEmpty(v.s);
      if !AllSpace(v.s) {
        EmailAcceptedIff(Strip(v.s));
        StripIdempotent(v.s);
      }
    }
  }

  /** "a..b@ex.io" is its own strip and its own lower-case form. */
  lemma DoubledDotNormal()
    ensures Strip("a..b@ex.io") == "a..b@ex.io" && Lower("a..b@ex.io") == "a..b@ex.io"
  {
    var a := "a..b@ex.io";
    assert !IsSpace(a[0]) && !IsSpace(a[|a| - 1]);
    assert StripLeft(a) == a && StripRight(a) == a;
  }

  /** The one "@" of "a..b@ex.io" is at index 4. */
  lemma DoubledDotAt()
    ensures Find("a..b@ex.io", '@') == 4
  {
    var a := "a..b@ex.io";
    assert '@' in a by { assert a[4] == '@'; }
    assert a[0] != '@' && a[1] != '@' && a[2] != '@' && a[3] != '@';
  }

  /** "a..b@ex.io" splits at its "@" (index 4) and its last dot (index 7)
      as the email pattern requires. */
  lemma DoubledDotShape()
    ensures EmailPattern("a..b@ex.io")
  {
    var a := "a..b@ex.io";
    assert EmailShape(a, 4, 7) by {
      assert a[..4] == "a..b" && a[5..7] == "ex" && a[8..] == "io";
    }
  }

  /** The address "a..b@ex.io" has a doubled dot in its local part, which
      the pattern of `validate_email_format` admits. */
  lemma DoubledDotMatches()
    ensures ValidateEmailFormat(VStr("a..b@ex.io")) == Success("a..b@ex.io")
  {
    DoubledDotNormal();
    DoubledDotShape();
    DoubledDotAt();
    EmailOfString("a..b@ex.io");
    CheckAddressIff("a..b@ex.io");
  }

  /** The login email validator on an address that the format check
      returns unchanged leaves the verdict to `EmailStr`. */
  lemma LoginEmailOfNormal(refusal: EmailStrCheck, a: string)
    requires Strip(a) == a && ValidateEmailFormat(VStr(a)) == Success(a)
    ensures LoginEmail(refusal, VStr(a)) == EmailStr(refusal, Success(a))
  {
    assert a != "";
    StripEmpty(a);
  }

  /** The login request on a body holding `a` and `password`, whichever
      way the email field went. */
  lemma LoginOfFields(refusal: EmailStrCheck, body: Dict, password: string)
    requires "email" in body && "password" in body && body["password"] == VStr(password)
    requires LoginEmail(refusal, body["email"]).Success? || LoginEmail(refusal, body["email"]).error.ValueError?
    ensures LoginEmail(refusal, body["email"]).Success? ==>
      ParseLoginRequest(refusal, body) == Valid(LoginRequest(LoginEmail(refusal, body["email"]).value, password))
    ensures LoginEmail(refusal, body["email"]).Failure? ==>
      ParseLoginRequest(refusal, body) == Invalid([FieldError("email", LoginEmail(refusal, body["email"]).error.msg)])
  {
    var email := Required(body, "email", LoginEmail(refusal, Input(body, "email")));
    var password' := Required(body, "password", LoginPassword(Input(body, "password")));
    assert password' == Ok(password);
    assert password'.Errors() == [];
  }

  /** A login whose address the format check returns unchanged is valid
      or not as `EmailStr` decides: its refusal is the one error of the
      request. With `DoubledDotMatches`, this covers "a..b@ex.io". */
  lemma LoginLeftToEmailStr(refusal: EmailStrCheck, body: Dict, a: string, password: string)
    requires Strip(a) == a && ValidateEmailFormat(VStr(a)) == Success(a)
    requires "email" in body && body["email"] == VStr(a)
    requires "password" in body && body["password"] == VStr(password)
    ensures refusal(a).None? ==> ParseLoginRequest(refusal, body) == Valid(LoginRequest(a, password))
    ensures refusal(a).Some? ==>
      ParseLoginRequest(refusal, body) == Invalid([FieldError("email", EMAIL_STR_ERROR + refusal(a).value)])
  {
    LoginEmailOfNormal(refusal, a);
    LoginOfFields(refusal, body, password);
  }

  /** Any string is an acceptable login password, unchanged. */
  lemma LoginPasswordAnyString(s: string)
    ensures LoginPassword(VStr(s)) == Success(s)
  {
  }
}
