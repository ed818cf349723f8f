/** The authentication gate and the permission checks every protected
    endpoint depends on: the bearer token is taken from the request (section
    2.1 of RFC 6750), decoded into a user without any store lookup, and the
    user's permissions are compared with what the endpoint requires. */
module Dependencies {
  import opened Wrappers
  import opened PyStr
  import opened PyValue
  import opened Http
  import opened Constants
  import opened Jwt
  import opened RsaKeys
  import opened Schema
  import UserModel

  const NO_CREDENTIALS := "Authentication " + "credentials were not provided"
  const INVALID_CREDENTIALS := "Invalid authentication " + "credentials"

  /** A 401 with the `WWW-Authenticate: Bearer` challenge (section 3 of
      RFC 6750). */
  function Unauthorized(detail: string): HttpError {
    HttpError(UNAUTHORIZED, detail, true)
  }

  // ------------------------------------------------------------ token

  /** The token the `Authorization` header carries when the bearer scheme
      found none: the header alone, or the word after a scheme spelled
      "bearer" in any case; "" otherwise. */
  function HeaderToken(header: string): string {
    var parts := SplitWhitespace(header);
    if |parts| == 1 then parts[0]
    else if |parts| == 2 && Lower(parts[0]) == "bearer" then parts[1]
    else ""
  }

  /** `_extract_token`: `credentials` is what the `HTTPBearer` scheme found
      (the token of a `Bearer` header), `header` the raw `Authorization`
      header. */
  function ExtractToken(credentials: Option<string>, header: Option<string>): Result<string, HttpError> {
    var token :=
      if credentials.Some? then credentials.value
      else if header.Some? then HeaderToken(header.value)
      else "";
    if token == "" then Failure(Unauthorized(NO_CREDENTIALS)) else Success(token)
  }

  /** The header shapes the fallback accepts: one word, or two words the
      first of which is "bearer" in any case. */
  predicate HeaderCarriesToken(header: string) {
    var parts := SplitWhitespace(header);
    |parts| == 1 || (|parts| == 2 && Lower(parts[0]) == "bearer")
  }

  /** Credentials win over the header; without them the header gives its
      last word exactly in the accepted shapes; every other request is a
      401 challenge saying that no credentials were provided. */
  lemma ExtractTokenIff(credentials: Option<string>, header: Option<string>)
    ensures credentials.Some? && credentials.value != "" ==>
      ExtractToken(credentials, header) == Success(credentials.value)
    ensures credentials.None? ==>
      (ExtractToken(credentials, header).Success? <==> header.Some? && HeaderCarriesToken(header.value))
    ensures credentials.None? && header.Some? && HeaderCarriesToken(header.value) ==>
      ExtractToken(credentials, header).value == SplitWhitespace(header.value)[|SplitWhitespace(header.value)| - 1]
    ensures ExtractToken(credentials, header).Failure? ==>
      ExtractToken(credentials, header).error == HttpError(401, NO_CREDENTIALS, true)
  {
    if credentials.None? && header.Some? {
      HeaderTokenIff(header.value);
    }
  }

  /** The fallback finds a token exactly in the accepted shapes, and it is
      the header's last word. */
  lemma HeaderTokenIff(header: string)
    ensures HeaderToken(header) != "" <==> HeaderCarriesToken(header)
    ensures HeaderCarriesToken(header) ==>
      HeaderToken(header) == SplitWhitespace(header)[|SplitWhitespace(header)| - 1]
  {
    var parts := SplitWhitespace(header);
    if |parts| == 1 {
      assert parts[0] != "";
    } else if |parts| == 2 {
      assert parts[1] != "";
    }
  }

  /** `Authorization: Bearer <t>` and `Authorization: <t>` both give `t`;
      two words under another scheme give nothing. */
  lemma HeaderForms(scheme: string, t: string)
    requires t != "" && NoSpace(t) && scheme != "" && NoSpace(scheme)
    ensures Lower(scheme) == "bearer" ==> ExtractToken(None, Some(scheme + " " + t)) == Success(t)
    ensures Lower(scheme) != "bearer" ==> ExtractToken(None, Some(scheme + " " + t)).Failure?
    ensures ExtractToken(None, Some(t)) == Success(t)
  {
    var h := scheme + " " + t;
    SplitWhitespaceTwoWords(scheme, t);
    var parts := SplitWhitespace(h);
    assert |parts| == 2 && parts[0] == scheme && parts[1] == t;
    assert HeaderToken(h) == if Lower(scheme) == "bearer" then t else "";
    SplitWhitespaceWord(t);
    assert HeaderToken(t) == t;
  }

  // ------------------------------------------------------------ current user

  /** `get_current_user` once the token is decoded: `payload` is what
      `decode_token` gave. A missing or empty payload, or a falsy `sub`, is
      a 401; claims of the wrong type make the `User` constructor raise,
      which no handler catches (500). `now` is `datetime.utcnow()`. */
  function UserFromPayload(payload: Option<Dict>, now: int): Result<UserModel.User, HttpError> {
    if payload.None? || payload.value == map[] then Failure(Unauthorized(INVALID_CREDENTIALS))
    else
      var p := payload.value;
      var sub := Get(p, "sub", VNone);
      if !Truthy(sub) then Failure(Unauthorized(INVALID_CREDENTIALS))
      else
        var email := Get(p, "email", VStr(""));
        var perms := Get(p, "permissions", VList([]));
        if !sub.VStr? || !email.VStr? || !IsStrList(perms) then Failure(UNHANDLED)
        else Success(UserModel.User(Some(sub.s), "N/A", "N/A", email.s, "", Strings(perms.items), now, now))
  }

  /** Authentication failures are 401 challenges, never 403: no payload, or
      no usable subject, gives "Invalid authentication credentials". */
  lemma InvalidTokenIs401(payload: Option<Dict>, now: int)
    ensures payload.None? || !Truthy(Get(payload.value, "sub", VNone)) ==>
      UserFromPayload(payload, now) == Failure(HttpError(401, INVALID_CREDENTIALS, true))
    ensures UserFromPayload(payload, now).Failure? ==>
      UserFromPayload(payload, now).error.status in {401, 500}
  {
    if payload.Some? && payload.value == map[] {
      assert "sub" !in payload.value;
    }
  }

  /** The user is made from the token alone: its id is the subject, the
      email and permissions default to "" and [] when the claims are
      absent, and the names are placeholders that satisfy the record's
      constraints. */
  lemma SynthesizedUser(p: Dict, now: int)
    requires UserFromPayload(Some(p), now).Success?
    ensures var u := UserFromPayload(Some(p), now).value;
      && "sub" in p && p["sub"] == VStr(u.id.value) && u.id.value != ""
      && ("email" in p ==> p["email"] == VStr(u.email)) && ("email" !in p ==> u.email == "")
      && ("permissions" in p ==> p["permissions"] == StrList(u.permissions))
      && ("permissions" !in p ==> u.permissions == [])
      && UserModel.ValidUser(u)
  {
    var u := UserFromPayload(Some(p), now).value;
    if "permissions" in p {
      var items := p["permissions"].items;
      assert StrList(u.permissions).items == items;
    }
  }

  /** `get_current_user`: the token is extracted and decoded with the
      cached public key. A key-loading error is not a JWT error and
      escapes (500). */
  method GetCurrentUser(keys: JwtKeys, credentials: Option<string>, header: Option<string>,
                        verify: (string, Bytes) -> Option<Dict>, now: int)
    returns (r: Result<UserModel.User, HttpError>)
    requires keys.Valid()
    modifies keys
    ensures keys.Valid()
    ensures keys.privateKey == old(keys.privateKey) && keys.privateLoads == old(keys.privateLoads)
    ensures ExtractToken(credentials, header).Failure? ==>
      r == Failure(Unauthorized(NO_CREDENTIALS)) && keys.publicKey == old(keys.publicKey)
    ensures ExtractToken(credentials, header).Success? && keys.publicKey.None? ==>
      r == Failure(UNHANDLED)
    ensures ExtractToken(credentials, header).Success? && keys.publicKey.Some? ==>
      r == UserFromPayload(CheckClaims(keys.settings, verify(ExtractToken(credentials, header).value,
                                                            keys.publicKey.value)), now)
    ensures old(keys.publicKey).Some? ==> keys.publicKey == old(keys.publicKey)
    ensures ExtractToken(credentials, header).Success? ==>
      (keys.publicKey.None? <==>
         old(keys.publicKey).None? && LoadPublicKey(keys.settings.publicKeyPath, keys.settings.publicKey, keys.fs).Failure?)
  {
    var token := ExtractToken(credentials, header);
    if token.Failure? {
      return Failure(token.error);
    }
    var decoded := keys.DecodeToken(token.value, verify);
    if decoded.Failure? {
      return Failure(UNHANDLED);
    }
    r := UserFromPayload(decoded.value, now);
  }

  /** On a fresh key cache whose configured public key loads, a bearer
      token is never refused for want of a key: the answer is the user built
      from the payload checked under exactly that key. */
  method LoadableKeyAuthenticates(settings: JwtSettings, fs: FileSystem, token: string,
                                  verify: (string, Bytes) -> Option<Dict>, now: int)
    returns (r: Result<UserModel.User, HttpError>)
    requires token != ""
    requires LoadPublicKey(settings.publicKeyPath, settings.publicKey, fs).Success?
    ensures r == UserFromPayload(CheckClaims(settings,
                   verify(token, LoadPublicKey(settings.publicKeyPath, settings.publicKey, fs).value)), now)
  {
    var keys := new JwtKeys(settings, fs);
    r := GetCurrentUser(keys, Some(token), None, verify, now);
  }

  // ------------------------------------------------------------ permissions

  /** `set(required) - set(held)`, each name once, in the order it is first
      required. */
  function Missing(required: seq<string>, held: seq<string>): seq<string> {
    MissingAfter(required, held, [])
  }

  function MissingAfter(required: seq<string>, held: seq<string>, acc: seq<string>): seq<string>
    decreases |required|
  {
    if required == [] then acc
    else
      var p := required[0];
      MissingAfter(required[1..], held, if p in held || p in acc then acc else acc + [p])
  }

  predicate Distinct(xs: seq<string>) {
    forall i, j :: 0 <= i < j < |xs| ==> xs[i] != xs[j]
  }

  lemma {:induction false} MissingAfterMembers(required: seq<string>, held: seq<string>, acc: seq<string>, x: string)
    requires Distinct(acc)
    ensures Distinct(MissingAfter(required, held, acc))
    ensures x in MissingAfter(required, held, acc) <==> x in acc || (x in required && x !in held)
    decreases |required|
  {
    if required != [] {
      var p := required[0];
      var acc' := if p in held || p in acc then acc else acc + [p];
      assert Distinct(acc');
      MissingAfterMembers(required[1..], held, acc', x);
      assert x in required <==> x == p || x in required[1..];
    }
  }

  /** The missing names are exactly the required ones not held, each
      listed once. */
  lemma MissingIsDifference(required: seq<string>, held: seq<string>)
    ensures Distinct(Missing(required, held))
    ensures forall x :: x in Missing(required, held) <==> x in required && x !in held
  {
    forall x
      ensures x in Missing(required, held) <==> x in required && x !in held
    {
      MissingAfterMembers(required, held, [], x);
    }
    MissingAfterMembers(required, held, [], "");
  }

  /** The `permission_checker` of `require_permissions(*required)`;
      `None` lets the request through. */
  function RequirePermissions(required: seq<string>, held: seq<string>): Option<HttpError> {
    if ADMIN in held then None
    else
      var missing := Missing(required, held);
      if missing != [] then Some(HttpError(FORBIDDEN, "Insufficient permissions. Required: " + Join(", ", missing), false))
      else None
  }

  /** "admin" passes every check; otherwise the check passes exactly when
      every required permission is held (so requiring nothing always
      passes), and a refusal is a 403 naming exactly the missing ones. */
  lemma RequirePermissionsIff(required: seq<string>, held: seq<string>)
    ensures ADMIN in held ==> RequirePermissions(required, held).None?
    ensures RequirePermissions(required, held).None? <==>
      (ADMIN in held || forall p :: p in required ==> p in held)
    ensures RequirePermissions(required, held).Some? ==>
      RequirePermissions(required, held).value
        == HttpError(403, "Insufficient permissions. Required: " + Join(", ", Missing(required, held)), false)
  {
    MissingIsDifference(required, held);
    if Missing(required, held) != [] {
      assert Missing(required, held)[0] in Missing(required, held);
    }
  }

  /** The `permission_checker` of `require_any_permission(*required)`. */
  function RequireAnyPermission(required: seq<string>, held: seq<string>): Option<HttpError> {
    if ADMIN in held then None
    else if exists p :: p in required && p in held then None
    else Some(HttpError(FORBIDDEN, "Insufficient permissions. Required (any): " + Join(", ", required), false))
  }

  /** "admin" passes; otherwise the check passes exactly when one required
      permission is held, so requiring none forbids every other user. */
  lemma RequireAnyPermissionIff(required: seq<string>, held: seq<string>)
    ensures RequireAnyPermission(required, held).None? <==>
      (ADMIN in held || exists k :: 0 <= k < |required| && required[k] in held)
    ensures required == [] && ADMIN !in held ==> RequireAnyPermission(required, held).Some?
    ensures RequireAnyPermission(required, held).Some? ==>
      RequireAnyPermission(required, held).value
        == HttpError(403, "Insufficient permissions. Required (any): " + Join(", ", required), false)
  {
    if exists k :: 0 <= k < |required| && required[k] in held {
      var k :| 0 <= k < |required| && required[k] in held;
      assert required[k] in required;
    }
  }

  /** "All of" implies "any of" whenever something is required. */
  lemma AllImpliesAny(required: seq<string>, held: seq<string>)
    requires required != []
    requires RequirePermissions(required, held).None?
    ensures RequireAnyPermission(required, held).None?
  {
    RequirePermissionsIff(required, held);
    assert required[0] in required;
  }

  // ------------------------------------------------------------ admission

  /** What a request to an endpoint comes to: the endpoint's answer, an
      HTTP error, or the 422 listing the request's validation errors. */
  datatype Answer<T> = Answered(body: T) | Failed(error: HttpError) | Unprocessable(errors: seq<FieldError>)

  /** How a protected endpoint admits a request whose body, if it has one,
      is well-formed JSON (a body that is not is a 422 before any of this).
      Its dependencies are solved first: the current user (an authentication
      error ends the request), then the permission check (a 403); the
      fields of the endpoint's parameters and parsed body are validated only
      after both, their errors answered with a 422, and a validator that
      raises ends in a 500. `current` is what `get_current_user` gave. */
  function Admit<T>(required: seq<string>, current: Result<UserModel.User, HttpError>, request: Parsed<T>)
    : Answer<(UserModel.User, T)>
  {
    if current.Failure? then Failed(current.error)
    else match RequirePermissions(required, current.value.permissions)
      case Some(e) => Failed(e)
      case None =>
        match request
        case Valid(v) => Answered((current.value, v))
        case Invalid(errs) => Unprocessable(errs)
        case Raised => Failed(UNHANDLED)
  }

  /** Authentication is decided before permissions and permissions before
      the request's contents: an unauthenticated request gets its 401 and a
      user lacking a permission the 403, whatever the request holds; a
      request is admitted exactly when the user is authenticated, holds what
      is required (or "admin"), and the request's fields are valid. */
  lemma AdmitOrder<T>(required: seq<string>, current: Result<UserModel.User, HttpError>, request: Parsed<T>)
    ensures current.Failure? ==> Admit(required, current, request) == Failed(current.error)
    ensures current.Success? && ADMIN !in current.value.permissions && !SubsetOf(required, current.value.permissions) ==>
      Admit(required, current, request)
        == Failed(HttpError(403, "Insufficient permissions. Required: "
                                 + Join(", ", Missing(required, current.value.permissions)), false))
    ensures Admit(required, current, request).Answered? <==>
      && current.Success?
      && (ADMIN in current.value.permissions || SubsetOf(required, current.value.permissions))
      && request.Valid?
    ensures Admit(required, current, request).Answered? ==>
      Admit(required, current, request).body == (current.value, request.value)
    ensures Admit(required, current, request).Unprocessable? ==>
      request.Invalid? && Admit(required, current, request).errors == request.errors
  {
    if current.Success? {
      RequirePermissionsIff(required, current.value.permissions);
    }
  }

  /** A user who is not "admin" and lacks the one permission an endpoint
      requires is refused with a 403 naming that permission alone. */
  lemma AdmitRefusesMissing<T>(p: string, u: UserModel.User, request: Parsed<T>)
    requires ADMIN !in u.permissions && p !in u.permissions
    ensures Admit([p], Success(u), request) == Failed(HttpError(403, "Insufficient permissions. Required: " + p, false))
  {
    var none: seq<string> := [];
    assert [p][1..] == [] && none + [p] == [p];
    assert Missing([p], u.permissions) == MissingAfter([p][1..], u.permissions, none + [p]) == [p];
  }

  /** `PathParam(..., min_length=1)`: the path segment `name` as a
      parameter. */
  function PathParameter(name: string, raw: string): Parsed<string> {
    if raw == "" then Invalid([FieldError(name, "String should have at least 1 character")])
    else Valid(raw)
  }

  /** A path parameter validated together with a body: the path's errors
      come first; a body validator that raises ends the request. */
  function WithBody<B>(path: Parsed<string>, body: Parsed<B>): Parsed<(string, B)> {
    if body.Raised? then Raised
    else if path.Valid? && body.Valid? then Valid((path.value, body.value))
    else Invalid((if path.Invalid? then path.errors else []) + (if body.Invalid? then body.errors else []))
  }

  /** Keeps an error or a 422; continues with the admitted value. */
  function Then<A, B>(a: Answer<A>, f: A -> Answer<B>): Answer<B> {
    match a
    case Answered(v) => f(v)
    case Failed(e) => Failed(e)
    case Unprocessable(errs) => Unprocessable(errs)
  }
}
