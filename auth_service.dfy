/** Login: the user is looked up by email, the password is checked against
    the stored hash (the parameter `verifyPassword`), and an access token is
    issued for the user's id, email and permissions. */
module AuthService {
  import opened Wrappers
  import opened PyStr
  import opened PyValue
  import opened Http
  import opened Jwt
  import opened RsaKeys
  import opened UserModel
  import opened UserService
  import opened AuthSchemas
  import Dependencies

  /** The one answer to every failed login; no `WWW-Authenticate` header
      is sent with it. */
  const INVALID_LOGIN := HttpError(UNAUTHORIZED, "Invalid email or password", false)

  /** The two checks of `authenticate_user`: `found` is what the store's
      `find_by_email` gave. */
  function CheckLogin(found: Option<User>, password: string, verifyPassword: (string, string) -> bool)
    : Result<User, HttpError>
  {
    if found.None? then Failure(INVALID_LOGIN)
    else if !verifyPassword(password, found.value.hashedPassword) then Failure(INVALID_LOGIN)
    else Success(found.value)
  }

  /** An unknown email and a wrong password are answered identically, and a
      login succeeds exactly when the password matches the stored hash. */
  lemma LoginFailuresIdentical(u: User, password: string, verifyPassword: (string, string) -> bool)
    ensures CheckLogin(Some(u), password, verifyPassword).Success? <==> verifyPassword(password, u.hashedPassword)
    ensures CheckLogin(Some(u), password, verifyPassword).Success? ==>
      CheckLogin(Some(u), password, verifyPassword).value == u
    ensures !verifyPassword(password, u.hashedPassword) ==>
      CheckLogin(Some(u), password, verifyPassword) == CheckLogin(None, password, verifyPassword)
    ensures CheckLogin(None, password, verifyPassword) == Failure(HttpError(401, "Invalid email or password", false))
  {
  }

  /** The caller claims of a login token: `sub` is the user id, `email` the
      email, `permissions` the permission list. */
  function LoginClaims(u: User): Dict {
    map["sub" := (if u.id.Some? then VStr(u.id.value) else VNone),
        "email" := VStr(u.email),
        "permissions" := StrList(u.permissions)]
  }

  /** `timedelta(hours=JWT_EXPIRATION_HOURS)` in microseconds. */
  function LoginLifetime(cfg: JwtSettings): int {
    cfg.expirationHours * SECONDS_PER_HOUR * MICROS_PER_SECOND
  }

  /** The explicit lifetime is the configured one, so a zero setting (a
      falsy delta) falls back to the same value. */
  lemma LoginLifetimeIsConfigured(cfg: JwtSettings)
    ensures Lifetime(cfg, Some(LoginLifetime(cfg))) == cfg.expirationHours * 3600 * 1000000
  {
  }

  /** A login token, once its signature has been verified, passes the
      service's own claim checks (when an audience is configured) and makes
      `get_current_user` yield the logged-in user's id, email and
      permissions. */
  lemma LoginTokenAuthenticates(cfg: JwtSettings, u: User, now: int, later: int)
    requires u.id.Some? && u.id.value != ""
    requires ParseAudience(cfg.audience) != []
    ensures var claims := AccessTokenClaims(cfg, LoginClaims(u), now, Some(LoginLifetime(cfg)));
      Dependencies.UserFromPayload(CheckClaims(cfg, Some(claims)), later)
        == Success(User(u.id, "N/A", "N/A", u.email, "", u.permissions, later, later))
  {
    var data := LoginClaims(u);
    var claims := AccessTokenClaims(cfg, data, now, Some(LoginLifetime(cfg)));
    OwnClaimsAccepted(cfg, data, now, Some(LoginLifetime(cfg)));
    CheckClaimsIff(cfg, claims);
    LoginClaimsNotRegistered();
    assert "sub" in data && "email" in data && "permissions" in data;
    PayloadOfLogin(claims, u, later);
  }

  /** The login claims are none of the registered claims, so the token
      keeps them. */
  lemma LoginClaimsNotRegistered()
    ensures "sub" !in REGISTERED_CLAIMS && "email" !in REGISTERED_CLAIMS && "permissions" !in REGISTERED_CLAIMS
  {
    assert "sub"[0] == 's' && "email"[0] == 'e' && "email"[1] == 'm' && "permissions"[0] == 'p';
    assert "iss"[0] == 'i' && "aud"[0] == 'a' && "iat"[0] == 'i' && "exp"[0] == 'e' && "exp"[1] == 'x';
    assert |"email"| == 5 && |"exp"| == 3;
  }

  /** A payload carrying a user's subject, email and permissions gives that
      user back. */
  lemma PayloadOfLogin(claims: Dict, u: User, later: int)
    requires u.id.Some? && u.id.value != ""
    requires "sub" in claims && claims["sub"] == VStr(u.id.value)
    requires "email" in claims && claims["email"] == VStr(u.email)
    requires "permissions" in claims && claims["permissions"] == StrList(u.permissions)
    ensures Dependencies.UserFromPayload(Some(claims), later)
      == Success(User(u.id, "N/A", "N/A", u.email, "", u.permissions, later, later))
  {
    assert claims != map[];
  }

  /** `authenticate_user(email, password)`. The store is read, not changed;
      issuing the token may load the private key, and a key-loading error
      escapes (500). */
  method AuthenticateUser(store: UserStore, keys: JwtKeys, email: string, password: string,
                          verifyPassword: (string, string) -> bool, sign: (Dict, Bytes) -> string, now: int)
    returns (r: Result<TokenResponse, HttpError>)
    requires store.Valid() && keys.Valid()
    modifies keys
    ensures keys.Valid()
    ensures keys.publicKey == old(keys.publicKey) && keys.publicLoads == old(keys.publicLoads)
    ensures old(keys.privateKey).Some? ==> keys.privateKey == old(keys.privateKey)
    ensures !EmailTaken(store.users, email) ==> r == Failure(INVALID_LOGIN)
    ensures forall id :: id in store.users && store.users[id].email == email ==>
      var u := store.users[id];
      && (!verifyPassword(password, u.hashedPassword) ==> r == Failure(INVALID_LOGIN))
      && (verifyPassword(password, u.hashedPassword) && keys.privateKey.None? ==> r == Failure(UNHANDLED))
      && (verifyPassword(password, u.hashedPassword) ==>
            (keys.privateKey.None? <==>
               old(keys.privateKey).None?
               && LoadPrivateKey(keys.settings.privateKeyPath, keys.settings.privateKey, keys.fs).Failure?))
      && (verifyPassword(password, u.hashedPassword) && keys.privateKey.Some? ==>
            r == Success(TokenResponse(
                   sign(AccessTokenClaims(keys.settings, LoginClaims(u), now, Some(LoginLifetime(keys.settings))),
                        keys.privateKey.value),
                   "bearer")))
  {
    var found: Option<User> := None;
    if EmailTaken(store.users, email) {
      var id :| id in store.users && store.users[id].email == email;
      found := Some(store.users[id]);
    }
    var login := CheckLogin(found, password, verifyPassword);
    if login.Failure? {
      return Failure(login.error);
    }
    var u := login.value;
    var token := keys.CreateAccessToken(LoginClaims(u), now, Some(LoginLifetime(keys.settings)), sign);
    if token.Failure? {
      return Failure(UNHANDLED);
    }
    r := Success(TokenResponse(token.value, "bearer"));
  }
}
