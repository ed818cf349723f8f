/** The `/users` endpoints: each names the permission it requires, admits
    the request through the authentication and permission dependencies, and
    hands the validated request to the user service. A path id is checked
    by `UserIdPathParams` inside the endpoint, before the service is
    called; that check raising is an unhandled 500. */
module UserRoutes {
  import opened Wrappers
  import opened PyStr
  import opened PyValue
  import opened Http
  import opened Constants
  import opened Schema
  import opened UserSchemas
  import opened UserModel
  import opened Dependencies

  /** A request to one of the endpoints, with its parameters and body as
      FastAPI parsed them; the path segment is the raw `{user_id}`. */
  datatype Request =
    | ListPermissionsRequest
    | CreateUserRequest(body: Parsed<UserCreate>)
    | ListUsersRequest(query: Parsed<Page>)
    | GetUserRequest(userId: string)
    | UpdateUserRequest(userId: string, changes: Parsed<UserUpdate>)
    | DeleteUserRequest(userId: string)

  /** What the endpoint does once the request is admitted: answer with the
      permission list, or call the user service. */
  datatype Call =
    | ReturnPermissions(permissions: seq<string>)
    | CreateUser(newUser: UserCreate)
    | ListUsers(page: Page)
    | GetUser(id: string)
    | UpdateUser(id: string, data: UserUpdate)
    | DeleteUser(id: string)

  /** The `require_permissions(...)` dependency of each endpoint; listing
      the permissions depends on `require_auth` alone. */
  function Required(req: Request): seq<string> {
    match req
    case ListPermissionsRequest => []
    case CreateUserRequest(_) => [WRITE_USER]
    case ListUsersRequest(_) => [READ_USER]
    case GetUserRequest(_) => [READ_USER]
    case UpdateUserRequest(_, _) => [WRITE_USER]
    case DeleteUserRequest(_) => [DELETE_USER]
  }

  /** `UserIdPathParams(user_id=...)` inside the endpoint: the stripped id,
      or the validation error escaping as a 500. */
  function PathUserId(raw: string): (r: Answer<string>)
    ensures r.Answered? <==> !AllSpace(raw)
    ensures r.Answered? ==> r.body == Strip(raw)
    ensures r.Failed? ==> r.error == UNHANDLED
    ensures !r.Unprocessable?
  {
    UserIdPathIff(VStr(raw));
    match ParseUserIdPath(VStr(raw))
    case Success(id) => Answered(id)
    case Failure(_) => Failed(UNHANDLED)
  }

  /** The endpoint a request reaches, given what `get_current_user` gave
      for it. */
  function Route(req: Request, current: Result<User, HttpError>): Answer<Call> {
    match req
    case ListPermissionsRequest =>
      Then(Admit([], current, Valid(())), (_: (User, ())) => Answered(ReturnPermissions(ALL_PERMISSIONS)))
    case CreateUserRequest(body) =>
      Then(Admit(Required(req), current, body), (a: (User, UserCreate)) => Answered(CreateUser(a.1)))
    case ListUsersRequest(query) =>
      Then(Admit(Required(req), current, query), (a: (User, Page)) => Answered(ListUsers(a.1)))
    case GetUserRequest(raw) =>
      Then(Admit(Required(req), current, PathParameter("user_id", raw)),
           (a: (User, string)) => Then(PathUserId(a.1), (id: string) => Answered(GetUser(id))))
    case UpdateUserRequest(raw, body) =>
      Then(Admit(Required(req), current, WithBody(PathParameter("user_id", raw), body)),
           (a: (User, (string, UserUpdate))) => Then(PathUserId(a.1.0), (id: string) => Answered(UpdateUser(id, a.1.1))))
    case DeleteUserRequest(raw) =>
      Then(Admit(Required(req), current, PathParameter("user_id", raw)),
           (a: (User, string)) => Then(PathUserId(a.1), (id: string) => Answered(DeleteUser(id))))
  }

  /** The raw path id of a request, if it has one. */
  function PathOf(req: Request): Option<string> {
    match req
    case GetUserRequest(raw) => Some(raw)
    case UpdateUserRequest(raw, _) => Some(raw)
    case DeleteUserRequest(raw) => Some(raw)
    case _ => None
  }

  /** Authentication comes first: a request without a valid user gets the
      authentication error, whatever endpoint it names and whatever it
      holds. */
  lemma AuthenticationFirst(req: Request, current: Result<User, HttpError>)
    requires current.Failure?
    ensures Route(req, current) == Failed(current.error)
  {
    AdmitOrder(Required(req), current, Valid(()));
  }

  /** Any authenticated user may list the permissions, and gets all seven. */
  lemma PermissionsForEveryUser(u: User)
    ensures Route(ListPermissionsRequest, Success(u)) == Answered(ReturnPermissions(ALL_PERMISSIONS))
    ensures |ALL_PERMISSIONS| == 7 && forall p :: p in ALL_PERMISSIONS ==> IsPermission(p)
  {
    RequirePermissionsIff([], u.permissions);
  }

  /** The permission table: a user who is not "admin" and lacks the one
      permission an endpoint requires is refused with a 403 naming it,
      before the request's path or body is looked at. */
  lemma PermissionTable(req: Request, u: User)
    requires ADMIN !in u.permissions
    ensures (req.CreateUserRequest? || req.UpdateUserRequest?) && WRITE_USER !in u.permissions ==>
      Route(req, Success(u)) == Failed(HttpError(403, "Insufficient permissions. Required: " + WRITE_USER, false))
    ensures (req.ListUsersRequest? || req.GetUserRequest?) && READ_USER !in u.permissions ==>
      Route(req, Success(u)) == Failed(HttpError(403, "Insufficient permissions. Required: " + READ_USER, false))
    ensures req.DeleteUserRequest? && DELETE_USER !in u.permissions ==>
      Route(req, Success(u)) == Failed(HttpError(403, "Insufficient permissions. Required: " + DELETE_USER, false))
  {
    match req {
      case ListPermissionsRequest =>
      case CreateUserRequest(body) =>
        if WRITE_USER !in u.permissions { AdmitRefusesMissing(WRITE_USER, u, body); }
      case ListUsersRequest(query) =>
        if READ_USER !in u.permissions { AdmitRefusesMissing(READ_USER, u, query); }
      case GetUserRequest(raw) =>
        if READ_USER !in u.permissions { AdmitRefusesMissing(READ_USER, u, PathParameter("user_id", raw)); }
      case UpdateUserRequest(raw, body) =>
        if WRITE_USER !in u.permissions { AdmitRefusesMissing(WRITE_USER, u, WithBody(PathParameter("user_id", raw), body)); }
      case DeleteUserRequest(raw) =>
        if DELETE_USER !in u.permissions { AdmitRefusesMissing(DELETE_USER, u, PathParameter("user_id", raw)); }
    }
  }

  /** A user holding only the default permissions can reach no endpoint
      but the permission list. */
  lemma DefaultUserLockedOut(req: Request, u: User)
    requires u.permissions == DEFAULT_USER_PERMISSIONS
    requires !req.ListPermissionsRequest?
    ensures Route(req, Success(u)).Failed? && Route(req, Success(u)).error.status == 403
  {
    DefaultPermissionsValid();
    AllPermissionsDistinct();
    PermissionTable(req, u);
  }

  /** An admitted request reaching the service carries an authorized user
      and a path id that `UserIdPathParams` accepted: the stripped segment,
      never blank. A blank segment from an authorized user is a 500. */
  lemma PathCheckedBeforeService(req: Request, u: User)
    requires PathOf(req).Some? && PathOf(req).value != ""
    requires ADMIN in u.permissions || SubsetOf(Required(req), u.permissions)
    requires !(req.UpdateUserRequest? && !req.changes.Valid?)
    ensures AllSpace(PathOf(req).value) ==> Route(req, Success(u)) == Failed(UNHANDLED)
    ensures !AllSpace(PathOf(req).value) ==>
      Route(req, Success(u)).Answered? &&
      match Route(req, Success(u)).body
      case GetUser(id) => id == Strip(PathOf(req).value)
      case UpdateUser(id, data) => id == Strip(PathOf(req).value) && data == req.changes.value
      case DeleteUser(id) => id == Strip(PathOf(req).value)
      case _ => false
  {
    RequirePermissionsIff(Required(req), u.permissions);
  }

  /** A request reaches the service only for an authenticated user who is
      "admin" or holds what the endpoint requires. */
  lemma AnsweredOnlyWhenPermitted(req: Request, current: Result<User, HttpError>)
    requires Route(req, current).Answered?
    ensures current.Success?
    ensures ADMIN in current.value.permissions || SubsetOf(Required(req), current.value.permissions)
  {
    match req {
      case ListPermissionsRequest =>
        AdmitOrder([], current, Valid(()));
      case CreateUserRequest(body) =>
        AdmitOrder(Required(req), current, body);
      case ListUsersRequest(query) =>
        AdmitOrder(Required(req), current, query);
      case GetUserRequest(raw) =>
        AdmitOrder(Required(req), current, PathParameter("user_id", raw));
      case UpdateUserRequest(raw, body) =>
        AdmitOrder(Required(req), current, WithBody(PathParameter("user_id", raw), body));
      case DeleteUserRequest(raw) =>
        AdmitOrder(Required(req), current, PathParameter("user_id", raw));
    }
  }
}
