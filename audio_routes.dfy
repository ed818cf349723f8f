/** The `/audio` endpoints: each depends on `require_auth` and names the
    permission it requires; a path id is checked by `AudioFileIdPathParams`
    inside the endpoint before the audio service is called.

    As written, every endpoint then calls the service with a `user_id`
    argument the service's methods do not take, and the listing endpoint
    calls a method the service does not have (`list_user_files`), so every
    admitted request ends in an unhandled 500. `RouteAsWritten` models that;
    `Route` is the dispatch the endpoints evidently intend, calling the
    service with the arguments it takes. */
module AudioRoutes {
  import opened Wrappers
  import opened PyStr
  import opened PyValue
  import opened Http
  import opened Constants
  import opened Schema
  import opened AudioSchemas
  import opened UserModel
  import opened Dependencies

  /** The multipart `file` field of an upload. */
  datatype UploadedFile = UploadedFile(filename: Option<string>, contentType: Option<string>,
                                       size: Option<int>, content: seq<bv8>)

  /** A request to one of the endpoints, with its parameters and body as
      FastAPI parsed them; the path segment is the raw `{id}`. */
  datatype Request =
    | ListFilesRequest(query: Parsed<Page>)
    | PlayRequest(fileId: string)
    | UploadRequest(file: Parsed<UploadedFile>)
    | UpdateRequest(fileId: string, changes: Parsed<Option<string>>)
    | DeleteRequest(fileId: string)

  /** The audio service call an admitted request comes to. */
  datatype Call =
    | ListFiles(page: Page)
    | Play(id: string)
    | Upload(upload: UploadedFile)
    | Update(id: string, fileName: Option<string>)
    | Delete(id: string)

  /** The `require_permissions(...)` dependency of each endpoint. */
  function Required(req: Request): seq<string> {
    match req
    case ListFilesRequest(_) => [READ_AUDIO]
    case PlayRequest(_) => [READ_AUDIO]
    case UploadRequest(_) => [WRITE_AUDIO]
    case UpdateRequest(_, _) => [WRITE_AUDIO]
    case DeleteRequest(_) => [DELETE_AUDIO]
  }

  /** `AudioFileIdPathParams(id=...)` inside the endpoint: the stripped id,
      or the validation error escaping as a 500. */
  function PathFileId(raw: string): (r: Answer<string>)
    ensures r.Answered? <==> !AllSpace(raw)
    ensures r.Answered? ==> r.body == Strip(raw)
    ensures r.Failed? ==> r.error == UNHANDLED
    ensures !r.Unprocessable?
  {
    FileIdPathIff(VStr(raw));
    match ParseFileIdPath(VStr(raw))
    case Success(id) => Answered(id)
    case Failure(_) => Failed(UNHANDLED)
  }

  /** What the request reaches once admitted and its path id accepted. */
  function Dispatch(req: Request, current: Result<User, HttpError>): Answer<Call> {
    match req
    case ListFilesRequest(query) =>
      Then(Admit(Required(req), current, query), (a: (User, Page)) => Answered(ListFiles(a.1)))
    case PlayRequest(raw) =>
      Then(Admit(Required(req), current, PathParameter("id", raw)),
           (a: (User, string)) => Then(PathFileId(a.1), (id: string) => Answered(Play(id))))
    case UploadRequest(file) =>
      Then(Admit(Required(req), current, file), (a: (User, UploadedFile)) => Answered(Upload(a.1)))
    case UpdateRequest(raw, changes) =>
      Then(Admit(Required(req), current, WithBody(PathParameter("id", raw), changes)),
           (a: (User, (string, Option<string>))) => Then(PathFileId(a.1.0), (id: string) => Answered(Update(id, a.1.1))))
    case DeleteRequest(raw) =>
      Then(Admit(Required(req), current, PathParameter("id", raw)),
           (a: (User, string)) => Then(PathFileId(a.1), (id: string) => Answered(Delete(id))))
  }

  /** The endpoints as written: the service call itself raises
      (`TypeError` for the unexpected `user_id`, `AttributeError` for
      `list_user_files`), so an admitted request is a 500. */
  function RouteAsWritten(req: Request, current: Result<User, HttpError>): Answer<Call> {
    Then(Dispatch(req, current), (_: Call) => Failed(UNHANDLED))
  }

  /** The endpoints as intended: the admitted call goes to the service. */
  function Route(req: Request, current: Result<User, HttpError>): Answer<Call> {
    Dispatch(req, current)
  }

  /** As written, no audio request is ever served: whatever the user and
      the request, the answer is an error or a 422. */
  lemma AsWrittenNeverServes(req: Request, current: Result<User, HttpError>)
    ensures !RouteAsWritten(req, current).Answered?
    ensures Route(req, current).Answered? ==> RouteAsWritten(req, current) == Failed(UNHANDLED)
    ensures !Route(req, current).Answered? ==> RouteAsWritten(req, current) == Route(req, current)
  {
  }

  /** The input that shows it: an "admin" asking to play `file_1` is a
      500 as written, where the intended endpoint reaches the service. */
  lemma AdminPlaybackFails(u: User)
    requires ADMIN in u.permissions
    ensures RouteAsWritten(PlayRequest("file_1"), Success(u)) == Failed(UNHANDLED)
    ensures Route(PlayRequest("file_1"), Success(u)) == Answered(Play("file_1"))
  {
    var id := "file_1";
    assert id[0] == 'f' && id[|id| - 1] == '1';
    assert !IsSpace(id[0]) && !IsSpace(id[|id| - 1]);
    assert StripLeft(id) == id && StripRight(id) == id;
    PathCheckedBeforeService(PlayRequest(id), u);
  }

  /** Every audio endpoint requires authentication: without a user the
      answer is the authentication error, whatever the request. */
  lemma AuthenticationFirst(req: Request, current: Result<User, HttpError>)
    requires current.Failure?
    ensures Route(req, current) == Failed(current.error)
    ensures RouteAsWritten(req, current) == Failed(current.error)
  {
    AdmitOrder(Required(req), current, Valid(()));
  }

  /** The permission table: a user who is not "admin" and lacks what an
      endpoint requires is refused with a 403 naming it. */
  lemma PermissionTable(req: Request, u: User)
    requires ADMIN !in u.permissions
    ensures (req.ListFilesRequest? || req.PlayRequest?) && READ_AUDIO !in u.permissions ==>
      Route(req, Success(u)) == Failed(HttpError(403, "Insufficient permissions. Required: " + READ_AUDIO, false))
    ensures (req.UploadRequest? || req.UpdateRequest?) && WRITE_AUDIO !in u.permissions ==>
      Route(req, Success(u)) == Failed(HttpError(403, "Insufficient permissions. Required: " + WRITE_AUDIO, false))
    ensures req.DeleteRequest? && DELETE_AUDIO !in u.permissions ==>
      Route(req, Success(u)) == Failed(HttpError(403, "Insufficient permissions. Required: " + DELETE_AUDIO, false))
  {
    match req {
      case ListFilesRequest(query) =>
        if READ_AUDIO !in u.permissions { AdmitRefusesMissing(READ_AUDIO, u, query); }
      case PlayRequest(raw) =>
        if READ_AUDIO !in u.permissions { AdmitRefusesMissing(READ_AUDIO, u, PathParameter("id", raw)); }
      case UploadRequest(file) =>
        if WRITE_AUDIO !in u.permissions { AdmitRefusesMissing(WRITE_AUDIO, u, file); }
      case UpdateRequest(raw, changes) =>
        if WRITE_AUDIO !in u.permissions {
          AdmitRefusesMissing(WRITE_AUDIO, u, WithBody(PathParameter("id", raw), changes));
        }
      case DeleteRequest(raw) =>
        if DELETE_AUDIO !in u.permissions { AdmitRefusesMissing(DELETE_AUDIO, u, PathParameter("id", raw)); }
    }
  }

  /** Users holding the default permissions pass the permission check of
      every audio endpoint but delete, which refuses them with a 403. */
  lemma DefaultUserAudioAccess(req: Request, u: User)
    requires u.permissions == DEFAULT_USER_PERMISSIONS
    ensures req.DeleteRequest? ==> Route(req, Success(u)).Failed? && Route(req, Success(u)).error.status == 403
    ensures !req.DeleteRequest? ==> RequirePermissions(Required(req), u.permissions).None?
  {
    DefaultPermissionsValid();
    AllPermissionsDistinct();
    RequirePermissionsIff(Required(req), u.permissions);
    PermissionTable(req, u);
  }

  /** An admitted request reaching the service carries a path id that
      `AudioFileIdPathParams` accepted: the stripped segment, never blank.
      A blank segment from an authorized user is a 500. */
  lemma PathCheckedBeforeService(req: Request, u: User)
    requires req.PlayRequest? || req.UpdateRequest? || req.DeleteRequest?
    requires req.fileId != ""
    requires ADMIN in u.permissions || SubsetOf(Required(req), u.permissions)
    requires !(req.UpdateRequest? && !req.changes.Valid?)
    ensures AllSpace(req.fileId) ==> Route(req, Success(u)) == Failed(UNHANDLED)
    ensures !AllSpace(req.fileId) ==>
      Route(req, Success(u)).Answered? &&
      match Route(req, Success(u)).body
      case Play(id) => id == Strip(req.fileId)
      case Update(id, name) => id == Strip(req.fileId) && name == req.changes.value
      case Delete(id) => id == Strip(req.fileId)
      case _ => false
  {
    RequirePermissionsIff(Required(req), u.permissions);
  }
}
