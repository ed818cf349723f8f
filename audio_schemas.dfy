/** The request and response models of the audio endpoints. */
module AudioSchemas {
  import opened Wrappers
  import opened PyStr
  import opened PyValue
  import opened Validators
  import opened Schema

  const MAX_FILE_NAME_LENGTH: nat := 255

  /** `AudioFileResponse`; the metadata defaults to an empty mapping. */
  datatype AudioFileResponse = AudioFileResponse(
    id: string, fileName: string, fileUrl: string, fileType: string,
    fileMetadata: Dict, createdAt: int)

  /** Builds a response, leaving out the metadata when `metadata` is `None`. */
  function MakeAudioFileResponse(id: string, fileName: string, fileUrl: string, fileType: string,
                                 metadata: Option<Dict>, createdAt: int): (r: AudioFileResponse)
    ensures metadata.None? ==> r.fileMetadata == map[]
    ensures metadata.Some? ==> r.fileMetadata == metadata.value
    ensures r.id == id && r.fileName == fileName && r.fileUrl == fileUrl && r.fileType == fileType
    ensures r.createdAt == createdAt
  {
    AudioFileResponse(id, fileName, fileUrl, fileType, metadata.GetOr(map[]), createdAt)
  }

  /** `AudioFileIdPathParams.id`: not null, a string, not blank; the stripped
      id, with no `file_` requirement. */
  function ParseFileIdPath(v: Value): Result<string, Exc> {
    if v.VNone? then Failure(ValueError("File ID is required and cannot be null"))
    else if !v.VStr? then Failure(ValueError("File ID must be a string"))
    else
      var s := Strip(v.s);
      if s == "" then Failure(ValueError("File ID cannot be empty or whitespace only"))
      else ValidateFileId(VStr(s), false)
  }

  /** A path id is accepted exactly when it is a string that is not blank;
      the stripped id is returned, whatever its prefix. */
  lemma FileIdPathIff(v: Value)
    ensures ParseFileIdPath(v).Success? <==> (v.VStr? && !AllSpace(v.s))
    ensures ParseFileIdPath(v).Success? ==> ParseFileIdPath(v).value == Strip(v.s)
  {
    if v.VStr? {
      var s := Strip(v.s);
      StripEmpty(v.s);
      if s != "" {
        IdAcceptedIff(VStr(s), false, "File", "file");
        StripIdempotent(v.s);
      }
    }
  }

  /** `AudioFileListQueryParams`: `skip >= 0` (default 0), `1 <= limit <= 100`
      (default 100). */
  function ParseAudioListQuery(skip: Option<int>, limit: Option<int>): Parsed<Page> {
    ParsePage(skip, limit, 100)
  }

  lemma AudioListQueryDefaults()
    ensures ParseAudioListQuery(None, None) == Valid(Page(0, 100))
    ensures ParseAudioListQuery(Some(0), Some(100)).Valid?
    ensures ParseAudioListQuery(Some(0), Some(0)).Invalid?
  {
  }

  /** The `file_name` validator of `AudioFileUpdate`: `None` passes; a
      string is stripped and must be non-empty and at most 255 characters;
      any other value has no `strip` method and the `AttributeError`
      escapes. */
  function UpdateFileName(v: Value): Result<Option<string>, Exc> {
    if v.VNone? then Success(None)
    else if !v.VStr? then Failure(AttributeError)
    else
      var s := Strip(v.s);
      if s == "" then Failure(ValueError("File name cannot be empty"))
      else if |s| > MAX_FILE_NAME_LENGTH then Failure(ValueError("File name cannot exceed 255 characters"))
      else Success(Some(s))
  }

  /** Building `AudioFileUpdate` from a JSON body. */
  function ParseAudioFileUpdate(body: Dict): Parsed<Option<string>> {
    match Defaulted(body, "file_name", None, UpdateFileName(Input(body, "file_name")))
    case Ok(name) => Valid(name)
    case Bad(errs) => Invalid(errs)
    case Escaped => Raised
  }

  /** A new name is stripped, non-empty and at most 255 characters; an
      absent or `null` name means "no change". */
  lemma AudioFileUpdateIff(body: Dict)
    ensures "file_name" !in body || body["file_name"].VNone? ==> ParseAudioFileUpdate(body) == Valid(None)
    ensures "file_name" in body && body["file_name"].VStr? ==>
      (ParseAudioFileUpdate(body).Valid? <==>
        (!AllSpace(body["file_name"].s) && |Strip(body["file_name"].s)| <= MAX_FILE_NAME_LENGTH))
    ensures ParseAudioFileUpdate(body).Valid? && ParseAudioFileUpdate(body).value.Some? ==>
      "file_name" in body && body["file_name"].VStr?
      && ParseAudioFileUpdate(body).value.value == Strip(body["file_name"].s)
    ensures "file_name" in body && !body["file_name"].VNone? && !body["file_name"].VStr? ==>
      ParseAudioFileUpdate(body) == Raised
  {
    if "file_name" in body && body["file_name"].VStr? {
      UpdateFileNameIff(body["file_name"].s);
    }
  }

  /** A string name is accepted exactly when it is not blank and at most
      255 characters once stripped, and is kept stripped. */
  lemma UpdateFileNameIff(s: string)
    ensures UpdateFileName(VStr(s)).Success? <==> !AllSpace(s) && |Strip(s)| <= MAX_FILE_NAME_LENGTH
    ensures UpdateFileName(VStr(s)).Success? ==> UpdateFileName(VStr(s)).value == Some(Strip(s))
    ensures UpdateFileName(VStr(s)).Failure? ==> UpdateFileName(VStr(s)).error.ValueError?
  {
    StripEmpty(s);
  }
}
