/** The audio service over a map-backed file store: upload after
    validation, rename within the same extension, deletion that does not
    depend on the object storage, and playback through a signed URL.
    `hex` stands for the `uuid4().hex` of a new file id and `now` for the
    clock. */
module AudioService {
  import opened Wrappers
  import opened PyStr
  import opened PyValue
  import opened Http
  import opened IdUtils
  import opened AudioModel
  import opened AudioSchemas
  import opened AudioValidation
  import StorageService

  /** `MAX_AUDIO_FILE_SIZE_MB` at its default, and the same limit in bytes. */
  const MAX_AUDIO_FILE_SIZE_MB: nat := 100
  const MAX_AUDIO_FILE_SIZE_BYTES: nat := MAX_AUDIO_FILE_SIZE_MB * 1024 * 1024

  /** Playback URLs are signed for one hour. */
  const PLAYBACK_EXPIRY_SECONDS := 3600

  const FILE_NOT_FOUND := HttpError(NOT_FOUND, "File not found", false)
  const STORAGE_UPLOAD_FAILED := HttpError(INTERNAL_ERROR, "Failed to upload " + "file to storage", false)
  const RECORD_DELETE_FAILED := HttpError(INTERNAL_ERROR, "Failed to delete " + "file from database", false)

  /** `AudioPlayResponse` */
  datatype AudioPlayResponse = AudioPlayResponse(signedUrl: string, expiresIn: int)

  /** The response built from a stored record. */
  function Response(f: AudioFile): AudioFileResponse
    requires f.id.Some?
  {
    MakeAudioFileResponse(f.id.value, f.fileName, f.fileUrl, f.fileType, Some(f.fileMetadata), f.createdAt)
  }

  /** Every record is stored under its own id. */
  predicate StoreInvariant(files: map<string, AudioFile>) {
    forall id :: id in files ==> files[id].id == Some(id)
  }

  // ------------------------------------------------------------ upload

  /** The 400 detail for a refused upload. */
  function ValidationDetail(message: Option<string>): string {
    if message.Some? && message.value != "" then message.value else "File validation failed"
  }

  /** The detail of the size check made after reading the content. */
  function ContentTooLarge(): string {
    "File size exceeds maximum allowed size of " + IntToString(MAX_AUDIO_FILE_SIZE_MB) + "MB"
  }

  /** Both size checks word their refusal the same way at the configured
      limit. */
  lemma SizeMessagesAgree()
    ensures SizeMessage(MAX_AUDIO_FILE_SIZE_BYTES) == ContentTooLarge()
  {
    assert MAX_AUDIO_FILE_SIZE_BYTES / MIB == 100 && MAX_AUDIO_FILE_SIZE_BYTES % MIB == 0;
  }

  /** The record `upload_file` creates: the pre-generated id, the upload's
      content type and name, the storage URL, and the byte count and
      content type as metadata. */
  function UploadedRecord(fileId: string, fileName: string, contentType: string, url: string,
                          size: nat, now: int): AudioFile {
    AudioFile(Some(fileId), contentType, fileName, url,
              map["size" := VInt(size), "content_type" := VStr(contentType)], now, now)
  }

  // ------------------------------------------------------------ rename

  predicate HasNonDot(p: string, lo: int, hi: int)
    requires 0 <= lo <= hi <= |p|
  {
    exists i :: lo <= i < hi && p[i] != '.'
  }

  /** `os.path.splitext(p)[1]` on POSIX: the text from the last dot of the
      last path component, unless that component is only dots before it
      (a leading-dot name such as ".bashrc" has no extension). */
  function SplitExt(p: string): string {
    var sep := RFind(p, '/');
    var dot := RFind(p, '.');
    if dot > sep && HasNonDot(p, sep + 1, dot) then p[dot..] else ""
  }

  /** An extension is empty or a dot followed by neither a dot nor a
      slash, and it ends the name. */
  lemma SplitExtShape(p: string)
    ensures SplitExt(p) == "" || (SplitExt(p)[0] == '.' && '.' !in SplitExt(p)[1..] && '/' !in SplitExt(p))
    ensures |SplitExt(p)| <= |p| && p[|p| - |SplitExt(p)|..] == SplitExt(p)
  {
    var sep := RFind(p, '/');
    var dot := RFind(p, '.');
    if dot > sep && HasNonDot(p, sep + 1, dot) {
      var e := p[dot..];
      forall k | 1 <= k < |e|
        ensures e[k] != '.' && e[k] != '/'
      {
        assert e[k] == p[dot + k];
      }
      assert e[0] == '.';
      assert e[1..] == p[dot + 1..];
    }
  }

  /** For a plain file name (no directory, not starting with a dot) the
      extension the rename check compares, lower-cased, is the one the
      upload validator extracts. */
  lemma SplitExtAgreesWithValidator(p: string)
    requires p != "" && '/' !in p && p[0] != '.'
    ensures Lower(SplitExt(p)) == ExtractFileExtension(p)
  {
    var dot := RFind(p, '.');
    if '.' in p {
      assert dot >= 1;
      assert HasNonDot(p, 0, dot) by {
        assert p[0] != '.';
      }
      var e := p[dot..];
      assert e == "." + p[dot + 1..];
      assert Lower(e) == "." + Lower(p[dot + 1..]);
    } else {
      assert dot == -1;
    }
  }

  /** The 400 detail for a rename that changes the extension. */
  function ExtensionChanged(original: string, provided: string): HttpError {
    HttpError(BAD_REQUEST, "File extension must match original file. Original extension: "
                           + original + ", provided: " + provided, false)
  }

  /** The record after an update: the new name if one was given (its
      extension already checked), and the store's new update time. */
  function Renamed(f: AudioFile, fileName: Option<string>, now: int): AudioFile {
    f.(fileName := if fileName.Some? then fileName.value else f.fileName, updatedAt := now)
  }

  /** A rename keeps the id, type, URL, metadata and creation time. */
  lemma RenamedFacts(f: AudioFile, fileName: Option<string>, now: int)
    ensures var g := Renamed(f, fileName, now);
      && g.id == f.id && g.fileType == f.fileType && g.fileUrl == f.fileUrl
      && g.fileMetadata == f.fileMetadata && g.createdAt == f.createdAt
      && g.updatedAt == now
      && (fileName.None? ==> g == f.(updatedAt := now))
      && (fileName.Some? ==> g.fileName == fileName.value)
  {
  }

  // ------------------------------------------------------- the storage call

  /** The storage signature `upload_file` is called through: content, file
      name, file id and content type, giving the object URL or failing. */
  type StoreCall = (seq<bv8>, string, string, string) -> Result<string, StorageService.StorageFailure>

  /** The storage call of `upload_file` as written: it passes the content,
      the name, the file id and the content type but no `user_id`, which
      the storage's `upload_file` requires, so the call raises `TypeError`
      before the storage is reached, whatever the arguments. */
  function StoreAsWritten(content: seq<bv8>, fileName: string, fileId: string, contentType: string)
    : Result<string, StorageService.StorageFailure>
  {
    Failure(StorageService.Propagated)
  }

  /** The storage call as evidently intended: the owner's id is passed on,
      so the object is put under `users/{user_id}/{file_id}/{name}` through
      the client's `put_object` (`put`). */
  function StoreIntended(bucket: string, userId: string,
                         put: (string, string, seq<bv8>, string) -> Option<StorageService.S3Error>): StoreCall
  {
    (content: seq<bv8>, fileName: string, fileId: string, contentType: string) =>
      StorageService.UploadFile(bucket, content, fileName, userId, fileId, contentType, put)
  }

  /** As written the storage call never succeeds; as intended it succeeds
      exactly when the object is put, and then gives that object's URL. */
  lemma StorageCallOutcomes(bucket: string, userId: string,
                            put: (string, string, seq<bv8>, string) -> Option<StorageService.S3Error>,
                            content: seq<bv8>, fileName: string, fileId: string, contentType: string)
    ensures StoreAsWritten(content, fileName, fileId, contentType).Failure?
    ensures var key := StorageService.GenerateFileKey(userId, fileId, fileName);
      var r := StoreIntended(bucket, userId, put)(content, fileName, fileId, contentType);
      && (r.Success? <==> put(bucket, key, content, contentType).None?)
      && (r.Success? ==> r.value == StorageService.FileUrl(bucket, key))
  {
    StorageService.UploadOutcome(bucket, content, fileName, userId, fileId, contentType, put);
  }

  // ------------------------------------------------------------ the service

  /** `AudioService` with the file store it manages, keyed by file id, and
      the object storage's bucket. */
  class FileStore {
    var files: map<string, AudioFile>
    const bucket: string

    ghost predicate Valid()
      reads this
    {
      StoreInvariant(files)
    }

    constructor (bucket: string)
      ensures Valid() && files == map[] && this.bucket == bucket
    {
      files := map[];
      this.bucket := bucket;
    }

    /** `get_file_for_playback(file_id)`: a missing file is a 404; the
        storage's signing error escapes (500); otherwise the signed URL of
        the stored object and the expiry it was signed for. */
    function GetFileForPlayback(fileId: string, sign: (string, string, int) -> Result<string, StorageService.S3Error>)
      : (r: Result<AudioPlayResponse, HttpError>)
      reads this
      requires Valid()
      ensures fileId !in files ==> r == Failure(FILE_NOT_FOUND)
      ensures fileId in files ==>
        (r.Success? <==> StorageService.GenerateSignedUrl(bucket, files[fileId].fileUrl, 3600, sign).Success?)
      ensures r.Success? ==>
        r.value.expiresIn == 3600
        && r.value.signedUrl == StorageService.GenerateSignedUrl(bucket, files[fileId].fileUrl, 3600, sign).value
      ensures r.Failure? && fileId in files ==> r.error == UNHANDLED
    {
      if fileId !in files then Failure(FILE_NOT_FOUND)
      else
        match StorageService.GenerateSignedUrl(bucket, files[fileId].fileUrl, PLAYBACK_EXPIRY_SECONDS, sign)
        case Success(url) => Success(AudioPlayResponse(url, PLAYBACK_EXPIRY_SECONDS))
        case Failure(_) => Failure(UNHANDLED)
    }

    /** `upload_file(file)`: the upload's name, content type and declared
        size are validated, the content's length is checked again, the
        content is stored under a freshly generated id (`store` is the call
        to the storage, giving the object URL or failing) and the record is
        created under that same id. `UploadFileAsWritten` and
        `UploadFileIntended` fix `store`. */
    method UploadFile(filename: Option<string>, contentType: Option<string>, declaredSize: Option<int>,
                      content: seq<bv8>, hex: string, now: int, store: StoreCall)
      returns (r: Result<AudioFileResponse, HttpError>)
      requires Valid()
      modifies this
      ensures Valid()
      ensures !ValidateAudioFile(filename, contentType, declaredSize, MAX_AUDIO_FILE_SIZE_BYTES).0 ==>
        r == Failure(HttpError(BAD_REQUEST,
               ValidationDetail(ValidateAudioFile(filename, contentType, declaredSize, MAX_AUDIO_FILE_SIZE_BYTES).1), false))
        && files == old(files)
      ensures ValidateAudioFile(filename, contentType, declaredSize, MAX_AUDIO_FILE_SIZE_BYTES).0 ==>
        var id := GenerateFileId(hex);
        var put := store(content, filename.value, id, contentType.value);
        && (|content| > MAX_AUDIO_FILE_SIZE_BYTES ==>
              r == Failure(HttpError(BAD_REQUEST, ContentTooLarge(), false)) && files == old(files))
        && (|content| <= MAX_AUDIO_FILE_SIZE_BYTES && put.Failure? ==>
              r == Failure(STORAGE_UPLOAD_FAILED) && files == old(files))
        && (|content| <= MAX_AUDIO_FILE_SIZE_BYTES && put.Success? && id in old(files) ==>
              r == Failure(UNHANDLED) && files == old(files))
        && (|content| <= MAX_AUDIO_FILE_SIZE_BYTES && put.Success? && id !in old(files) ==>
              var f := UploadedRecord(id, filename.value, contentType.value, put.value, |content|, now);
              files == old(files)[id := f] && r == Success(Response(f)))
    {
      var verdict := ValidateAudioFile(filename, contentType, declaredSize, MAX_AUDIO_FILE_SIZE_BYTES);
      if !verdict.0 {
        return Failure(HttpError(BAD_REQUEST, ValidationDetail(verdict.1), false));
      }
      if |content| > MAX_AUDIO_FILE_SIZE_BYTES {
        return Failure(HttpError(BAD_REQUEST, ContentTooLarge(), false));
      }
      var id := GenerateFileId(hex);
      var put := store(content, filename.value, id, contentType.value);
      if put.Failure? {
        return Failure(STORAGE_UPLOAD_FAILED);
      }
      if id in files {
        return Failure(UNHANDLED);
      }
      var f := UploadedRecord(id, filename.value, contentType.value, put.value, |content|, now);
      files := files[id := f];
      r := Success(Response(f));
    }

    /** `upload_file` as written: an upload that passes validation ends in
        the 500 "Failed to upload file to storage", and no upload is ever
        stored. */
    method UploadFileAsWritten(filename: Option<string>, contentType: Option<string>, declaredSize: Option<int>,
                               content: seq<bv8>, hex: string, now: int)
      returns (r: Result<AudioFileResponse, HttpError>)
      requires Valid()
      modifies this
      ensures Valid() && files == old(files) && r.Failure?
      ensures ValidateAudioFile(filename, contentType, declaredSize, MAX_AUDIO_FILE_SIZE_BYTES).0
              && |content| <= MAX_AUDIO_FILE_SIZE_BYTES ==>
        r == Failure(STORAGE_UPLOAD_FAILED)
    {
      r := UploadFile(filename, contentType, declaredSize, content, hex, now, StoreAsWritten);
    }

    /** `upload_file` as evidently intended, with the owner's id passed to
        the storage: a validated upload under a fresh id whose object is put
        is recorded with the URL of `users/{user_id}/{file_id}/{name}`; one
        whose object is not put is the 500 and nothing is stored. */
    method UploadFileIntended(filename: Option<string>, contentType: Option<string>, declaredSize: Option<int>,
                              content: seq<bv8>, hex: string, now: int, userId: string,
                              put: (string, string, seq<bv8>, string) -> Option<StorageService.S3Error>)
      returns (r: Result<AudioFileResponse, HttpError>)
      requires Valid()
      modifies this
      ensures Valid()
      ensures ValidateAudioFile(filename, contentType, declaredSize, MAX_AUDIO_FILE_SIZE_BYTES).0
              && |content| <= MAX_AUDIO_FILE_SIZE_BYTES && GenerateFileId(hex) !in old(files) ==>
        var id := GenerateFileId(hex);
        var key := StorageService.GenerateFileKey(userId, id, filename.value);
        && (put(bucket, key, content, contentType.value).None? ==>
              var f := UploadedRecord(id, filename.value, contentType.value, StorageService.FileUrl(bucket, key), |content|, now);
              files == old(files)[id := f] && r == Success(Response(f)))
        && (put(bucket, key, content, contentType.value).Some? ==>
              r == Failure(STORAGE_UPLOAD_FAILED) && files == old(files))
    {
      if ValidateAudioFile(filename, contentType, declaredSize, MAX_AUDIO_FILE_SIZE_BYTES).0 {
        StorageCallOutcomes(bucket, userId, put, content, filename.value, GenerateFileId(hex), contentType.value);
      }
      r := UploadFile(filename, contentType, declaredSize, content, hex, now, StoreIntended(bucket, userId, put));
    }

    /** `update_file(file_id, file_name)`: a missing file is a 404; a new
        name whose lower-cased extension differs from the current one is a
        400 and nothing is saved; otherwise the record is saved with the
        new name. */
    method UpdateFile(fileId: string, fileName: Option<string>, now: int)
      returns (r: Result<AudioFileResponse, HttpError>)
      requires Valid()
      modifies this
      ensures Valid()
      ensures fileId !in old(files) ==> r == Failure(FILE_NOT_FOUND) && files == old(files)
      ensures fileId in old(files) && fileName.Some?
              && Lower(SplitExt(old(files)[fileId].fileName)) != Lower(SplitExt(fileName.value)) ==>
        r == Failure(ExtensionChanged(Lower(SplitExt(old(files)[fileId].fileName)), Lower(SplitExt(fileName.value))))
        && files == old(files)
      ensures fileId in old(files)
              && (fileName.None? || Lower(SplitExt(old(files)[fileId].fileName)) == Lower(SplitExt(fileName.value))) ==>
        var g := Renamed(old(files)[fileId], fileName, now);
        files == old(files)[fileId := g] && r == Success(Response(g))
    {
      if fileId !in files {
        return Failure(FILE_NOT_FOUND);
      }
      var f := files[fileId];
      if fileName.Some? {
        var originalExt := Lower(SplitExt(f.fileName));
        var newExt := Lower(SplitExt(fileName.value));
        if originalExt != newExt {
          return Failure(ExtensionChanged(originalExt, newExt));
        }
        f := f.(fileName := fileName.value);
      }
      f := f.(updatedAt := now);
      files := files[fileId := f];
      r := Success(Response(f));
    }

    /** `delete_file(file_id)`: a missing file is a 404; the object is then
        deleted from storage (`remove` is the client's `delete_object`),
        but whatever that gives (success, `false`, or an exception) the
        record is deleted next; `recordDeleteFails` is the store's delete
        reporting `False`, which is a 500. */
    method DeleteFile(fileId: string, remove: (string, string) -> Option<StorageService.S3Error>,
                      recordDeleteFails: bool)
      returns (r: Result<bool, HttpError>)
      requires Valid()
      modifies this
      ensures Valid()
      ensures fileId !in old(files) ==> r == Failure(FILE_NOT_FOUND) && files == old(files)
      ensures fileId in old(files) && recordDeleteFails ==> r == Failure(RECORD_DELETE_FAILED) && files == old(files)
      ensures fileId in old(files) && !recordDeleteFails ==> r == Success(true) && files == old(files) - {fileId}
    {
      if fileId !in files {
        return Failure(FILE_NOT_FOUND);
      }
      var fromStorage := StorageService.DeleteFile(bucket, files[fileId].fileUrl, remove);
      if recordDeleteFails {
        return Failure(RECORD_DELETE_FAILED);
      }
      files := files - {fileId};
      r := Success(true);
    }
  }

  /** With the storage call as intended, an upload whose object is put can
      be played back under its new id, with the URL signed for that object;
      once deleted it is a 404, whether or not the storage deletion worked. */
  method UploadPlayDelete(bucket: string, fileName: string, contentType: string, content: seq<bv8>,
                          hex: string, now: int, userId: string,
                          put: (string, string, seq<bv8>, string) -> Option<StorageService.S3Error>,
                          sign: (string, string, int) -> Result<string, StorageService.S3Error>,
                          remove: (string, string) -> Option<StorageService.S3Error>)
    returns (played: Result<AudioPlayResponse, HttpError>, afterDelete: Result<AudioPlayResponse, HttpError>)
    requires ValidateAudioFile(Some(fileName), Some(contentType), None, MAX_AUDIO_FILE_SIZE_BYTES).0
    requires |content| <= MAX_AUDIO_FILE_SIZE_BYTES
    requires put(bucket, StorageService.GenerateFileKey(userId, GenerateFileId(hex), fileName), content, contentType).None?
    ensures var url := StorageService.FileUrl(bucket, StorageService.GenerateFileKey(userId, GenerateFileId(hex), fileName));
      StorageService.GenerateSignedUrl(bucket, url, 3600, sign).Success? ==>
        played == Success(AudioPlayResponse(StorageService.GenerateSignedUrl(bucket, url, 3600, sign).value, 3600))
    ensures afterDelete == Failure(FILE_NOT_FOUND)
  {
    var files := new FileStore(bucket);
    var uploaded := files.UploadFileIntended(Some(fileName), Some(contentType), None, content, hex, now, userId, put);
    played := files.GetFileForPlayback(GenerateFileId(hex), sign);
    var deleted := files.DeleteFile(GenerateFileId(hex), remove, false);
    afterDelete := files.GetFileForPlayback(GenerateFileId(hex), sign);
  }
}
