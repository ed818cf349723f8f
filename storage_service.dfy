/** The object-storage service: where an upload is put, the URL it is known
    by afterwards, and how the storage client's failures reach the caller.
    The client calls themselves are parameters. */
module StorageService {
  import opened Wrappers
  import opened PyStr
  import opened S3UrlParser

  /** What a storage-client call raises: a `ClientError` with its text, or
      any other exception. */
  datatype S3Error = ClientError(msg: string) | OtherError

  /** What the service raises: a new `Exception` with a message, or the
      client's own exception let through. */
  datatype StorageFailure = Raised(message: string) | Propagated

  /** `file_name.replace(' ', '_').replace('/', '_')`: same length, every
      space and slash turned into '_', every other character kept. */
  function SanitizeFileName(name: string): (r: string)
    ensures |r| == |name|
    ensures forall i :: 0 <= i < |name| ==> r[i] == (if name[i] == ' ' || name[i] == '/' then '_' else name[i])
  {
    ReplaceChar(ReplaceChar(name, ' ', '_'), '/', '_')
  }

  /** A sanitized name holds no space and no slash, and sanitizing again
      changes nothing. */
  lemma SanitizedClean(name: string)
    ensures ' ' !in SanitizeFileName(name) && '/' !in SanitizeFileName(name)
    ensures SanitizeFileName(SanitizeFileName(name)) == SanitizeFileName(name)
  {
    var r := SanitizeFileName(name);
    forall i | 0 <= i < |r|
      ensures r[i] != ' ' && r[i] != '/'
    {
    }
  }

  /** `_generate_file_key`: `users/{user_id}/{file_id}/{safe_filename}`. */
  function GenerateFileKey(userId: string, fileId: string, fileName: string): string {
    "users/" + userId + "/" + fileId + "/" + SanitizeFileName(fileName)
  }

  /** With slash-free ids the key has exactly four segments: "users", the
      user id, the file id and the sanitized name. */
  lemma FileKeySegments(userId: string, fileId: string, fileName: string)
    requires '/' !in userId && '/' !in fileId
    ensures Split(GenerateFileKey(userId, fileId, fileName), '/')
      == ["users", userId, fileId, SanitizeFileName(fileName)]
  {
    var safe := SanitizeFileName(fileName);
    SanitizedClean(fileName);
    var parts := ["users", userId, fileId, safe];
    assert Join("/", parts) == GenerateFileKey(userId, fileId, fileName) by {
      assert Join("/", [safe]) == safe;
      JoinCons("/", fileId, [safe]);
      assert [fileId] + [safe] == [fileId, safe];
      JoinCons("/", userId, [fileId, safe]);
      assert [userId] + [fileId, safe] == [userId, fileId, safe];
      JoinCons("/", "users", [userId, fileId, safe]);
      assert ["users"] + [userId, fileId, safe] == parts;
      assert GenerateFileKey(userId, fileId, fileName) == "users" + "/" + (userId + "/" + (fileId + "/" + safe));
    }
    assert "users"[0] == 'u' && "users"[1] == 's' && "users"[2] == 'e' && "users"[3] == 'r' && "users"[4] == 's';
    assert '/' !in "users";
    SplitJoin(parts, '/');
  }

  /** The URL `upload_file` returns for an object. */
  function FileUrl(bucket: string, key: string): string {
    "s3://" + bucket + "/" + key
  }

  /** `upload_file` in bucket `bucket`. `put` is the client's `put_object`,
      given bucket, key, content and content type; it yields the error it
      raises, if any. A `ClientError` becomes a new exception whose message
      names the upload. */
  function UploadFile(bucket: string, content: seq<bv8>, fileName: string, userId: string,
                      fileId: string, contentType: string,
                      put: (string, string, seq<bv8>, string) -> Option<S3Error>): Result<string, StorageFailure>
  {
    var key := GenerateFileKey(userId, fileId, fileName);
    match put(bucket, key, content, contentType)
    case None => Success(FileUrl(bucket, key))
    case Some(ClientError(m)) => Failure(Raised("Failed to upload file to S3: " + m))
    case Some(OtherError) => Failure(Propagated)
  }

  /** `generate_signed_url`: the URL is parsed with the service's bucket as
      the default and `sign` (the client's `generate_presigned_url`) is
      asked for that bucket and key. */
  function GenerateSignedUrl(bucket: string, fileUrl: string, expirationSeconds: int,
                             sign: (string, string, int) -> Result<string, S3Error>): Result<string, StorageFailure>
  {
    var (b, k) := ParseBucketAndKey(fileUrl, bucket);
    match sign(b, k, expirationSeconds)
    case Success(url) => Success(url)
    case Failure(ClientError(m)) => Failure(Raised("Failed to generate signed URL: " + m))
    case Failure(OtherError) => Failure(Propagated)
  }

  /** `delete_file`: a `ClientError` from `delete` (the client's
      `delete_object`) is reported as `false`, not raised. */
  function DeleteFile(bucket: string, fileUrl: string,
                      delete: (string, string) -> Option<S3Error>): Result<bool, StorageFailure>
  {
    var (b, k) := ParseBucketAndKey(fileUrl, bucket);
    match delete(b, k)
    case None => Success(true)
    case Some(ClientError(_)) => Success(false)
    case Some(OtherError) => Failure(Propagated)
  }

  /** Upload outcome: the object is put under the generated key in the
      service's bucket; success gives that object's URL, a client error an
      exception naming the upload. */
  lemma UploadOutcome(bucket: string, content: seq<bv8>, fileName: string, userId: string,
                      fileId: string, contentType: string,
                      put: (string, string, seq<bv8>, string) -> Option<S3Error>)
    ensures var key := GenerateFileKey(userId, fileId, fileName);
      var r := UploadFile(bucket, content, fileName, userId, fileId, contentType, put);
      && (r.Success? <==> put(bucket, key, content, contentType).None?)
      && (r.Success? ==> r.value == FileUrl(bucket, key))
      && (r.Failure? && r.error.Raised? ==>
            StartsWith(r.error.message, "Failed to upload file to S3: ")
            && put(bucket, key, content, contentType).value.ClientError?)
  {
  }

  /** Round trip: when neither the bucket nor the ids contain ':' and the
      bucket holds no '/', the URL of an uploaded object parses back to the
      bucket and key it was put under. */
  lemma UploadUrlRoundTrip(bucket: string, userId: string, fileId: string, fileName: string, defaultBucket: string)
    requires '/' !in bucket
    requires ':' !in bucket && ':' !in userId && ':' !in fileId
    ensures ParseBucketAndKey(FileUrl(bucket, GenerateFileKey(userId, fileId, fileName)), defaultBucket)
      == (bucket, GenerateFileKey(userId, fileId, fileName))
  {
    var safe := SanitizeFileName(fileName);
    SanitizedClean(fileName);
    var key := GenerateFileKey(userId, fileId, fileName);
    var prefix := bucket + "/users/" + userId + "/" + fileId + "/";
    assert ':' !in prefix;
    assert bucket + "/" + key == prefix + safe;
    NoSchemeInside(prefix, safe);
    ParseComposedUrl(bucket, key, defaultBucket);
    assert FileUrl(bucket, key) == S3_SCHEME + bucket + "/" + key;
  }

  /** Delete outcome: `true` exactly when the client deleted the parsed
      object; a client error is `false`; only other exceptions escape. */
  lemma DeleteOutcome(bucket: string, fileUrl: string, delete: (string, string) -> Option<S3Error>)
    ensures var (b, k) := ParseBucketAndKey(fileUrl, bucket);
      var r := DeleteFile(bucket, fileUrl, delete);
      && (r == Success(true) <==> delete(b, k).None?)
      && (r == Success(false) <==> (delete(b, k).Some? && delete(b, k).value.ClientError?))
      && (r.Failure? <==> delete(b, k) == Some(OtherError))
  {
  }

  /** Deleting the URL an upload returned deletes the very bucket and key
      the upload put, and so does asking for a signed URL. */
  lemma DeleteAfterUpload(bucket: string, content: seq<bv8>, fileName: string, userId: string,
                          fileId: string, contentType: string,
                          put: (string, string, seq<bv8>, string) -> Option<S3Error>,
                          delete: (string, string) -> Option<S3Error>,
                          sign: (string, string, int) -> Result<string, S3Error>, expiration: int)
    requires '/' !in bucket
    requires ':' !in bucket && ':' !in userId && ':' !in fileId
    requires UploadFile(bucket, content, fileName, userId, fileId, contentType, put).Success?
    ensures var url := UploadFile(bucket, content, fileName, userId, fileId, contentType, put).value;
      var key := GenerateFileKey(userId, fileId, fileName);
      && ((DeleteFile(bucket, url, delete).Success? && DeleteFile(bucket, url, delete).value)
          <==> delete(bucket, key).None?)
      && (GenerateSignedUrl(bucket, url, expiration, sign).Success?
          <==> sign(bucket, key, expiration).Success?)
  {
    UploadUrlRoundTrip(bucket, userId, fileId, fileName, bucket);
  }
}
