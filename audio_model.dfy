/** The stored audio-file record and its conversion to and from a database
    document. */
module AudioModel {
  import opened Wrappers
  import opened PyValue
  import UserModel

  /** `AudioFile`. Timestamps are datetimes, in microseconds. */
  datatype AudioFile = AudioFile(
    id: Option<string>,
    fileType: string,
    fileName: string,
    fileUrl: string,
    fileMetadata: Dict,
    createdAt: int,
    updatedAt: int)

  const AUDIO_KEYS: set<string> :=
    {"id", "file_type", "file_name", "file_url", "file_metadata", "created_at", "updated_at"}

  /** `AudioFile.to_dict()` */
  function ToDict(f: AudioFile): (d: Dict)
    ensures d.Keys == AUDIO_KEYS
  {
    map["id" := UserModel.OptStr(f.id), "file_type" := VStr(f.fileType), "file_name" := VStr(f.fileName),
        "file_url" := VStr(f.fileUrl), "file_metadata" := VDict(f.fileMetadata),
        "created_at" := VTime(f.createdAt), "updated_at" := VTime(f.updatedAt)]
  }

  /** `AudioFile.from_dict(data)`, where `now` stands for
      `datetime.utcnow()`. Keys other than the record's own, such as a
      legacy `user_id`, are not read. */
  function FromDict(data: Dict, now: int): Result<AudioFile, UserModel.ModelError> {
    if "file_type" !in data then Failure(UserModel.KeyError("file_type"))
    else if "file_name" !in data then Failure(UserModel.KeyError("file_name"))
    else if "file_url" !in data then Failure(UserModel.KeyError("file_url"))
    else
      var meta := Get(data, "file_metadata", VDict(map[]));
      var created := Get(data, "created_at", VTime(now));
      var updated := Get(data, "updated_at", VTime(now));
      var bad := UserModel.Flag("file_type", data["file_type"].VStr?)
        + UserModel.Flag("file_name", data["file_name"].VStr?)
        + UserModel.Flag("file_url", data["file_url"].VStr?)
        + UserModel.Flag("file_metadata", meta.VDict?)
        + UserModel.Flag("created_at", created.VTime?)
        + UserModel.Flag("updated_at", updated.VTime?);
      if bad != [] then Failure(UserModel.ValidationError(bad))
      else Success(AudioFile(UserModel.DocumentId(data), data["file_type"].s, data["file_name"].s,
                             data["file_url"].s, meta.entries, created.micros, updated.micros))
  }

  /** Round trip: a record whose id is absent or non-empty is rebuilt
      exactly from its own document. */
  lemma AudioFileRoundTrip(f: AudioFile, now: int)
    requires f.id.None? || f.id.value != ""
    ensures FromDict(ToDict(f), now) == Success(f)
  {
    var d := ToDict(f);
    assert "_id" !in d;
    assert UserModel.DocumentId(d) == f.id;
  }

  /** A truthy `_id` wins over `id`, and is stringified. */
  lemma IdFromUnderscoreId(data: Dict, now: int)
    requires "_id" in data && Truthy(data["_id"])
    requires FromDict(data, now).Success?
    ensures FromDict(data, now).value.id == Some(Str(data["_id"]))
  {
  }

  /** Keys the record does not read, such as `user_id`, make no difference. */
  lemma ExtraKeysIgnored(data: Dict, k: string, v: Value, now: int)
    requires k !in AUDIO_KEYS && k != "_id"
    ensures FromDict(data[k := v], now) == FromDict(data, now)
  {
    var d := data[k := v];
    assert Get(d, "_id", VNone) == Get(data, "_id", VNone);
    assert Get(d, "id", VNone) == Get(data, "id", VNone);
  }

  /** Absent metadata defaults to the empty mapping. */
  lemma MetadataDefault(data: Dict, now: int)
    requires "file_metadata" !in data
    requires FromDict(data, now).Success?
    ensures FromDict(data, now).value.fileMetadata == map[]
  {
  }

  /** The three required keys, when missing, are reported in reading
      order. */
  lemma MissingKeyFails(data: Dict, now: int)
    ensures "file_type" !in data ==> FromDict(data, now) == Failure(UserModel.KeyError("file_type"))
    ensures ("file_type" in data && "file_name" !in data) ==>
      FromDict(data, now) == Failure(UserModel.KeyError("file_name"))
    ensures ("file_type" in data && "file_name" in data && "file_url" !in data) ==>
      FromDict(data, now) == Failure(UserModel.KeyError("file_url"))
  {
  }
}
