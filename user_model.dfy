/** The stored user record and its conversion to and from a database
    document. */
module UserModel {
  import opened Wrappers
  import opened PyValue

  const MAX_NAME_LENGTH: nat := 100

  /** `User`. Timestamps are datetimes, in microseconds. */
  datatype User = User(
    id: Option<string>,
    firstName: string,
    lastName: string,
    email: string,
    hashedPassword: string,
    permissions: seq<string>,
    createdAt: int,
    updatedAt: int)

  /** The field constraints of `User`: both names are 1 to 100 characters. */
  predicate ValidUser(u: User) {
    1 <= |u.firstName| <= MAX_NAME_LENGTH && 1 <= |u.lastName| <= MAX_NAME_LENGTH
  }

  /** Why building a record from a document fails: a required key is
      missing, or the listed fields do not have the declared types. */
  datatype ModelError = KeyError(key: string) | ValidationError(fields: seq<string>)

  const USER_KEYS: set<string> :=
    {"id", "first_name", "last_name", "email", "hashed_password", "permissions", "created_at", "updated_at"}

  function OptStr(o: Option<string>): Value {
    if o.Some? then VStr(o.value) else VNone
  }

  /** `User.to_dict()` */
  function ToDict(u: User): (d: Dict)
    ensures d.Keys == USER_KEYS
  {
    map["id" := OptStr(u.id), "first_name" := VStr(u.firstName), "last_name" := VStr(u.lastName),
        "email" := VStr(u.email), "hashed_password" := VStr(u.hashedPassword),
        "permissions" := StrList(u.permissions),
        "created_at" := VTime(u.createdAt), "updated_at" := VTime(u.updatedAt)]
  }

  /** The id read from a document: `data.get("_id") or data.get("id")`,
      turned into a string when truthy and into `None` otherwise. */
  function DocumentId(data: Dict): (r: Option<string>)
    ensures r.Some? <==> Truthy(Get(data, "_id", VNone)) || Truthy(Get(data, "id", VNone))
  {
    var raw := if Truthy(Get(data, "_id", VNone)) then data["_id"] else Get(data, "id", VNone);
    if Truthy(raw) then Some(Str(raw)) else None
  }

  function NameOk(v: Value): bool {
    v.VStr? && 1 <= |v.s| <= MAX_NAME_LENGTH
  }

  function Flag(name: string, ok: bool): seq<string> {
    if ok then [] else [name]
  }

  /** `User.from_dict(data)`, where `now` stands for `datetime.utcnow()`.
      The four required keys are read in order (a missing one raises
      `KeyError`); the fields are then checked together. */
  function FromDict(data: Dict, now: int): Result<User, ModelError> {
    if "first_name" !in data then Failure(KeyError("first_name"))
    else if "last_name" !in data then Failure(KeyError("last_name"))
    else if "email" !in data then Failure(KeyError("email"))
    else if "hashed_password" !in data then Failure(KeyError("hashed_password"))
    else
      var perms := Get(data, "permissions", VList([]));
      var created := Get(data, "created_at", VTime(now));
      var updated := Get(data, "updated_at", VTime(now));
      var bad := Flag("first_name", NameOk(data["first_name"]))
        + Flag("last_name", NameOk(data["last_name"]))
        + Flag("email", data["email"].VStr?)
        + Flag("hashed_password", data["hashed_password"].VStr?)
        + Flag("permissions", IsStrList(perms))
        + Flag("created_at", created.VTime?)
        + Flag("updated_at", updated.VTime?);
      if bad != [] then Failure(ValidationError(bad))
      else Success(User(DocumentId(data), data["first_name"].s, data["last_name"].s, data["email"].s,
                        data["hashed_password"].s, Strings(perms.items), created.micros, updated.micros))
  }

  /** Round trip: a valid user whose id is absent or non-empty is rebuilt
      exactly from its own document. */
  lemma UserRoundTrip(u: User, now: int)
    requires ValidUser(u)
    requires u.id.None? || u.id.value != ""
    ensures FromDict(ToDict(u), now) == Success(u)
  {
    var d := ToDict(u);
    assert "_id" !in d;
    assert DocumentId(d) == u.id;
  }

  /** A truthy `_id` wins over `id`, and is stringified. */
  lemma IdFromUnderscoreId(data: Dict, now: int)
    requires "_id" in data && Truthy(data["_id"])
    requires FromDict(data, now).Success?
    ensures FromDict(data, now).value.id == Some(Str(data["_id"]))
  {
  }

  /** A falsy or absent id on both keys gives a user with no id. */
  lemma NoIdWhenFalsy(data: Dict, now: int)
    requires !Truthy(Get(data, "_id", VNone)) && !Truthy(Get(data, "id", VNone))
    requires FromDict(data, now).Success?
    ensures FromDict(data, now).value.id.None?
  {
  }

  /** Absent permissions default to the empty list and absent timestamps to
      `now`. */
  lemma FromDictDefaults(data: Dict, now: int)
    requires "permissions" !in data && "created_at" !in data && "updated_at" !in data
    requires FromDict(data, now).Success?
    ensures FromDict(data, now).value.permissions == []
    ensures FromDict(data, now).value.createdAt == now && FromDict(data, now).value.updatedAt == now
  {
  }

  /** Each of the four required keys, when missing, is reported by name
      (the first missing one in reading order). */
  lemma MissingKeyFails(data: Dict, now: int)
    ensures "first_name" !in data ==> FromDict(data, now) == Failure(KeyError("first_name"))
    ensures "first_name" in data && "last_name" !in data ==> FromDict(data, now) == Failure(KeyError("last_name"))
    ensures ("first_name" in data && "last_name" in data && "email" !in data) ==>
      FromDict(data, now) == Failure(KeyError("email"))
    ensures ("first_name" in data && "last_name" in data && "email" in data && "hashed_password" !in data) ==>
      FromDict(data, now) == Failure(KeyError("hashed_password"))
  {
  }

  /** A record is built only with names of 1 to 100 characters: every user
      `from_dict` returns is valid. */
  lemma FromDictValid(data: Dict, now: int)
    requires FromDict(data, now).Success?
    ensures ValidUser(FromDict(data, now).value)
  {
  }
}
