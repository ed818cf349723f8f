/** The user service over a map-backed user store: creation with a unique
    email and default permissions, partial update, lookup and deletion.
    Password hashing is the parameter `hash`; `hex` stands for the
    `uuid4().hex` the store draws for a new id and `now` for the clock. */
module UserService {
  import opened Wrappers
  import opened Http
  import opened Constants
  import opened IdUtils
  import opened UserModel
  import opened UserSchemas
  import opened Schema
  import PyValue
  import Validators

  /** `UserDisplay`: a user as the API shows it, without the password
      hash. */
  datatype UserDisplay = UserDisplay(
    id: string,
    firstName: string,
    lastName: string,
    email: string,
    permissions: seq<string>,
    createdAt: int,
    updatedAt: int)

  function Display(u: User): UserDisplay
    requires u.id.Some?
  {
    UserDisplay(u.id.value, u.firstName, u.lastName, u.email, u.permissions, u.createdAt, u.updatedAt)
  }

  const USER_NOT_FOUND := HttpError(NOT_FOUND, "User not found", false)
  const EMAIL_EXISTS_ON_CREATE := HttpError(CONFLICT, "User with this " + "email already exists.", false)
  const EMAIL_EXISTS_ON_UPDATE := HttpError(CONFLICT, "Email already exists", false)
  const DELETE_FAILED := HttpError(INTERNAL_ERROR, "Failed to delete user", false)

  // ------------------------------------------------------------ the store

  /** Some stored user has this email (`find_by_email` finds a record). */
  predicate EmailTaken(users: map<string, User>, email: string) {
    exists id :: id in users && users[id].email == email
  }

  /** Every record is stored under its own id, and no two records share an
      email: the service checks the email before every write that sets
      one. */
  predicate StoreInvariant(users: map<string, User>) {
    && (forall id :: id in users ==> users[id].id == Some(id))
    && (forall a, b :: a in users && b in users && users[a].email == users[b].email ==> a == b)
  }

  // ------------------------------------------------------------ creation

  /** `permissions` ends with "read:audio" appended when it is missing. */
  function WithReadAudio(permissions: seq<string>): seq<string> {
    if READ_AUDIO in permissions then permissions else permissions + [READ_AUDIO]
  }

  /** The permissions of a new user: the given list (even an empty one),
      otherwise a copy of the defaults, always with "read:audio". */
  function CreatePermissions(provided: Option<seq<string>>): seq<string> {
    WithReadAudio(if provided.Some? then provided.value else DEFAULT_USER_PERMISSIONS)
  }

  /** "read:audio" is always held afterwards, the given permissions keep
      their order at the front, nothing else is added, and adding it twice
      changes nothing. */
  lemma WithReadAudioFacts(permissions: seq<string>)
    ensures READ_AUDIO in WithReadAudio(permissions)
    ensures WithReadAudio(permissions)[..|permissions|] == permissions
    ensures forall p :: p in WithReadAudio(permissions) <==> p in permissions || p == READ_AUDIO
    ensures READ_AUDIO in permissions <==> WithReadAudio(permissions) == permissions
    ensures WithReadAudio(WithReadAudio(permissions)) == WithReadAudio(permissions)
  {
    if READ_AUDIO !in permissions {
      assert WithReadAudio(permissions)[|permissions|] == READ_AUDIO;
    }
  }

  /** Without a list a user gets exactly the defaults (which already hold
      "read:audio"); an empty list gives only "read:audio". */
  lemma CreatePermissionsFacts()
    ensures CreatePermissions(None) == DEFAULT_USER_PERMISSIONS == [READ_AUDIO, WRITE_AUDIO]
    ensures CreatePermissions(Some([])) == [READ_AUDIO]
    ensures CreatePermissions(Some([WRITE_AUDIO])) == [WRITE_AUDIO, READ_AUDIO]
  {
    assert READ_AUDIO in DEFAULT_USER_PERMISSIONS;
    assert READ_AUDIO != WRITE_AUDIO;
  }

  /** The record `create_user` hands to the store, with the id and
      timestamps the store's `create` assigns. */
  function NewUser(data: UserCreate, hash: string -> string, id: string, now: int): User {
    User(Some(id), data.firstName, data.lastName, data.email, hash(data.password),
         CreatePermissions(data.permissions), now, now)
  }

  // ------------------------------------------------------------ update

  /** One entry of the update dictionary, as `setattr` applies it. */
  datatype FieldUpdate =
    | SetFirstName(name: string)
    | SetLastName(name: string)
    | SetEmail(email: string)
    | SetHashedPassword(hash: string)
    | SetPermissions(permissions: seq<string>)

  function SetAttr(u: User, f: FieldUpdate): User {
    match f
    case SetFirstName(s) => u.(firstName := s)
    case SetLastName(s) => u.(lastName := s)
    case SetEmail(s) => u.(email := s)
    case SetHashedPassword(h) => u.(hashedPassword := h)
    case SetPermissions(p) => u.(permissions := p)
  }

  /** The entries applied in order. */
  function ApplyAll(u: User, fs: seq<FieldUpdate>): User
    decreases |fs|
  {
    if fs == [] then u else ApplyAll(SetAttr(u, fs[0]), fs[1..])
  }

  function Entry<T>(p: Provided<T>, make: T -> FieldUpdate): seq<FieldUpdate> {
    if p.Given? then [make(p.value)] else []
  }

  /** `model_dump(exclude_unset=True)` after the password is replaced by
      its hash and the permissions are given "read:audio". A field sent as
      `null` (or turned into `None` by its validator) makes the update fail:
      hashing `None`, testing membership in `None`, or showing a record
      whose name or email is `None` raises. */
  function UpdateDict(data: UserUpdate, hash: string -> string): Result<seq<FieldUpdate>, HttpError> {
    if data.firstName.Null? || data.lastName.Null? || data.email.Null?
       || data.password.Null? || data.permissions.Null? then
      Failure(UNHANDLED)
    else
      Success(Entry(data.firstName, s => SetFirstName(s))
              + (Entry(data.lastName, s => SetLastName(s))
              + (Entry(data.email, s => SetEmail(s))
              + (Entry(data.permissions, p => SetPermissions(WithReadAudio(p)))
              + Entry(data.password, p => SetHashedPassword(hash(p)))))))
  }

  /** The value a field has after the update: the given one, or the old
      one. */
  function Pick<T>(p: Provided<T>, old_: T): T {
    if p.Given? then p.value else old_
  }

  /** What `update_user` stores: the given fields replaced (the password
      by its hash), "read:audio" held, the update time refreshed by the
      store, and nothing else changed. */
  function Updated(u: User, data: UserUpdate, hash: string -> string, now: int): User {
    u.(firstName := Pick(data.firstName, u.firstName),
       lastName := Pick(data.lastName, u.lastName),
       email := Pick(data.email, u.email),
       hashedPassword := if data.password.Given? then hash(data.password.value) else u.hashedPassword,
       permissions := WithReadAudio(Pick(data.permissions, u.permissions)),
       updatedAt := now)
  }

  /** The record after applying an entry list of at most one entry. */
  function Step(u: User, e: seq<FieldUpdate>): User {
    if e == [] then u else SetAttr(u, e[0])
  }

  lemma ApplyFront(u: User, front: seq<FieldUpdate>, rest: seq<FieldUpdate>)
    requires |front| <= 1
    ensures ApplyAll(u, front + rest) == ApplyAll(Step(u, front), rest)
  {
    if front == [] {
      assert front + rest == rest;
    } else {
      assert (front + rest)[1..] == rest;
    }
  }

  /** Five entry lists of at most one entry each are applied one after
      the other. */
  lemma ApplyFive(u: User, a: seq<FieldUpdate>, b: seq<FieldUpdate>, c: seq<FieldUpdate>,
                  d: seq<FieldUpdate>, e: seq<FieldUpdate>)
    requires |a| <= 1 && |b| <= 1 && |c| <= 1 && |d| <= 1 && |e| <= 1
    ensures ApplyAll(u, a + (b + (c + (d + e)))) == Step(Step(Step(Step(Step(u, a), b), c), d), e)
  {
    ApplyFront(u, a, b + (c + (d + e)));
    ApplyFront(Step(u, a), b, c + (d + e));
    ApplyFront(Step(Step(u, a), b), c, d + e);
    ApplyFront(Step(Step(Step(u, a), b), c), d, e);
    ApplyFront(Step(Step(Step(Step(u, a), b), c), d), e, []);
    assert e + [] == e;
  }

  /** Applying the update dictionary entry by entry gives the record
      `Updated` describes, before the final "read:audio" check and the
      store's timestamp. */
  lemma UpdateDictApplied(u: User, data: UserUpdate, hash: string -> string, now: int)
    requires UpdateDict(data, hash).Success?
    ensures ApplyAll(u, UpdateDict(data, hash).value).(
      permissions := WithReadAudio(ApplyAll(u, UpdateDict(data, hash).value).permissions),
      updatedAt := now) == Updated(u, data, hash, now)
  {
    var a := Entry(data.firstName, s => SetFirstName(s));
    var b := Entry(data.lastName, s => SetLastName(s));
    var c := Entry(data.email, s => SetEmail(s));
    var d := Entry(data.permissions, p => SetPermissions(WithReadAudio(p)));
    var e := Entry(data.password, p => SetHashedPassword(hash(p)));
    assert UpdateDict(data, hash).value == a + (b + (c + (d + e)));
    ApplyFive(u, a, b, c, d, e);
    var u1 := u.(firstName := Pick(data.firstName, u.firstName));
    assert Step(u, a) == u1;
    var u2 := u1.(lastName := Pick(data.lastName, u.lastName));
    assert Step(u1, b) == u2;
    var u3 := u2.(email := Pick(data.email, u.email));
    assert Step(u2, c) == u3;
    var u4 := u3.(permissions := if data.permissions.Given? then WithReadAudio(data.permissions.value) else u.permissions);
    assert Step(u3, d) == u4;
    var u5 := u4.(hashedPassword := if data.password.Given? then hash(data.password.value) else u.hashedPassword);
    assert Step(u4, e) == u5;
    if data.permissions.Given? {
      WithReadAudioFacts(data.permissions.value);
    }
    assert WithReadAudio(u5.permissions) == WithReadAudio(Pick(data.permissions, u.permissions));
  }

  /** An update keeps the id and the creation time, leaves every field not
      sent as it was, always leaves "read:audio" held, and stores a new
      password only as its hash. */
  lemma UpdatedFacts(u: User, data: UserUpdate, hash: string -> string, now: int)
    ensures Updated(u, data, hash, now).id == u.id
    ensures Updated(u, data, hash, now).createdAt == u.createdAt
    ensures data.firstName.Unset? ==> Updated(u, data, hash, now).firstName == u.firstName
    ensures data.email.Unset? ==> Updated(u, data, hash, now).email == u.email
    ensures data.password.Unset? ==> Updated(u, data, hash, now).hashedPassword == u.hashedPassword
    ensures data.password.Given? ==> Updated(u, data, hash, now).hashedPassword == hash(data.password.value)
    ensures READ_AUDIO in Updated(u, data, hash, now).permissions
    ensures data.permissions.Given? ==>
      Updated(u, data, hash, now).permissions == WithReadAudio(data.permissions.value)
    ensures data == UserUpdate(Unset, Unset, Unset, Unset, Unset) && READ_AUDIO in u.permissions ==>
      Updated(u, data, hash, now) == u.(updatedAt := now)
  {
    WithReadAudioFacts(Pick(data.permissions, u.permissions));
  }

  /** The update changes the email only to one no other record holds. */
  predicate EmailConflict(users: map<string, User>, id: string, email: Provided<string>)
    requires id in users
  {
    email.Given? && email.value != "" && email.value != users[id].email && EmailTaken(users, email.value)
  }

  /** An update that passed the email check keeps the store invariant. */
  lemma UpdateKeepsInvariant(users: map<string, User>, id: string, data: UserUpdate,
                             hash: string -> string, now: int)
    requires StoreInvariant(users) && id in users && !EmailConflict(users, id, data.email)
    requires data.email != Given("")
    ensures StoreInvariant(users[id := Updated(users[id], data, hash, now)])
  {
    var v := Updated(users[id], data, hash, now);
    var users' := users[id := v];
    forall a, b | a in users' && b in users' && users'[a].email == users'[b].email
      ensures a == b
    {
      if a == id && b != id {
        assert users[b].email == v.email;
        assert v.email != users[id].email ==> EmailTaken(users, v.email);
      } else if b == id && a != id {
        assert users[a].email == v.email;
        assert v.email != users[id].email ==> EmailTaken(users, v.email);
      }
    }
  }

  /** A creation that passed the email check keeps the store invariant. */
  lemma CreateKeepsInvariant(users: map<string, User>, data: UserCreate, hash: string -> string,
                             id: string, now: int)
    requires StoreInvariant(users) && !EmailTaken(users, data.email) && id !in users
    ensures StoreInvariant(users[id := NewUser(data, hash, id, now)])
  {
  }

  /** The update schema never gives an empty email: a given one matches
      the email pattern and `EmailStr` accepts it. */
  lemma ParsedUpdateEmail(refusal: EmailStrCheck, body: PyValue.Dict)
    requires ParseUserUpdate(refusal, body).Valid?
    ensures ParseUserUpdate(refusal, body).value.email != Given("")
    ensures ParseUserUpdate(refusal, body).value.email.Given? ==> Validators.MatchesEmail(ParseUserUpdate(refusal, body).value.email.value)
    ensures ParseUserUpdate(refusal, body).value.email.Given? ==> refusal(ParseUserUpdate(refusal, body).value.email.value).None?
  {
    var email := UpdateField(body, "email", UpdateEmail(refusal, Input(body, "email")));
    assert email.Ok? && ParseUserUpdate(refusal, body).value.email == email.value;
  }

  /** The `for key, value in update_dict.items(): setattr(...)` loop. */
  method ApplyUpdates(u: User, fs: seq<FieldUpdate>) returns (v: User)
    ensures v == ApplyAll(u, fs)
  {
    v := u;
    var i := 0;
    while i < |fs|
      invariant 0 <= i <= |fs|
      invariant ApplyAll(v, fs[i..]) == ApplyAll(u, fs)
    {
      assert fs[i..][1..] == fs[i + 1..];
      v := SetAttr(v, fs[i]);
      i := i + 1;
    }
    assert fs[i..] == [];
  }

  // ------------------------------------------------------------ the service

  /** `UserService` with the user store it manages, keyed by user id. */
  class UserStore {
    var users: map<string, User>

    ghost predicate Valid()
      reads this
    {
      StoreInvariant(users)
    }

    constructor ()
      ensures Valid() && users == map[]
    {
      users := map[];
    }

    /** `get_user(user_id)` */
    function GetUser(id: string): (r: Result<UserDisplay, HttpError>)
      reads this
      requires Valid()
      ensures r.Success? <==> id in users
      ensures r.Success? ==> r.value == Display(users[id]) && r.value.id == id
      ensures r.Failure? ==> r.error == USER_NOT_FOUND
    {
      if id in users then Success(Display(users[id])) else Failure(USER_NOT_FOUND)
    }

    /** `create_user(user_data)`: a taken email is a 409 and nothing is
        stored; otherwise the store files the new record under a fresh id
        (an id already in use makes the insert raise). */
    method CreateUser(data: UserCreate, hash: string -> string, hex: string, now: int)
      returns (r: Result<UserDisplay, HttpError>)
      requires Valid()
      modifies this
      ensures Valid()
      ensures EmailTaken(old(users), data.email) ==> r == Failure(EMAIL_EXISTS_ON_CREATE) && users == old(users)
      ensures !EmailTaken(old(users), data.email) && GenerateUserId(hex) in old(users) ==>
        r == Failure(UNHANDLED) && users == old(users)
      ensures !EmailTaken(old(users), data.email) && GenerateUserId(hex) !in old(users) ==>
        var u := NewUser(data, hash, GenerateUserId(hex), now);
        users == old(users)[GenerateUserId(hex) := u] && r == Success(Display(u))
    {
      if EmailTaken(users, data.email) {
        return Failure(EMAIL_EXISTS_ON_CREATE);
      }
      var id := GenerateUserId(hex);
      if id in users {
        return Failure(UNHANDLED);
      }
      var u := NewUser(data, hash, id, now);
      CreateKeepsInvariant(users, data, hash, id, now);
      users := users[id := u];
      r := Success(Display(u));
    }

    /** `update_user(user_id, user_data)`: a missing user is a 404, an
        email held by another user a 409; otherwise the fields sent are
        written one by one, "read:audio" is ensured and the store saves the
        record with a new update time. The update schema never gives an
        empty email (`ParsedUpdateEmail`). */
    method UpdateUser(id: string, data: UserUpdate, hash: string -> string, now: int)
      returns (r: Result<UserDisplay, HttpError>)
      requires Valid()
      requires data.email != Given("")
      modifies this
      ensures Valid()
      ensures id !in old(users) ==> r == Failure(USER_NOT_FOUND) && users == old(users)
      ensures id in old(users) && EmailConflict(old(users), id, data.email) ==>
        r == Failure(EMAIL_EXISTS_ON_UPDATE) && users == old(users)
      ensures id in old(users) && !EmailConflict(old(users), id, data.email) && UpdateDict(data, hash).Failure? ==>
        r == Failure(UNHANDLED) && users == old(users)
      ensures id in old(users) && !EmailConflict(old(users), id, data.email) && UpdateDict(data, hash).Success? ==>
        var v := Updated(old(users)[id], data, hash, now);
        users == old(users)[id := v] && r == Success(Display(v))
    {
      if id !in users {
        return Failure(USER_NOT_FOUND);
      }
      var existing := users[id];
      if data.email.Given? && data.email.value != "" && data.email.value != existing.email {
        if EmailTaken(users, data.email.value) {
          return Failure(EMAIL_EXISTS_ON_UPDATE);
        }
      }
      var dict := UpdateDict(data, hash);
      if dict.Failure? {
        return Failure(dict.error);
      }
      var v := ApplyUpdates(existing, dict.value);
      if READ_AUDIO !in v.permissions {
        v := v.(permissions := v.permissions + [READ_AUDIO]);
      }
      v := v.(updatedAt := now);
      UpdateDictApplied(existing, data, hash, now);
      UpdateKeepsInvariant(users, id, data, hash, now);
      users := users[id := v];
      r := Success(Display(v));
    }

    /** `delete_user(user_id)`: a missing user is a 404; `storeFails` is the
        store's delete reporting `False` (it swallows database errors),
        which is a 500. */
    method DeleteUser(id: string, storeFails: bool) returns (r: Option<HttpError>)
      requires Valid()
      modifies this
      ensures Valid()
      ensures id !in old(users) ==> r == Some(USER_NOT_FOUND) && users == old(users)
      ensures id in old(users) && storeFails ==> r == Some(DELETE_FAILED) && users == old(users)
      ensures id in old(users) && !storeFails ==> r.None? && users == old(users) - {id}
    {
      if id !in users {
        return Some(USER_NOT_FOUND);
      }
      if storeFails {
        return Some(DELETE_FAILED);
      }
      users := users - {id};
      r := None;
    }
  }

  /** A user created and then looked up is shown as created; deleting it
      makes the lookup a 404 again. */
  method CreateThenGet(data: UserCreate, hash: string -> string, hex: string, now: int)
    returns (shown: Result<UserDisplay, HttpError>, afterDelete: Result<UserDisplay, HttpError>)
    ensures shown == Success(Display(NewUser(data, hash, GenerateUserId(hex), now)))
    ensures afterDelete == Failure(USER_NOT_FOUND)
  {
    var store := new UserStore();
    var created := store.CreateUser(data, hash, hex, now);
    shown := store.GetUser(GenerateUserId(hex));
    var deleted := store.DeleteUser(GenerateUserId(hex), false);
    afterDelete := store.GetUser(GenerateUserId(hex));
  }
}
