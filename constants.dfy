/** The permission vocabulary, default and role permission sets, and the
    validation limits (the limits on email length follow section 4.5.3.1 of
    RFC 5321). */
module Constants {

  const MIN_PASSWORD_LENGTH: nat := 6
  const MAX_PASSWORD_LENGTH: nat := 128
  const MAX_EMAIL_LENGTH: nat := 254
  const MAX_EMAIL_LOCAL_PART_LENGTH: nat := 64

  const READ_AUDIO := "read:audio"
  const WRITE_AUDIO := "write:audio"
  const DELETE_AUDIO := "delete:audio"
  const READ_USER := "read:user"
  const WRITE_USER := "write:user"
  const DELETE_USER := "delete:user"
  const ADMIN := "admin"

  /** Every permission the system knows, in declaration order. */
  const ALL_PERMISSIONS: seq<string> :=
    [READ_AUDIO, WRITE_AUDIO, DELETE_AUDIO, READ_USER, WRITE_USER, DELETE_USER, ADMIN]

  /** Permissions of a user created without an explicit list. */
  const DEFAULT_USER_PERMISSIONS: seq<string> := [READ_AUDIO, WRITE_AUDIO]

  /** Role name to its permission list. */
  const ROLE_PERMISSIONS: map<string, seq<string>> := map[
    "viewer" := [READ_AUDIO],
    "user" := [READ_AUDIO, WRITE_AUDIO],
    "admin" := [READ_AUDIO, WRITE_AUDIO, DELETE_AUDIO, READ_USER, WRITE_USER, DELETE_USER, ADMIN]
  ]

  predicate IsPermission(p: string) {
    p in ALL_PERMISSIONS
  }

  /** Every element of `xs` is an element of `ys`. */
  predicate SubsetOf(xs: seq<string>, ys: seq<string>) {
    forall k :: 0 <= k < |xs| ==> xs[k] in ys
  }

  /** Seven pairwise distinct permissions, one of them `admin`. */
  lemma AllPermissionsDistinct()
    ensures |ALL_PERMISSIONS| == 7 && ADMIN in ALL_PERMISSIONS
    ensures forall i, j :: 0 <= i < j < |ALL_PERMISSIONS| ==> ALL_PERMISSIONS[i] != ALL_PERMISSIONS[j]
  {
  }

  lemma DefaultPermissionsValid()
    ensures DEFAULT_USER_PERMISSIONS == [READ_AUDIO, WRITE_AUDIO]
    ensures SubsetOf(DEFAULT_USER_PERMISSIONS, ALL_PERMISSIONS)
  {
  }

  /** The admin role holds every permission, in the same order. */
  lemma AdminRoleIsAll()
    ensures "admin" in ROLE_PERMISSIONS && ROLE_PERMISSIONS["admin"] == ALL_PERMISSIONS
  {
  }

  /** The roles nest: viewer within user within admin. */
  lemma RolesNest()
    ensures ROLE_PERMISSIONS.Keys == {"viewer", "user", "admin"}
    ensures SubsetOf(ROLE_PERMISSIONS["viewer"], ROLE_PERMISSIONS["user"])
    ensures SubsetOf(ROLE_PERMISSIONS["user"], ROLE_PERMISSIONS["admin"])
  {
  }

  lemma LimitsOrdered()
    ensures MIN_PASSWORD_LENGTH <= MAX_PASSWORD_LENGTH
    ensures MAX_EMAIL_LOCAL_PART_LENGTH <= MAX_EMAIL_LENGTH
  {
  }
}
