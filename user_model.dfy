/** The `users` table: one row per account (apps/models/user.py). */
module UserModel {
  import opened Common

  /**
   * A bcrypt hash, kept symbolic: the salt `gensalt()` drew and the password
   * it was computed from. Nothing reads `secret` except password verification.
   */
  datatype Digest = Bcrypt(salt: string, secret: string)

  datatype User = User(
    id: string,
    username: string,
    email: string,
    fullName: string,
    passwordHash: Digest,
    isActive: bool,
    createdAt: Option<DateTime>,
    updatedAt: Option<DateTime>)

  /** Column widths: `String(50)`, `String(100)`, `String(100)`. */
  const UsernameWidth := 50
  const EmailWidth := 100
  const FullNameWidth := 100

  /** A freshly constructed account is active (`is_active` defaults to True). */
  const DefaultActive := true

  /** PostgreSQL refuses a `varchar(n)` value longer than `n` characters. */
  predicate FitsColumns(u: User) {
    |u.username| <= UsernameWidth && |u.email| <= EmailWidth && |u.fullName| <= FullNameWidth
  }

  /** `User.to_dict()` */
  function ToDict(u: User): (d: Body)
    ensures d.Keys == {"id", "username", "email", "full_name", "is_active", "created_at", "updated_at"}
    ensures "password_hash" !in d
  {
    map[
      "id" := Str(u.id),
      "username" := Str(u.username),
      "email" := Str(u.email),
      "full_name" := Str(u.fullName),
      "is_active" := Bool(u.isActive),
      "created_at" := IsoOrNull(u.createdAt),
      "updated_at" := IsoOrNull(u.updatedAt)]
  }

  /** The serialised account does not depend on the password hash at all. */
  lemma ToDictHidesHash(u: User, h: Digest)
    ensures ToDict(u.(passwordHash := h)) == ToDict(u)
  {
  }

  /** Unset timestamps serialise as JSON null. */
  lemma ToDictNullTimestamps(u: User)
    ensures ToDict(u)["created_at"] == Null <==> u.createdAt.None?
    ensures ToDict(u)["updated_at"] == Null <==> u.updatedAt.None?
  {
  }
}
