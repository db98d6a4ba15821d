/**
 * The row of the `users` table. Its columns are those the migration creates;
 * the email column is unique.
 */
module Models {
  import opened Wrappers

  /** The UUID primary key, kept opaque. */
  type UserId = string

  /** One stored user. The field types follow the user schemas: `email`,
      `full_name` and `is_active` may be `None`, `is_superuser` is a plain
      flag. There is no plaintext password column. */
  datatype UserRecord = UserRecord(
    id: UserId,
    email: Option<string>,
    fullName: Option<string>,
    hashedPassword: string,
    isActive: Option<bool>,
    isSuperuser: bool)

  /** Python truthiness of the nullable `is_active` column. */
  predicate IsActive(u: UserRecord)
  {
    u.isActive == Some(true)
  }

  /** The primary key: no two rows share an id. */
  predicate UniqueIds(rows: seq<UserRecord>)
  {
    forall i, j :: 0 <= i < j < |rows| ==> rows[i].id != rows[j].id
  }

  /** The unique email column: no two rows share a non-null email (SQL lets
      several rows hold NULL). */
  predicate UniqueEmails(rows: seq<UserRecord>)
  {
    forall i, j :: 0 <= i < j < |rows| && rows[i].email.Some? ==> rows[i].email != rows[j].email
  }

  /** The attributes the ORM class `User` declares. */
  const OrmAttributes: set<string> := {"id", "email", "hashed_password", "is_active", "is_superuser", "username"}

  /** The columns the migration creates for `users`: the ones `UserRecord`
      holds. */
  const TableColumns: set<string> := {"id", "full_name", "email", "hashed_password", "is_active", "is_superuser"}

  /** The columns the ORM fills in when an object leaves them out: the two
      flags. The id has no default. */
  const ColumnDefaults: set<string> := {"is_active", "is_superuser"}

  /** The columns that refuse NULL and have no default: the primary key and
      the password hash. */
  const RequiredColumns: set<string> := {"id", "hashed_password"}

  /** The constraints the database keeps on the table. */
  predicate TableConstraints(rows: seq<UserRecord>)
  {
    UniqueIds(rows) && UniqueEmails(rows)
  }
}
