/**
 * The pydantic user schemas. Inherited fields are written out in each
 * datatype; a default value of the schema is the default of the
 * constructor's parameter.
 */
module Schemas {
  import opened Wrappers
  import opened Models

  /** Fields shared by every user schema. */
  datatype UserBase = UserBase(
    email: Option<string> := None,
    fullName: Option<string> := None,
    isActive: Option<bool> := Some(true),
    isSuperuser: bool := false)

  /** The body of the create route: email and password are required. */
  datatype UserCreate = UserCreate(
    email: string,
    password: string,
    fullName: Option<string> := None,
    isActive: Option<bool> := Some(true),
    isSuperuser: bool := false)

  /** Attribute names the update path reads from a schema and writes onto a
      stored user. `HashedPassword` is never a schema field; it appears only
      once the update has hashed the password. */
  datatype Key = Email | FullName | IsActive | IsSuperuser | Password | HashedPassword

  /** A value in a schema's `dict()`. */
  datatype Value = Null | Text(text: string) | Flag(flag: bool)

  /** The body of the update routes: every field optional, `password`
      defaulting to `None`. `fieldsSet` is pydantic's record of the fields
      that were passed to the constructor or assigned afterwards. */
  datatype UserUpdate = UserUpdate(
    fieldsSet: set<Key>,
    email: Option<string> := None,
    fullName: Option<string> := None,
    isActive: Option<bool> := Some(true),
    isSuperuser: bool := false,
    password: Option<string> := None)

  /** The public user returned by the routes: an id but no password of any kind. */
  datatype User = User(
    id: Option<UserId> := None,
    email: Option<string> := None,
    fullName: Option<string> := None,
    isActive: Option<bool> := Some(true),
    isSuperuser: bool := false)

  /** The stored form of a user: the public fields plus a required hash. */
  datatype UserInDB = UserInDB(
    hashedPassword: string,
    id: Option<UserId> := None,
    email: Option<string> := None,
    fullName: Option<string> := None,
    isActive: Option<bool> := Some(true),
    isSuperuser: bool := false)

  lemma SchemaDefaults(email: string, password: string, hash: string)
    ensures UserBase() == UserBase(None, None, Some(true), false)
    ensures UserCreate(email, password).isActive == Some(true)
    ensures !UserCreate(email, password).isSuperuser
    ensures UserUpdate({}).password == None
    ensures UserInDB(hash).hashedPassword == hash && UserInDB(hash).id == None
  {
  }

  /** `User.from_orm`: the public view of a stored row. */
  function FromOrm(r: UserRecord): User
  {
    User(Some(r.id), r.email, r.fullName, r.isActive, r.isSuperuser)
  }

  /** The public view loses exactly the password hash: two rows look alike
      from outside if and only if they differ at most in their hash. */
  lemma PublicViewHidesOnlyHash(r1: UserRecord, r2: UserRecord)
    ensures FromOrm(r1) == FromOrm(r2) <==> r1.(hashedPassword := r2.hashedPassword) == r2
  {
  }

  /** `UserUpdate(**fields)` for the fields of a stored user: the four
      schema fields are set, the password is not. */
  function FromRecordFields(r: UserRecord): (u: UserUpdate)
    ensures u.fieldsSet == {Email, FullName, IsActive, IsSuperuser}
    ensures u.email == r.email && u.fullName == r.fullName
    ensures u.isActive == r.isActive && u.isSuperuser == r.isSuperuser
    ensures u.password == None
  {
    UserUpdate({Email, FullName, IsActive, IsSuperuser}, r.email, r.fullName, r.isActive, r.isSuperuser)
  }

  /** `user_in.password = p`: pydantic marks the field as set. */
  function WithPassword(u: UserUpdate, p: string): (v: UserUpdate)
    ensures v.fieldsSet == u.fieldsSet + {Password}
    ensures v.password == Some(p)
    ensures v.email == u.email && v.fullName == u.fullName
    ensures v.isActive == u.isActive && v.isSuperuser == u.isSuperuser
  {
    u.(password := Some(p), fieldsSet := u.fieldsSet + {Password})
  }

  function OptText(s: Option<string>): Value
  {
    if s.Some? then Text(s.value) else Null
  }

  function OptFlag(b: Option<bool>): Value
  {
    if b.Some? then Flag(b.value) else Null
  }

  /** The value of the attribute `k` of an update schema. */
  function Attr(u: UserUpdate, k: Key): Value
  {
    match k
    case Email => OptText(u.email)
    case FullName => OptText(u.fullName)
    case IsActive => OptFlag(u.isActive)
    case IsSuperuser => Flag(u.isSuperuser)
    case Password => OptText(u.password)
    case HashedPassword => Null
  }

  /** Every value has the type its key's column or field declares. */
  predicate WellTyped(d: map<Key, Value>)
  {
    && (Email in d ==> !d[Email].Flag?)
    && (FullName in d ==> !d[FullName].Flag?)
    && (IsActive in d ==> !d[IsActive].Text?)
    && (IsSuperuser in d ==> d[IsSuperuser].Flag?)
    && (Password in d ==> !d[Password].Flag?)
    && (HashedPassword in d ==> d[HashedPassword].Text?)
  }

  /** `u.dict(exclude_unset=True)`: exactly the fields that were set, each
      with the value the schema holds for it. */
  function ExcludeUnset(u: UserUpdate): (d: map<Key, Value>)
    ensures d.Keys == u.fieldsSet - {HashedPassword}
    ensures forall k :: k in d ==> d[k] == Attr(u, k)
    ensures WellTyped(d)
  {
    map k | k in u.fieldsSet && k != HashedPassword :: Attr(u, k)
  }
}
