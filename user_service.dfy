/**
 * The user store: read queries over the table, and the two operations that
 * change it. The database session is the `UserStore` object; its `rows` are
 * the table in the order the database returns them.
 */
module UserService {
  import opened Wrappers
  import opened Exceptions
  import opened Models
  import opened Schemas
  import opened Security

  // ---------------------------------------------------------------------
  // Queries
  // ---------------------------------------------------------------------

  /** Position of the first row with id `id`, or `|rows|` when there is none. */
  function IndexById(rows: seq<UserRecord>, id: UserId): (i: nat)
    ensures i <= |rows|
    ensures i < |rows| ==> rows[i].id == id
    ensures forall j :: 0 <= j < i ==> rows[j].id != id
  {
    if |rows| == 0 then 0
    else if rows[0].id == id then 0
    else 1 + IndexById(rows[1..], id)
  }

  /** Position of the first row whose email is `email`, or `|rows|`. A NULL
      email equals no string. */
  function IndexByEmail(rows: seq<UserRecord>, email: string): (i: nat)
    ensures i <= |rows|
    ensures i < |rows| ==> rows[i].email == Some(email)
    ensures forall j :: 0 <= j < i ==> rows[j].email != Some(email)
  {
    if |rows| == 0 then 0
    else if rows[0].email == Some(email) then 0
    else 1 + IndexByEmail(rows[1..], email)
  }

  /** `get_user_by_id`: the first row with that id, or `None`. */
  function GetUserById(rows: seq<UserRecord>, id: UserId): (r: Option<UserRecord>)
    ensures r.None? <==> forall j :: 0 <= j < |rows| ==> rows[j].id != id
    ensures r.Some? ==> exists i :: 0 <= i < |rows| && rows[i] == r.value && r.value.id == id
  {
    var i := IndexById(rows, id);
    if i < |rows| then Some(rows[i]) else None
  }

  /** `get_user_by_email`: the first row with that email, or `None`. */
  function GetUserByEmail(rows: seq<UserRecord>, email: string): (r: Option<UserRecord>)
    ensures r.None? <==> forall j :: 0 <= j < |rows| ==> rows[j].email != Some(email)
    ensures r.Some? ==>
      exists i :: 0 <= i < |rows| && rows[i] == r.value && r.value.email == Some(email) &&
        forall j :: 0 <= j < i ==> rows[j].email != Some(email)
  {
    var i := IndexByEmail(rows, email);
    if i < |rows| then Some(rows[i]) else None
  }

  /** In a table that keeps its primary key, the lookup by id finds the row
      that has it. */
  lemma GetUserByIdFindsRow(rows: seq<UserRecord>, i: nat)
    requires UniqueIds(rows) && i < |rows|
    ensures GetUserById(rows, rows[i].id) == Some(rows[i])
  {
    var k := IndexById(rows, rows[i].id);
    assert k == i;
  }

  /** With the unique email constraint, the lookup by email finds the one
      row that has it. */
  lemma GetUserByEmailFindsRow(rows: seq<UserRecord>, i: nat, email: string)
    requires UniqueEmails(rows) && i < |rows| && rows[i].email == Some(email)
    ensures GetUserByEmail(rows, email) == Some(rows[i])
  {
    var k := IndexByEmail(rows, email);
    assert k == i;
  }

  /** `get_users_multi`: `OFFSET skip LIMIT limit` in table order. The
      database refuses a negative offset or limit. */
  function GetUsersMulti(rows: seq<UserRecord>, skip: int, limit: int): (r: Result<seq<UserRecord>, RuntimeError>)
    ensures r.Failure? <==> skip < 0 || limit < 0
    ensures r.Failure? ==> r.error == DataError
    ensures r.Success? ==>
      && |r.value| == (if skip >= |rows| then 0 else if limit < |rows| - skip then limit else |rows| - skip)
      && forall k :: 0 <= k < |r.value| ==> r.value[k] == rows[skip + k]
  {
    if skip < 0 || limit < 0 then Failure(DataError)
    else if skip >= |rows| then Success([])
    else
      var rest := rows[skip..];
      Success(if limit < |rest| then rest[..limit] else rest)
  }

  // ---------------------------------------------------------------------
  // The row `create` builds, and the attribute assignments `update` makes
  // ---------------------------------------------------------------------

  /** The row `create` is meant to insert, in the migration's columns: email,
      hash of the password and full name from the body, the id supplied by
      the caller, `is_active` and `is_superuser` at their defaults. */
  function NewRecord(id: UserId, userIn: UserCreate, hasher: Hasher): UserRecord
  {
    UserRecord(id, Some(userIn.email), userIn.fullName, hasher.hash(userIn.password), Some(true), false)
  }

  /** The keyword arguments `create` hands to the ORM constructor. */
  const CreateKeywords: set<string> := {"email", "hashed_password", "full_name"}

  /** Building an ORM object from keywords and inserting it. The declarative
      constructor refuses a keyword that names no attribute of the class with
      a `TypeError`, before anything reaches the session. The insert leaves a
      column with neither a value nor a default NULL, which the primary key
      and the password hash column refuse at commit. A success gives the
      columns the new row has values for. */
  function ConstructAndInsert(attributes: set<string>, keywords: set<string>): (r: Result<set<string>, RuntimeError>)
    ensures r.Failure? <==>
      (exists k :: k in keywords && k !in attributes) ||
      (exists c :: c in RequiredColumns && c !in keywords + ColumnDefaults)
    ensures r.Failure? ==> r.error == if keywords <= attributes then IntegrityError else TypeError
    ensures r.Success? ==> r.value == keywords + ColumnDefaults
  {
    if !(keywords <= attributes) then Failure(TypeError)
    else if !(RequiredColumns <= keywords + ColumnDefaults) then Failure(IntegrityError)
    else Success(keywords + ColumnDefaults)
  }

  /** `create` as written never inserts a row: the ORM class declares
      `username`, not `full_name`, so `User(...)` raises `TypeError`. */
  lemma CreateAsWrittenRaises()
    ensures ConstructAndInsert(OrmAttributes, CreateKeywords) == Failure(TypeError)
  {
    assert "full_name" in CreateKeywords && "full_name" !in OrmAttributes;
  }

  /** Against the migration's columns the keywords are accepted, but the row
      still has no id, and the id column has no default, so the commit fails.
      With the id supplied, as `UserStore.Create` takes it, the new row has a
      value for every column of the table. */
  lemma CreateNeedsAnId()
    ensures ConstructAndInsert(TableColumns, CreateKeywords) == Failure(IntegrityError)
    ensures ConstructAndInsert(TableColumns, CreateKeywords + {"id"}) == Success(TableColumns)
  {
    assert "id" !in CreateKeywords + ColumnDefaults;
    var keywords := CreateKeywords + {"id"};
    assert keywords <= TableColumns;
    assert keywords + ColumnDefaults == TableColumns by {
      forall c | c in TableColumns
        ensures c in keywords + ColumnDefaults
      {
      }
    }
  }

  /** A new user is active and never a superuser, whatever flags the body
      carries: only email, password and full name reach the row. */
  lemma NewRecordIgnoresFlags(id: UserId, b1: UserCreate, b2: UserCreate, hasher: Hasher)
    requires b1.email == b2.email && b1.password == b2.password && b1.fullName == b2.fullName
    ensures NewRecord(id, b1, hasher) == NewRecord(id, b2, hasher)
    ensures NewRecord(id, b1, hasher).isActive == Some(true) && !NewRecord(id, b1, hasher).isSuperuser
    ensures NewRecord(id, b1, hasher).hashedPassword == hasher.hash(b1.password)
  {
  }

  /** Python truthiness of a dictionary value. */
  predicate Truthy(v: Value)
  {
    match v
    case Null => false
    case Text(s) => |s| > 0
    case Flag(b) => b
  }

  /** Lines 46-49 of `update`: read `password` (a `KeyError` when it was never
      set); when it is truthy, replace it by `hashed_password`. */
  function HashPasswordField(data: map<Key, Value>, hasher: Hasher): (r: Result<map<Key, Value>, RuntimeError>)
    requires WellTyped(data)
    ensures r.Failure? <==> Password !in data
    ensures r.Failure? ==> r.error == KeyError
    ensures r.Success? ==> WellTyped(r.value)
    ensures r.Success? && !Truthy(data[Password]) ==> r.value == data
    ensures r.Success? && Truthy(data[Password]) ==>
      && r.value.Keys == data.Keys - {Password} + {HashedPassword}
      && r.value[HashedPassword] == Text(hasher.hash(data[Password].text))
      && forall k :: k in data && k != Password && k != HashedPassword ==> r.value[k] == data[k]
  {
    if Password !in data then Failure(KeyError)
    else if Truthy(data[Password]) then
      Success((data - {Password})[HashedPassword := Text(hasher.hash(data[Password].text))])
    else Success(data)
  }

  /** `getattr(user, k)` for the columns; `password` is not a column. */
  function Column(r: UserRecord, k: Key): Value
  {
    match k
    case Email => OptText(r.email)
    case FullName => OptText(r.fullName)
    case IsActive => OptFlag(r.isActive)
    case IsSuperuser => Flag(r.isSuperuser)
    case HashedPassword => Text(r.hashedPassword)
    case Password => Null
  }

  /** `setattr(user, k, v)`. Assigning `password` only attaches a plain
      Python attribute to the object, which is never stored. */
  function SetAttr(r: UserRecord, k: Key, v: Value): (s: UserRecord)
    requires WellTyped(map[k := v])
    ensures s.id == r.id
    ensures k != Password ==> Column(s, k) == v
    ensures forall k' :: k' != k ==> Column(s, k') == Column(r, k')
  {
    match k
    case Email => r.(email := if v.Text? then Some(v.text) else None)
    case FullName => r.(fullName := if v.Text? then Some(v.text) else None)
    case IsActive => r.(isActive := if v.Flag? then Some(v.flag) else None)
    case IsSuperuser => r.(isSuperuser := v.flag)
    case HashedPassword => r.(hashedPassword := v.text)
    case Password => r
  }

  /** The row after every entry of `data` has been assigned onto it. */
  function Merge(r: UserRecord, data: map<Key, Value>): (m: UserRecord)
    requires WellTyped(data)
    ensures m.id == r.id
    ensures forall k :: k != Password ==> Column(m, k) == if k in data then data[k] else Column(r, k)
  {
    UserRecord(
      r.id,
      if Email in data then (if data[Email].Text? then Some(data[Email].text) else None) else r.email,
      if FullName in data then (if data[FullName].Text? then Some(data[FullName].text) else None) else r.fullName,
      if HashedPassword in data then data[HashedPassword].text else r.hashedPassword,
      if IsActive in data then (if data[IsActive].Flag? then Some(data[IsActive].flag) else None) else r.isActive,
      if IsSuperuser in data then data[IsSuperuser].flag else r.isSuperuser)
  }

  /** Assigning one more entry is the same as merging it in: the order of the
      assignments does not matter. */
  lemma MergeOneMore(r: UserRecord, data: map<Key, Value>, k: Key, v: Value)
    requires WellTyped(data[k := v]) && k !in data
    ensures WellTyped(map[k := v]) && WellTyped(data)
    ensures Merge(r, data[k := v]) == SetAttr(Merge(r, data), k, v)
  {
  }

  /** The `setattr` loop of `update`: assign every entry of `data` onto the
      row, one key at a time. */
  method AssignAll(user: UserRecord, data: map<Key, Value>) returns (row: UserRecord)
    requires WellTyped(data)
    ensures row == Merge(user, data)
  {
    row := user;
    var pending := data.Keys;
    while pending != {}
      invariant pending <= data.Keys
      invariant WellTyped(data - pending)
      invariant row == Merge(user, data - pending)
      decreases pending
    {
      var k :| k in pending;
      ghost var done := data - pending;
      assert data - (pending - {k}) == done[k := data[k]];
      MergeOneMore(user, done, k, data[k]);
      row := SetAttr(row, k, data[k]);
      pending := pending - {k};
    }
    assert data - {} == data;
  }

  /** With the primary key kept, the row at `i` is the only one with its id. */
  lemma OnlyRowWithId(rows: seq<UserRecord>, i: nat)
    requires UniqueIds(rows) && i < |rows|
    ensures forall j :: 0 <= j < |rows| ==> (rows[j].id == rows[i].id <==> j == i)
  {
  }

  /** The unique email constraint, checked at commit: some other row already
      holds the row's email. */
  predicate EmailTakenByOther(rows: seq<UserRecord>, row: UserRecord)
  {
    row.email.Some? && exists j :: 0 <= j < |rows| && rows[j].id != row.id && rows[j].email == row.email
  }

  /** A row that keeps the id and email of a stored row breaks no
      uniqueness when written back. */
  lemma KeepsOwnEmail(rows: seq<UserRecord>, i: nat, row: UserRecord)
    requires UniqueEmails(rows) && i < |rows|
    requires row.id == rows[i].id && row.email == rows[i].email
    ensures !EmailTakenByOther(rows, row)
  {
    if row.email.Some? {
      forall j | 0 <= j < |rows| && rows[j].email == row.email
        ensures rows[j].id == row.id
      {
      }
    }
  }

  // ---------------------------------------------------------------------
  // The table
  // ---------------------------------------------------------------------

  class UserStore {
    /** The `users` table, in the order the database returns rows. */
    var rows: seq<UserRecord>

    ghost predicate Valid()
      reads this
    {
      TableConstraints(rows)
    }

    constructor (initial: seq<UserRecord>)
      requires TableConstraints(initial)
      ensures Valid() && rows == initial
    {
      rows := initial;
    }

    /** `create`: build the row, add it and commit. The database assigns the
        fresh id `newId`; the commit fails when the email is already stored. */
    method Create(userIn: UserCreate, hasher: Hasher, newId: UserId) returns (r: Result<UserRecord, RuntimeError>)
      requires Valid() && GetUserById(rows, newId).None?
      modifies this
      ensures Valid()
      ensures GetUserByEmail(old(rows), userIn.email).Some? ==> r == Failure(IntegrityError) && rows == old(rows)
      ensures GetUserByEmail(old(rows), userIn.email).None? ==>
        r == Success(NewRecord(newId, userIn, hasher)) && rows == old(rows) + [r.value]
    {
      var user := NewRecord(newId, userIn, hasher);
      if GetUserByEmail(rows, userIn.email).Some? {
        return Failure(IntegrityError);
      }
      rows := rows + [user];
      r := Success(user);
    }

    /** `update`: take the fields set in `userIn`, hash a truthy password into
        `hashed_password`, assign every entry onto the stored row, commit. */
    method Update(user: UserRecord, userIn: UserUpdate, hasher: Hasher) returns (r: Result<UserRecord, RuntimeError>)
      requires Valid() && user in rows
      modifies this
      ensures Valid()
      ensures HashPasswordField(ExcludeUnset(userIn), hasher).Failure? ==> r == Failure(KeyError) && rows == old(rows)
      ensures HashPasswordField(ExcludeUnset(userIn), hasher).Success? ==>
        var merged := Merge(user, HashPasswordField(ExcludeUnset(userIn), hasher).value);
        if EmailTakenByOther(old(rows), merged) then
          r == Failure(IntegrityError) && rows == old(rows)
        else
          && r == Success(merged)
          && |rows| == |old(rows)|
          && forall j :: 0 <= j < |rows| ==> rows[j] == if old(rows)[j].id == user.id then merged else old(rows)[j]
    {
      var updateData := ExcludeUnset(userIn);
      if Password !in updateData {
        return Failure(KeyError);
      }
      if Truthy(updateData[Password]) {
        var hashedPassword := hasher.hash(updateData[Password].text);
        updateData := updateData - {Password};
        updateData := updateData[HashedPassword := Text(hashedPassword)];
      }
      assert updateData == HashPasswordField(ExcludeUnset(userIn), hasher).value;

      var i := IndexById(rows, user.id);
      assert rows[i] == user by {
        var j :| 0 <= j < |rows| && rows[j] == user;
        GetUserByIdFindsRow(rows, j);
      }
      var row := AssignAll(rows[i], updateData);

      if EmailTakenByOther(rows, row) {
        return Failure(IntegrityError);
      }
      OnlyRowWithId(rows, i);
      rows := rows[i := row];
      r := Success(row);
    }
  }
}
