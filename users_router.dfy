/**
 * The user routes. Each is a chain of checks over a lookup; the create and
 * update routes then change the table through the user store.
 */
module UsersRouter {
  import opened Wrappers
  import opened Exceptions
  import opened Models
  import opened Schemas
  import opened Security
  import opened UserService

  /** The response model applied to an optional row. */
  function PublicOpt(u: Option<UserRecord>): Option<User>
  {
    if u.Some? then Some(FromOrm(u.value)) else None
  }

  /** `retrieve_users`: a page of users in their public form. The route asks
      for no caller at all. */
  function RetrieveUsers(rows: seq<UserRecord>, skip: int := 0, limit: int := 100): (r: Result<seq<User>, Failure>)
    ensures r.Failure? <==> skip < 0 || limit < 0
    ensures r.Failure? ==> r.error == Crashed(DataError)
    ensures r.Success? ==>
      && |r.value| == (if skip >= |rows| then 0 else if limit < |rows| - skip then limit else |rows| - skip)
      && forall k :: 0 <= k < |r.value| ==> r.value[k] == FromOrm(rows[skip + k])
  {
    match GetUsersMulti(rows, skip, limit)
    case Failure(e) => Failure(Crashed(e))
    case Success(users) => Success(seq(|users|, k requires 0 <= k < |users| => FromOrm(users[k])))
  }

  /** With the default paging the route lists the first hundred users. */
  lemma RetrieveUsersDefault(rows: seq<UserRecord>)
    ensures RetrieveUsers(rows).Success?
    ensures |RetrieveUsers(rows).value| == if |rows| < 100 then |rows| else 100
  {
  }

  /** `create_user`: refuse an email that is already stored, otherwise create
      the user. The database assigns the fresh id `newId`. */
  method CreateUser(store: UserStore, body: UserCreate, hasher: Hasher, newId: UserId) returns (r: Result<User, Failure>)
    requires store.Valid() && GetUserById(store.rows, newId).None?
    modifies store
    ensures store.Valid()
    ensures GetUserByEmail(old(store.rows), body.email).Some? ==>
      r == Failure(Raised(UserAlreadyExistsException)) && store.rows == old(store.rows)
    ensures GetUserByEmail(old(store.rows), body.email).None? ==>
      && store.rows == old(store.rows) + [NewRecord(newId, body, hasher)]
      && r == Success(FromOrm(NewRecord(newId, body, hasher)))
  {
    var user := GetUserByEmail(store.rows, body.email);
    if user.Some? {
      return Failure(Raised(UserAlreadyExistsException));
    }
    var created := store.Create(body, hasher, newId);
    r := Success(FromOrm(created.value));
  }

  // ---------------------------------------------------------------------
  // retrieve_user
  // ---------------------------------------------------------------------

  /** Who may read or change a user record: its owner, or a superuser. */
  predicate OwnerOrSuperuser(caller: UserRecord, targetId: UserId)
  {
    caller.id == targetId || caller.isSuperuser
  }

  /** `retrieve_user`: look the id up, let the caller see its own row, refuse
      a caller that is not a superuser, return the lookup. `currentUser` is
      what `get_current_user` produced, which may be `None`. */
  function RetrieveUser(rows: seq<UserRecord>, userId: UserId, currentUser: Option<UserRecord>): (r: Result<Option<User>, Failure>)
    ensures r.Success? <==>
      GetUserById(rows, userId) == currentUser || (currentUser.Some? && currentUser.value.isSuperuser)
    ensures r.Success? ==> r.value == PublicOpt(GetUserById(rows, userId))
    ensures r.Failure? ==> GetUserById(rows, userId) != currentUser
    ensures r.Failure? ==> r.error == if currentUser.None? then Crashed(AttributeError) else Raised(UserNoPrivilegesException)
  {
    var user := GetUserById(rows, userId);
    if user == currentUser then Success(PublicOpt(user))
    else if currentUser.None? then Failure(Crashed(AttributeError))
    else if !currentUser.value.isSuperuser then Failure(Raised(UserNoPrivilegesException))
    else Success(PublicOpt(user))
  }

  /** For a stored caller, the route answers exactly when the caller owns
      the id or is a superuser, and refuses for lack of privileges otherwise. */
  lemma RetrieveUserAccess(rows: seq<UserRecord>, caller: UserRecord, userId: UserId)
    requires UniqueIds(rows) && caller in rows
    ensures RetrieveUser(rows, userId, Some(caller)).Success? <==> OwnerOrSuperuser(caller, userId)
    ensures !OwnerOrSuperuser(caller, userId) ==> RetrieveUser(rows, userId, Some(caller)) == Failure(Raised(UserNoPrivilegesException))
  {
    var i :| 0 <= i < |rows| && rows[i] == caller;
    GetUserByIdFindsRow(rows, i);
  }

  /** The caller's own record comes back whatever the caller's privilege. */
  lemma RetrieveOwnRecord(rows: seq<UserRecord>, caller: UserRecord)
    requires UniqueIds(rows) && caller in rows
    ensures RetrieveUser(rows, caller.id, Some(caller)) == Success(Some(FromOrm(caller)))
  {
    var i :| 0 <= i < |rows| && rows[i] == caller;
    GetUserByIdFindsRow(rows, i);
  }

  /** There is no existence check: for an id nobody has, a superuser gets
      `None` back and anyone else is refused for lack of privileges. */
  lemma RetrieveAbsentUser(rows: seq<UserRecord>, caller: UserRecord, userId: UserId)
    requires forall j :: 0 <= j < |rows| ==> rows[j].id != userId
    ensures caller.isSuperuser ==> RetrieveUser(rows, userId, Some(caller)) == Success(None)
    ensures !caller.isSuperuser ==> RetrieveUser(rows, userId, Some(caller)) == Failure(Raised(UserNoPrivilegesException))
  {
  }

  // ---------------------------------------------------------------------
  // update_user and update_user_me
  // ---------------------------------------------------------------------

  /** `UserUpdate(**fields)` of a stored user, then the body's password
      assigned when the body has one: every field but the password comes
      from the stored user, whatever else the body says. */
  function UpdateFromCurrent(user: UserRecord, password: Option<string>): (u: UserUpdate)
    ensures u.email == user.email && u.fullName == user.fullName
    ensures u.isActive == user.isActive && u.isSuperuser == user.isSuperuser
    ensures u.password == password
    ensures u.fieldsSet == {Email, FullName, IsActive, IsSuperuser} + (if password.Some? then {Password} else {})
  {
    var userIn := FromRecordFields(user);
    if password.Some? then WithPassword(userIn, password.value) else userIn
  }

  /** Lines 78-81 of `update_user_me`: the update built from the caller. A
      missing caller cannot be unpacked into the schema. */
  function UpdateUserMeInput(currentUser: Option<UserRecord>, body: UserUpdate): (r: Result<UserUpdate, Failure>)
    ensures currentUser.None? ==> r == Failure(Crashed(TypeError))
    ensures currentUser.Some? ==> r == Success(UpdateFromCurrent(currentUser.value, body.password))
  {
    if currentUser.None? then Failure(Crashed(TypeError))
    else Success(UpdateFromCurrent(currentUser.value, body.password))
  }

  /** What `update_user` decides before touching the store. */
  datatype UpdatePlan =
    | Refuse(failure: Failure)
    | ReturnAsIs(user: UserRecord)
    | Apply(user: UserRecord, userIn: UserUpdate)

  /** The check chain of `update_user`: existence, then self, then the
      superuser flag. The update is built from the stored row's fields,
      which is what line 120 evidently intends. */
  function PlanUpdateUser(rows: seq<UserRecord>, userId: UserId, body: UserUpdate, currentUser: Option<UserRecord>): (p: UpdatePlan)
    ensures GetUserById(rows, userId).None? <==> p == Refuse(Raised(UserDoesNotExistException))
    ensures p.ReturnAsIs? <==> GetUserById(rows, userId).Some? && GetUserById(rows, userId) == currentUser
    ensures p.ReturnAsIs? ==> Some(p.user) == currentUser
    ensures p.Apply? ==>
      && GetUserById(rows, userId) == Some(p.user)
      && currentUser.Some? && currentUser.value.isSuperuser
      && p.userIn == UpdateFromCurrent(p.user, body.password)
    ensures p.Refuse? && GetUserById(rows, userId).Some? ==>
      p.failure == if currentUser.None? then Crashed(AttributeError) else Raised(UserNoPrivilegesException)
  {
    var user := GetUserById(rows, userId);
    if user.None? then Refuse(Raised(UserDoesNotExistException))
    else if user == currentUser then ReturnAsIs(user.value)
    else if currentUser.None? then Refuse(Crashed(AttributeError))
    else if !currentUser.value.isSuperuser then Refuse(Raised(UserNoPrivilegesException))
    else Apply(user.value, UpdateFromCurrent(user.value, body.password))
  }

  /** `update_user` exactly as written. The chain is the same, but line 120
      calls `dict()` on the ORM object, which has no such method, so the
      superuser path ends in `AttributeError`. */
  function PlanUpdateUserAsWritten(rows: seq<UserRecord>, userId: UserId, body: UserUpdate, currentUser: Option<UserRecord>): (p: UpdatePlan)
    ensures !p.Apply?
  {
    var user := GetUserById(rows, userId);
    if user.None? then Refuse(Raised(UserDoesNotExistException))
    else if user == currentUser then ReturnAsIs(user.value)
    else if currentUser.None? then Refuse(Crashed(AttributeError))
    else if !currentUser.value.isSuperuser then Refuse(Raised(UserNoPrivilegesException))
    else Refuse(Crashed(AttributeError))
  }

  /** As written, `update_user` never reaches the store: wherever the
      corrected chain would apply an update, the route crashes instead, and
      everywhere else the two agree. */
  lemma UpdateUserAsWrittenNeverApplies(rows: seq<UserRecord>, userId: UserId, body: UserUpdate, currentUser: Option<UserRecord>)
    ensures PlanUpdateUser(rows, userId, body, currentUser).Apply? ==>
      PlanUpdateUserAsWritten(rows, userId, body, currentUser) == Refuse(Crashed(AttributeError))
    ensures !PlanUpdateUser(rows, userId, body, currentUser).Apply? ==>
      PlanUpdateUserAsWritten(rows, userId, body, currentUser) == PlanUpdateUser(rows, userId, body, currentUser)
  {
  }

  /** For a stored caller: an absent id is reported as absent even to a
      caller without privileges; an existing one is refused exactly when the
      caller may not modify it; the caller's own record is returned as is. */
  lemma PlanUpdateUserAccess(rows: seq<UserRecord>, userId: UserId, body: UserUpdate, caller: UserRecord)
    requires UniqueIds(rows) && caller in rows
    ensures (forall j :: 0 <= j < |rows| ==> rows[j].id != userId) ==>
      PlanUpdateUser(rows, userId, body, Some(caller)) == Refuse(Raised(UserDoesNotExistException))
    ensures GetUserById(rows, userId).Some? ==>
      (PlanUpdateUser(rows, userId, body, Some(caller)).Refuse? <==> !OwnerOrSuperuser(caller, userId))
    ensures caller.id == userId ==> PlanUpdateUser(rows, userId, body, Some(caller)) == ReturnAsIs(caller)
  {
    var i :| 0 <= i < |rows| && rows[i] == caller;
    GetUserByIdFindsRow(rows, i);
  }

  /** Of the body, only the password reaches the decision. */
  lemma PlanUpdateUserReadsOnlyPassword(rows: seq<UserRecord>, userId: UserId, b1: UserUpdate, b2: UserUpdate, currentUser: Option<UserRecord>)
    requires b1.password == b2.password
    ensures PlanUpdateUser(rows, userId, b1, currentUser) == PlanUpdateUser(rows, userId, b2, currentUser)
  {
  }

  /** The store update a superuser's request makes: without a password the
      dictionary lookup fails; an empty password changes nothing; any other
      password replaces the hash and nothing else. */
  lemma UpdateFromCurrentEffect(user: UserRecord, password: Option<string>, hasher: Hasher)
    ensures var data := ExcludeUnset(UpdateFromCurrent(user, password));
      && (password.None? <==> HashPasswordField(data, hasher).Failure?)
      && (password.Some? ==>
            Merge(user, HashPasswordField(data, hasher).value) ==
              if |password.value| > 0 then user.(hashedPassword := hasher.hash(password.value)) else user)
  {
    var data := ExcludeUnset(UpdateFromCurrent(user, password));
    if password.Some? {
      assert Password in data;
      var hashed := HashPasswordField(data, hasher).value;
      var merged := Merge(user, hashed);
      var expected := if |password.value| > 0 then user.(hashedPassword := hasher.hash(password.value)) else user;
      assert forall k :: k != Password ==> Column(merged, k) == Column(expected, k);
      assert merged == expected by {
        assert Column(merged, Email) == Column(expected, Email);
        assert Column(merged, FullName) == Column(expected, FullName);
        assert Column(merged, IsActive) == Column(expected, IsActive);
        assert Column(merged, IsSuperuser) == Column(expected, IsSuperuser);
        assert Column(merged, HashedPassword) == Column(expected, HashedPassword);
      }
    }
  }

  /** `update_user`. */
  method UpdateUser(store: UserStore, userId: UserId, body: UserUpdate, currentUser: Option<UserRecord>, hasher: Hasher) returns (r: Result<User, Failure>)
    requires store.Valid()
    modifies store
    ensures store.Valid()
    ensures match PlanUpdateUser(old(store.rows), userId, body, currentUser)
      case Refuse(f) => r == Failure(f) && store.rows == old(store.rows)
      case ReturnAsIs(u) => r == Success(FromOrm(u)) && store.rows == old(store.rows)
      case Apply(u, _) =>
        if body.password.None? then
          r == Failure(Crashed(KeyError)) && store.rows == old(store.rows)
        else
          var updated := if |body.password.value| > 0 then u.(hashedPassword := hasher.hash(body.password.value)) else u;
          && r == Success(FromOrm(updated))
          && |store.rows| == |old(store.rows)|
          && forall j :: 0 <= j < |store.rows| ==>
               store.rows[j] == if old(store.rows)[j].id == u.id then updated else old(store.rows)[j]
  {
    var plan := PlanUpdateUser(store.rows, userId, body, currentUser);
    match plan
    case Refuse(f) =>
      r := Failure(f);
    case ReturnAsIs(u) =>
      r := Success(FromOrm(u));
    case Apply(user, userIn) =>
      UpdateFromCurrentEffect(user, body.password, hasher);
      ghost var i :| 0 <= i < |store.rows| && store.rows[i] == user;
      if body.password.Some? {
        var merged := Merge(user, HashPasswordField(ExcludeUnset(userIn), hasher).value);
        KeepsOwnEmail(store.rows, i, merged);
      }
      var updated := store.Update(user, userIn, hasher);
      match updated
      case Failure(e) => r := Failure(Crashed(e));
      case Success(u) => r := Success(FromOrm(u));
  }
}
