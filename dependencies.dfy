/**
 * The request dependencies that turn a bearer token into the calling user.
 */
module Dependencies {
  import opened Wrappers
  import opened Exceptions
  import opened Models
  import opened Config
  import opened Jwt
  import opened UserService

  /** `payload.get("sub")`: a missing claim reads as `None`. */
  function Subject(claims: Claims): Claim
  {
    if "sub" in claims then claims["sub"] else Null
  }

  /** `get_current_user`: decode with the access secret, require a subject,
      look the subject up by email. There is no existence check, so a valid
      token for an unknown email yields `None`. A subject that is not a
      string never gets this far: decoding refuses it. */
  function GetCurrentUser(rows: seq<UserRecord>, token: Token, settings: Settings, now: int): (r: Result<Option<UserRecord>, Failure>)
    ensures r.Failure? ==> r.error == Raised(CredentialsException)
    ensures r.Failure? <==>
      Decode(token, settings.secretKey, now).None? || Subject(Decode(token, settings.secretKey, now).value) == Null
    ensures r.Success? ==> token.Signed? && token.key == settings.secretKey
    ensures r.Success? && r.value.Some? ==>
      r.value.value in rows && r.value.value.email.Some? && Subject(token.claims) == Text(r.value.value.email.value)
    ensures r.Success? ==> Subject(token.claims).Text? && r.value == GetUserByEmail(rows, Subject(token.claims).text)
  {
    var payload := Decode(token, settings.secretKey, now);
    if payload.None? then Failure(Raised(CredentialsException))
    else
      match Subject(payload.value)
      case Null => Failure(Raised(CredentialsException))
      case Text(email) => Success(GetUserByEmail(rows, email))
      case Instant(_) => Failure(Raised(CredentialsException))
  }

  /** A token signed with any key but the access secret, the refresh secret
      among them, is refused as bad credentials. */
  lemma OnlyAccessSecretAccepted(rows: seq<UserRecord>, claims: Claims, key: string, settings: Settings, now: int)
    requires key != settings.secretKey
    ensures GetCurrentUser(rows, Encode(claims, key), settings, now) == Failure(Raised(CredentialsException))
  {
  }

  /** A subject that is not a string, JSON null included, is refused as bad
      credentials before any lookup. */
  lemma NonTextSubjectRefused(rows: seq<UserRecord>, claims: Claims, settings: Settings, now: int)
    requires "sub" in claims && !claims["sub"].Text?
    ensures GetCurrentUser(rows, Encode(claims, settings.secretKey), settings, now) == Failure(Raised(CredentialsException))
  {
  }

  /** `get_current_active_user`: the same user when active; an inactive user
      (flag false or NULL) is refused; a missing user makes the attribute
      read fail. */
  function GetCurrentActiveUser(currentUser: Option<UserRecord>): (r: Result<UserRecord, Failure>)
    ensures currentUser.None? ==> r == Failure(Crashed(AttributeError))
    ensures currentUser.Some? ==> (r.Success? <==> IsActive(currentUser.value))
    ensures r.Success? ==> r.value == currentUser.value
    ensures currentUser.Some? && !IsActive(currentUser.value) ==> r == Failure(Raised(InactiveUserException))
  {
    match currentUser
    case None => Failure(Crashed(AttributeError))
    case Some(user) => if user.isActive != Some(true) then Failure(Raised(InactiveUserException)) else Success(user)
  }
}
