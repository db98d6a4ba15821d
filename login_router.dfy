/**
 * The login route: check the credentials, then the active flag, then issue
 * an access token.
 */
module LoginRouter {
  import opened Wrappers
  import opened Exceptions
  import opened Models
  import opened Security
  import opened Config
  import opened Jwt
  import opened UserService
  import opened LoginService
  import opened Dependencies

  /** The dictionary the route returns; `None` marks a key it does not have. */
  datatype TokenResponse = TokenResponse(accessToken: Option<Token>, refreshToken: Option<Token>, tokenType: Option<string>)

  /** The declared response model requires all three keys. */
  predicate ConformsToTokenModel(resp: TokenResponse)
  {
    resp.accessToken.Some? && resp.refreshToken.Some? && resp.tokenType.Some?
  }

  /** The `sub` claim the route puts in the token: the user's email. */
  function EmailClaim(email: Option<string>): Claim
  {
    if email.Some? then Text(email.value) else Null
  }

  /** `login_for_access_token`. `username` is the form field, which the
      route treats as an email. */
  function LoginForAccessToken(rows: seq<UserRecord>, username: string, password: string, hasher: Hasher, settings: Settings, now: int): (r: Result<TokenResponse, Failure>)
    ensures AuthenticateUser(rows, username, password, hasher).None? ==> r == Failure(Raised(CredentialsException))
    ensures AuthenticateUser(rows, username, password, hasher).Some? && !IsActive(AuthenticateUser(rows, username, password, hasher).value) ==>
      r == Failure(Raised(InactiveUserException))
    ensures AuthenticateUser(rows, username, password, hasher).Some? && IsActive(AuthenticateUser(rows, username, password, hasher).value) ==>
      r.Success?
    ensures r.Success? ==>
      && AuthenticateUser(rows, username, password, hasher).Some?
      && IsActive(AuthenticateUser(rows, username, password, hasher).value)
      && r.value.accessToken.Some?
      && r.value.accessToken.value == CreateAccessToken(map["sub" := Text(username)], None, now, settings)
      && r.value.refreshToken.None?
      && r.value.tokenType == Some("bearer")
  {
    var user := AuthenticateUser(rows, username, password, hasher);
    if user.None? then Failure(Raised(CredentialsException))
    else if !IsActive(user.value) then Failure(Raised(InactiveUserException))
    else
      var accessToken := CreateAccessToken(map["sub" := EmailClaim(user.value.email)], None, now, settings);
      Success(TokenResponse(Some(accessToken), None, Some("bearer")))
  }

  /** Wrong credentials are reported as such even for an inactive account:
      the activity check comes second. */
  lemma CredentialsCheckedFirst(rows: seq<UserRecord>, i: nat, password: string, hasher: Hasher, settings: Settings, now: int)
    requires UniqueEmails(rows) && i < |rows| && rows[i].email.Some?
    requires !hasher.verify(password, rows[i].hashedPassword)
    ensures LoginForAccessToken(rows, rows[i].email.value, password, hasher, settings, now) == Failure(Raised(CredentialsException))
  {
    AuthenticateStoredUser(rows, i, password, hasher);
  }

  /** No login response carries a refresh token, so none satisfies the
      declared response model. */
  lemma LoginResponseLacksRefreshToken(rows: seq<UserRecord>, username: string, password: string, hasher: Hasher, settings: Settings, now: int)
    requires LoginForAccessToken(rows, username, password, hasher, settings, now).Success?
    ensures !ConformsToTokenModel(LoginForAccessToken(rows, username, password, hasher, settings, now).value)
  {
  }

  /** The issued token identifies the user who logged in: presented before
      it expires, it resolves to that same user, who passes the activity
      check. */
  lemma LoginTokenResolvesToUser(rows: seq<UserRecord>, username: string, password: string, hasher: Hasher, settings: Settings, now: int, later: int)
    requires UniqueEmails(rows)
    requires LoginForAccessToken(rows, username, password, hasher, settings, now).Success?
    requires later <= now + settings.accessTokenExpireMinutes * 60
    ensures var user := AuthenticateUser(rows, username, password, hasher).value;
      var token := LoginForAccessToken(rows, username, password, hasher, settings, now).value.accessToken.value;
      && GetCurrentUser(rows, token, settings, later) == Success(Some(user))
      && GetCurrentActiveUser(Some(user)) == Success(user)
  {
    var user := AuthenticateUser(rows, username, password, hasher).value;
    var i :| 0 <= i < |rows| && rows[i] == user;
    GetUserByEmailFindsRow(rows, i, username);
  }
}
