/**
 * Authentication against the store and issuance of access tokens.
 */
module LoginService {
  import opened Wrappers
  import opened Models
  import Schemas
  import opened Security
  import opened Config
  import opened Jwt
  import opened UserService

  /** `authenticate_user`: the stored user with that email whose hash the
      password verifies against; `None` stands for the `False` the source
      returns both when no user has the email and when the password is wrong.
      The active flag is not looked at. */
  function AuthenticateUser(rows: seq<UserRecord>, email: string, password: string, hasher: Hasher): (r: Option<UserRecord>)
    ensures r.Some? ==> r.value in rows && r.value.email == Some(email) && hasher.verify(password, r.value.hashedPassword)
    ensures r.None? <==> GetUserByEmail(rows, email).None? || !hasher.verify(password, GetUserByEmail(rows, email).value.hashedPassword)
  {
    var user := GetUserByEmail(rows, email);
    if user.None? then None
    else if !hasher.verify(password, user.value.hashedPassword) then None
    else user
  }

  /** No stored user has the email: authentication fails. */
  lemma AuthenticateUnknownEmail(rows: seq<UserRecord>, email: string, password: string, hasher: Hasher)
    requires forall j :: 0 <= j < |rows| ==> rows[j].email != Some(email)
    ensures AuthenticateUser(rows, email, password, hasher) == None
  {
  }

  /** The stored user with the email, judged by the password alone: the
      result is that user exactly when the password verifies, whether or not
      the user is active. */
  lemma AuthenticateStoredUser(rows: seq<UserRecord>, i: nat, password: string, hasher: Hasher)
    requires UniqueEmails(rows) && i < |rows| && rows[i].email.Some?
    ensures var r := AuthenticateUser(rows, rows[i].email.value, password, hasher);
      && (hasher.verify(password, rows[i].hashedPassword) ==> r == Some(rows[i]))
      && (!hasher.verify(password, rows[i].hashedPassword) ==> r == None)
  {
    GetUserByEmailFindsRow(rows, i, rows[i].email.value);
  }

  /** A user just created can log in with the password it was created with,
      given that the hasher verifies a password against its own hash. */
  lemma AuthenticateNewUser(rows: seq<UserRecord>, body: Schemas.UserCreate, hasher: Hasher, newId: UserId)
    requires UniqueEmails(rows) && GetUserByEmail(rows, body.email).None?
    requires VerifiesOwnHashes(hasher)
    ensures var user := NewRecord(newId, body, hasher);
      AuthenticateUser(rows + [user], body.email, body.password, hasher) == Some(user)
  {
    var user := NewRecord(newId, body, hasher);
    var extended := rows + [user];
    assert UniqueEmails(extended);
    GetUserByEmailFindsRow(extended, |rows|, body.email);
  }

  /** `exp` of a new access token: `now + expires_delta` for a non-zero delta,
      otherwise `now` plus the configured access lifetime. */
  function Expiry(now: int, expiresDelta: Option<int>, settings: Settings): int
  {
    if expiresDelta.Some? && expiresDelta.value != 0 then now + expiresDelta.value
    else now + settings.accessTokenExpireMinutes * 60
  }

  /** `create_access_token`: a copy of the claims with `exp` set (an `exp`
      already there is replaced), signed with the access secret. The caller's
      claims are values and are not changed. */
  function CreateAccessToken(data: Claims, expiresDelta: Option<int>, now: int, settings: Settings): (t: Token)
    ensures t.Signed? && t.key == settings.secretKey
    ensures t.claims.Keys == data.Keys + {"exp"}
    ensures forall k :: k in data && k != "exp" ==> t.claims[k] == data[k]
    ensures t.claims["exp"] == Instant(Expiry(now, expiresDelta, settings))
  {
    var toEncode := data["exp" := Instant(Expiry(now, expiresDelta, settings))];
    Encode(toEncode, settings.secretKey)
  }

  /** With no delta, or a zero one, the token expires after the configured
      access lifetime; it is never signed with the refresh secret. */
  lemma DefaultExpiry(data: Claims, expiresDelta: Option<int>, now: int, settings: Settings)
    requires expiresDelta.None? || expiresDelta == Some(0)
    ensures CreateAccessToken(data, expiresDelta, now, settings).claims["exp"] == Instant(now + settings.accessTokenExpireMinutes * 60)
    ensures settings.secretKey != settings.refreshSecretKey ==> CreateAccessToken(data, expiresDelta, now, settings).key != settings.refreshSecretKey
  {
  }

  /** A fresh access token decodes under the access secret exactly until its
      expiry, provided its subject is a string, and under no other key. */
  lemma AccessTokenDecodes(data: Claims, expiresDelta: Option<int>, now: int, later: int, settings: Settings, other: string)
    requires other != settings.secretKey
    ensures Decode(CreateAccessToken(data, expiresDelta, now, settings), settings.secretKey, later).Some? <==>
      later <= Expiry(now, expiresDelta, settings) && SubjectIsText(data)
    ensures Decode(CreateAccessToken(data, expiresDelta, now, settings), other, later) == None
  {
    var t := CreateAccessToken(data, expiresDelta, now, settings);
    assert "sub" in data ==> t.claims["sub"] == data["sub"];
  }
}
