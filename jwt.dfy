/**
 * Bearer tokens, kept symbolic. A token this service signs is its claim set
 * together with the key it was signed with; any other string a client sends
 * is `Malformed`. Decoding succeeds only under the signing key and while the
 * `exp` claim has not passed, which is what the library guarantees.
 */
module Jwt {
  import opened Wrappers

  /** A claim value: JSON null, a string, or a whole-second timestamp. */
  datatype Claim = Null | Text(text: string) | Instant(seconds: int)

  type Claims = map<string, Claim>

  datatype Token = Signed(claims: Claims, key: string) | Malformed

  /** `jwt.encode(claims, key, algorithm=ALGORITHM)`. */
  function Encode(claims: Claims, key: string): Token
  {
    Signed(claims, key)
  }

  /** No `exp` claim, or an integer `exp` that `now` has not passed. */
  predicate NotExpired(claims: Claims, now: int)
  {
    "exp" !in claims || (claims["exp"].Instant? && now <= claims["exp"].seconds)
  }

  /** No `sub` claim, or one that is a string; any other value is a
      `JWTClaimsError`. */
  predicate SubjectIsText(claims: Claims)
  {
    "sub" !in claims || claims["sub"].Text?
  }

  /** The claim checks decoding runs on a correctly signed token. */
  predicate ClaimsAccepted(claims: Claims, now: int)
  {
    NotExpired(claims, now) && SubjectIsText(claims)
  }

  /** `jwt.decode(token, key, algorithms=[ALGORITHM])`; `None` stands for
      every `JWTError`, the claim errors included. */
  function Decode(token: Token, key: string, now: int): (r: Option<Claims>)
    ensures r.Some? <==> token.Signed? && token.key == key && ClaimsAccepted(token.claims, now)
    ensures r.Some? ==> token == Encode(r.value, key) && SubjectIsText(r.value)
  {
    if token.Signed? && token.key == key && ClaimsAccepted(token.claims, now) then Some(token.claims) else None
  }

  /** A token decodes, under its own key, before it expires and with a
      string subject, to the claims it was made from. */
  lemma DecodeEncode(claims: Claims, key: string, now: int)
    requires ClaimsAccepted(claims, now)
    ensures Decode(Encode(claims, key), key, now) == Some(claims)
  {
  }

  /** A token never decodes under a key other than the one that signed it. */
  lemma DecodeOtherKey(claims: Claims, key: string, other: string, now: int)
    requires key != other
    ensures Decode(Encode(claims, key), other, now) == None
  {
  }
}
