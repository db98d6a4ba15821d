/**
 * The password hashing the core relies on. The bcrypt context is not
 * modelled: its two operations are function values handed to the core, so
 * nothing is assumed about them unless a lemma says so.
 */
module Security {

  /** `get_password_hash` and `verify_password`. A salted hash is not a
      function of the plaintext alone; each call site receives the hasher it
      uses, which fixes the salt. */
  datatype Hasher = Hasher(hash: string -> string, verify: (string, string) -> bool)

  /** The property of the library the login path relies on: a password
      verifies against its own hash. */
  ghost predicate VerifiesOwnHashes(h: Hasher)
  {
    forall p :: h.verify(p, h.hash(p))
  }
}
