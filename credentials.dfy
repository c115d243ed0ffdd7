/** Stand-ins for the credential utilities (`hash_password`, `verify_password`).
    Only the property the service relies on is meant to be used: verifying a
    password against the hash of another succeeds exactly when the two are equal. */
module Credentials {

  const HashPrefix: string := "$hashed$"

  /** An injective stand-in for the password hash. */
  function HashPassword(password: string): string {
    HashPrefix + password
  }

  /** Does `password` match the stored `hash`? */
  predicate VerifyPassword(hash: string, password: string) {
    hash == HashPassword(password)
  }

  /** `verify(hash(p), q)` holds exactly when `p == q`. */
  lemma VerifyHashedPassword(p: string, q: string)
    ensures VerifyPassword(HashPassword(p), q) <==> p == q
  {
    if VerifyPassword(HashPassword(p), q) {
      assert p == HashPassword(p)[|HashPrefix|..];
      assert q == HashPassword(q)[|HashPrefix|..];
    }
  }
}
