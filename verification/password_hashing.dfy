/** `BCrypt.Net.BCrypt.HashPassword` and `BCrypt.Verify`, idealised.

    A BCrypt hash draws a fresh random salt on every call, so the salt is a
    parameter here. The digest is modelled as a perfect one-way function: the
    hash remembers which password it was computed from, and nothing but
    `Verify` ever looks at that. Two hashes of one password under different
    salts differ, so the model never relies on hashes being reproducible. */
module PasswordHashing {

  datatype PasswordHash = BCryptHash(salt: nat, preimage: string)

  /** `BCrypt.HashPassword(password)` with the salt it drew. */
  function Hash(password: string, salt: nat): PasswordHash {
    BCryptHash(salt, password)
  }

  /** `BCrypt.Verify(password, hash)`. */
  predicate Verify(password: string, hash: PasswordHash) {
    hash.preimage == password
  }

  /** A hash verifies the password it was computed from, and no other. */
  lemma HashVerifiesExactly(password: string, other: string, salt: nat)
    ensures Verify(password, Hash(password, salt))
    ensures Verify(other, Hash(password, salt)) <==> other == password
  {
  }

  /** Rehashing the same password under another salt gives another hash. */
  lemma SaltsSeparateHashes(password: string, salt1: nat, salt2: nat)
    requires salt1 != salt2
    ensures Hash(password, salt1) != Hash(password, salt2)
  {
  }
}
