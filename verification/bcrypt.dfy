/**
 * A symbolic stand-in for bcryptjs. `genSalt(10)` yields a 22-character
 * salt (its randomness becomes a parameter of the callers); `hash` writes the
 * version tag, the cost and the salt in front of a digest; `compare` re-derives
 * the hash from the salt stored in it. The digest here is the plaintext
 * itself, so the stand-in is injective but not one-way: only equality of
 * passwords is modelled, never the cost of inverting a hash.
 */
module Bcrypt {
  const SaltLength: nat := 22
  /** Version tag and the cost 10 passed to `genSalt`, as bcrypt writes them in front of the salt. */
  const Header: string := "$2a$10$"

  type Salt = s: string | |s| == SaltLength witness "......................"

  /** `bcrypt.hash(plain, salt)` */
  function Hash(plain: string, salt: Salt): (h: string)
    ensures |h| == |Header| + SaltLength + |plain|
    ensures h != plain
  {
    Header + salt + plain
  }

  /**
   * `bcrypt.compare(plain, hash)`: true exactly when `hash` is the hash of
   * `plain` under some salt; false for anything that is not a well-formed hash.
   */
  function Compare(plain: string, hash: string): (ok: bool)
    ensures ok <==> exists salt: Salt :: hash == Hash(plain, salt)
  {
    if |hash| >= |Header| + SaltLength && hash[..|Header|] == Header && hash[|Header| + SaltLength..] == plain then
      var salt: Salt := hash[|Header|..|Header| + SaltLength];
      assert hash == Hash(plain, salt);
      true
    else
      false
  }

  /** Hashing then comparing accepts exactly the password that was hashed, whatever the salt. */
  lemma CompareHash(plain: string, candidate: string, salt: Salt)
    ensures Compare(candidate, Hash(plain, salt)) <==> candidate == plain
  {
  }
}
