/** The password hashing the source delegates to bcrypt (cost factor 10).
    The model keeps only what the handlers depend on: hashing is
    deterministic and injective, and `compare(p, h)` holds exactly when
    `h` is the hash of `p`. No real cryptography is modelled. */
module Crypto {

  /** The `$2b$10$` header bcrypt puts in front of every hash it makes with
      10 salt rounds. */
  const CostHeader: string := "$2b$10$"

  function Hash(password: string): (digest: string)
    ensures |CostHeader| <= |digest|
    ensures digest[..|CostHeader|] == CostHeader
  {
    CostHeader + password
  }

  /** `bcrypt.compare(password, digest)`. */
  predicate Compare(password: string, digest: string) {
    Hash(password) == digest
  }

  /** Different passwords never share a hash. */
  lemma HashInjective(p: string, q: string)
    ensures Hash(p) == Hash(q) ==> p == q
  {
    if Hash(p) == Hash(q) {
      assert p == Hash(p)[|CostHeader|..];
      assert q == Hash(q)[|CostHeader|..];
    }
  }

  /** A stored hash matches exactly the password it was made from. */
  lemma CompareIffSamePassword(p: string, q: string)
    ensures Compare(p, Hash(q)) <==> p == q
  {
    HashInjective(p, q);
  }

  /** A hash is never empty, so a hashed password still satisfies `required`. */
  lemma HashNonEmpty(p: string)
    ensures Hash(p) != ""
  {
  }
}
