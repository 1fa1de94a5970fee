/**
 * A stand-in for the bcrypt library's `hash(password, 10)` and
 * `compare(password, hash)`. The real algorithm is a foreign call; the model
 * keeps its observable shape (a "$2b$10$" prefix naming the variant and cost
 * 10, a 22-character random salt, then a digest) and the two facts the routes
 * rely on: comparing a password with its own hash succeeds, and the hash is
 * never the plaintext. The digest here is deliberately lossy (one bit per
 * character), so distinct passwords may compare equal, as they may with any
 * hash.
 */
module Bcrypt {

  /** "$2b$" (the variant), "10" (the work factor the registration route passes to `hash`), "$". */
  const Prefix: string := "$2b$10$"

  const SaltLength: nat := 22

  /** The salt bcrypt draws at random for each `hash` call. */
  type Salt = s: string | |s| == SaltLength witness "......................"

  function Digest(salt: string, password: string): (d: string)
    requires |salt| == SaltLength
    ensures |d| == |password|
  {
    seq(|password|, i requires 0 <= i < |password| =>
      if (password[i] as int + salt[i % SaltLength] as int) % 2 == 0 then '.' else '/')
  }

  function Hash(password: string, salt: Salt): (h: string)
    ensures |h| == |Prefix| + SaltLength + |password|
  {
    Prefix + salt + Digest(salt, password)
  }

  /** Rehashes `password` with the salt stored inside `h` and compares the digests. */
  predicate Compare(password: string, h: string)
  {
    && |h| >= |Prefix| + SaltLength
    && h[..|Prefix|] == Prefix
    && h[|Prefix| + SaltLength..] == Digest(h[|Prefix|..|Prefix| + SaltLength], password)
  }

  lemma CompareAcceptsHash(password: string, salt: Salt)
    ensures Compare(password, Hash(password, salt))
  {
    var h := Hash(password, salt);
    assert h[..|Prefix|] == Prefix;
    assert h[|Prefix|..|Prefix| + SaltLength] == salt;
    assert h[|Prefix| + SaltLength..] == Digest(salt, password);
  }

  lemma HashIsNotPlaintext(password: string, salt: Salt)
    ensures Hash(password, salt) != password
  {
  }
}
