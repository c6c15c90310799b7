/** What every component of the model shares: result types, the clock's unit and password hashes. */
module Prelude {
  datatype Option<+T> = None | Some(value: T)

  datatype Result<+T, +E> = Ok(value: T) | Err(error: E)

  /** Times are microseconds. */
  const SECOND: nat := 1_000_000
  const MINUTE: nat := 60 * SECOND
  const HOUR: nat := 60 * MINUTE
  const DAY: nat := 24 * HOUR

  /** An ideal bcrypt hash: it verifies exactly the text it was made from. */
  datatype Digest = Digest(of: string)

  function HashPassword(plain: string): Digest { Digest(plain) }

  predicate VerifyPassword(plain: string, hashed: Digest) { hashed == HashPassword(plain) }

  /** A hash verifies the text it was made from and no other. */
  lemma VerifyIff(plain: string, other: string)
    ensures VerifyPassword(plain, HashPassword(other)) <==> plain == other
    ensures HashPassword(plain) == Digest(plain)
  {
  }
}
