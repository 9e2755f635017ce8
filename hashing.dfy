/**
  The one-way hash the service applies to passwords and to the secret strings
  of its tickets (bcrypt in the source). The model knows nothing about a digest
  except equality; the hash itself is a parameter of every operation that uses
  one.
*/
module Hashing {
  /** A bcrypt hash. */
  type Digest(==, !new)
}
