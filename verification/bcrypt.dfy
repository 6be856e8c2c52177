/**
 * A symbolic model of the two bcrypt calls the service makes: `hash(data, rounds)`
 * and `compare(data, digest)`. A digest records the cost factor, the random salt
 * drawn for it and, abstractly, the data it was computed from. Only `Compare`
 * looks at that data, so the model never inverts a hash; it does idealise bcrypt
 * as collision-free.
 */
module Bcrypt {

  /** The random salt bcrypt draws on every call; the model takes it as a parameter. */
  type Salt = nat

  /** A salted bcrypt digest of a value of type `T`. */
  datatype Digest<T> = Digest(rounds: nat, salt: Salt, preimage: T)

  /** `bcrypt.hash(data, rounds)` with the salt it happened to draw. */
  function Hash<T(==)>(data: T, rounds: nat, salt: Salt): (d: Digest<T>)
    ensures Compare(data, d)
    ensures d.rounds == rounds
  {
    Digest(rounds, salt, data)
  }

  /** `bcrypt.compare(data, digest)`, awaited: does `data` match the digest? */
  predicate Compare<T(==)>(data: T, d: Digest<T>)
  {
    d.preimage == data
  }

  /** Whatever salt was drawn, a digest accepts exactly the value it was made from. */
  lemma CompareHash<T>(x: T, y: T, rounds: nat, salt: Salt)
    ensures Compare(x, Hash(y, rounds, salt)) <==> x == y
  {
  }
}
