/** Password hashing and signed tokens, as the back end uses bcrypt and jsonwebtoken.
    The primitives are uninterpreted functions; the signing secret is process-wide
    configuration folded into `sign` and `verify`. */
module Crypto {
  import opened Common

  /** The identity a token asserts: `{ userId, username }`. */
  datatype Claims = Claims(userId: Id, username: string)

  /** A decoded token: the claims with the `iat` and `exp` fields, in seconds. */
  datatype Payload = Payload(claims: Claims, iat: nat, exp: nat)

  datatype Primitives = Primitives(
    hash: (string, nat) -> string,           // bcrypt.hash(plaintext, 10) with the salt drawn for this call
    compare: (string, string) -> bool,       // bcrypt.compare(plaintext, hash)
    sign: Payload -> string,                 // jwt.sign with the secret
    verify: (string, nat) -> Option<Payload> // jwt.verify with the secret at a clock reading in seconds; None when it throws
  )

  /** `expiresIn: '1h'` */
  const TokenLifetime: nat := 3600

  /** jsonwebtoken reads the clock in whole seconds. */
  function Seconds(now: Time): nat
  {
    now / 1000
  }

  /** The payload `jwt.sign(claims, secret, { expiresIn: '1h' })` signs at time `now`:
      issued at the current second and expiring one hour later. */
  function Issue(claims: Claims, now: Time): (p: Payload)
    ensures p.claims == claims && p.iat * 1000 <= now < (p.iat + 1) * 1000
    ensures p.exp - p.iat == TokenLifetime
  {
    Payload(claims, Seconds(now), Seconds(now) + TokenLifetime)
  }

  /** What the libraries guarantee and this model does not prove: a hash matches the
      plaintext it was made from, a signed payload verifies before its `exp` second and is
      refused from that second on, and a signed token contains no space character. */
  ghost predicate Sound(c: Primitives)
  {
    && (forall p: string, salt: nat :: c.compare(p, c.hash(p, salt)))
    && (forall pl: Payload, t: nat :: c.verify(c.sign(pl), t) == if t < pl.exp then Some(pl) else None)
    && (forall pl: Payload :: ' ' !in c.sign(pl))
  }
}
