/**
 * A symbolic model of the JSON Web Tokens the service signs with `signAsync`.
 * A token is kept in decoded form: its payload claims, the `iat` and `exp`
 * registered claims the signer adds, and the secret it was signed with. The
 * compact serialisation and the HMAC are not modelled; a token verifies under
 * a secret exactly when it was signed with that secret.
 */
module Jwt {
  import opened Wrappers

  /** The payload the service signs: `{ sub: userId, email }`. */
  datatype Claims = Claims(sub: int, email: string)

  /** The per-call signing options: the secret and the lifetime in seconds. */
  datatype SignOptions = SignOptions(secret: string, expiresIn: nat)

  /** A signed token: claims, issued-at and expiry (in whole seconds) and the signing key. */
  datatype Token = Token(claims: Claims, iat: nat, exp: nat, key: string)

  /**
   * Signing at second `now`: the signer stamps `iat` with the current second and
   * sets `exp` to `iat + expiresIn`. There is no nonce, so the token is a
   * function of the claims, the options and the second of issue.
   */
  function Sign(claims: Claims, opts: SignOptions, now: nat): (t: Token)
    ensures forall s: nat {:trigger Verify(t, opts.secret, s)} ::
              Verify(t, opts.secret, s) == if s < now + opts.expiresIn then Some(claims) else None
    ensures forall secret: string, s: nat {:trigger Verify(t, secret, s)} ::
              secret != opts.secret ==> Verify(t, secret, s) == None
  {
    Token(claims, now, now + opts.expiresIn, opts.secret)
  }

  /**
   * Verification at second `now` under `secret`: the signature must be made with
   * that secret and the token must not have expired (`now < exp`).
   */
  function Verify(t: Token, secret: string, now: nat): Option<Claims>
  {
    if t.key == secret && now < t.exp then Some(t.claims) else None
  }
}
