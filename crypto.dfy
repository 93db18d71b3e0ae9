/**
 * The cryptographic primitives the server calls into (`crypto` SHA-256,
 * `bcrypt`, `jsonwebtoken`), kept abstract. A `Primitives` value is one
 * choice of these functions; `Sound` lists the only facts the rest of the
 * model relies on.
 */
module Crypto {
  import opened Wrappers

  type byte = b: int | 0 <= b < 256

  /** A SHA-256 digest: 32 bytes. */
  type Digest = d: seq<byte> | |d| == 32 witness seq(32, _ => 0)

  /** The payload `jsonwebtoken` signs and returns on successful verification. */
  datatype AccessPayload = AccessPayload(id: nat, role: string, fullName: string, iat: int, exp: int)

  datatype Primitives = Primitives(
    sha256: string -> Digest,                               // createHash("sha256").update(v).digest()
    bcryptHash: (string, string) -> string,                 // bcrypt.hash(password, 10) with the given salt
    bcryptCompare: (string, string) -> bool,                // bcrypt.compare(password, hash)
    jwtSign: (AccessPayload, string) -> string,             // jwt.sign(payload, secret)
    jwtVerify: (string, string, int) -> Option<AccessPayload>  // jwt.verify(token, secret) at a clock in seconds; None = throws
  )

  /**
   * What the primitives promise: bcrypt accepts the password a hash was made
   * from; a signed token is never empty, and it verifies under the same secret
   * to exactly its payload until the clock reaches `exp` (section 4.1.4 of
   * RFC 7519), after which verification fails.
   */
  ghost predicate Sound(p: Primitives) {
    && (forall pw, salt :: p.bcryptCompare(pw, p.bcryptHash(pw, salt)))
    && (forall payload, secret :: |p.jwtSign(payload, secret)| > 0)
    && (forall payload, secret, nowSec ::
          p.jwtVerify(p.jwtSign(payload, secret), secret, nowSec)
          == if nowSec < payload.exp then Some(payload) else None)
  }
}
