/**
 * The two foreign libraries the server calls, bcrypt (password hashing) and
 * jsonwebtoken (bearer tokens), as function values supplied from outside.
 * What the model relies on about them is collected in `Sound`.
 */
module Credentials {
  import opened Wrappers

  /** The signing secret hard-coded in the server. */
  const SECRET: string := "supersecret"

  /** The claims put into a token at login and attached to `req.user`. */
  datatype Claims = Claims(id: int, email: string)

  datatype Credentials = Credentials(
    /** `bcrypt.hashSync(password, 10)` with the random salt it draws made explicit. */
    hash: (string, string) -> string,
    /** `bcrypt.compareSync(password, digest)`. */
    compare: (string, string) -> bool,
    /** `jwt.sign(claims, secret)`. */
    sign: (Claims, string) -> string,
    /** `jwt.verify(token, secret)`: the decoded claims, or `None` on any error. */
    verify: (string, string) -> Option<Claims>)

  /**
   * The library facts the end-to-end properties depend on: a password
   * matches every digest made from it, a token signed with the secret
   * verifies to the claims it was made from, and a token is a non-empty
   * string without spaces (the compact JWT form is three base64url segments
   * joined by dots).
   */
  ghost predicate Sound(c: Credentials)
  {
    && (forall password, salt :: c.compare(password, c.hash(password, salt)))
    && (forall claims :: c.verify(c.sign(claims, SECRET), SECRET) == Some(claims))
    && (forall claims :: c.sign(claims, SECRET) != [] && ' ' !in c.sign(claims, SECRET))
  }
}
