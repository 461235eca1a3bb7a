/** The part of the jsonwebtoken library that the refresh-token use case relies on.
    Signing and verification are cryptographic and foreign, so they are not defined here:
    they are supplied to the model as two functions, and what the library promises about
    them is a hypothesis (IsJsonWebToken) that lemmas may require. */
module JsonWebToken {
  import opened Wrappers

  /** The claim body handed to sign: `{ email }` for a refresh token, `{}` for an access token.
      An email that is undefined is dropped when the body is serialised, hence the Option. */
  datatype Claims = Claims(email: Option<string>)

  /** The decoded payload the use case reads back from verify (its IPayLoad shape). */
  datatype Payload = Payload(sub: string, email: Option<string>)

  /** The options handed to sign: the subject claim and expiresIn, a number of seconds. */
  datatype SignOptions = SignOptions(subject: string, expiresIn: int)

  /** sign(claims, secret, options, iat) and verify(token, secret, now). The library reads the
      clock itself; here the issue time and the time of verification are arguments. */
  datatype Jwt = Jwt(
    sign: (Claims, string, SignOptions, int) -> string,
    verify: (string, string, int) -> Option<Payload>)

  /** The `exp` claim of a token issued at `iat`: a numeric expiresIn counts seconds. */
  function ExpiresAt(iat: int, options: SignOptions): int {
    iat + options.expiresIn
  }

  /** What jsonwebtoken promises of a token it signed: it verifies under the same secret, before
      its expiry, and then yields the subject and claims it was signed with; under another secret
      or from its expiry on, verification fails. Nothing is promised of strings it did not sign. */
  ghost predicate IsJsonWebToken(jwt: Jwt) {
    forall claims, secret, options, iat, key, now
      {:trigger jwt.verify(jwt.sign(claims, secret, options, iat), key, now)} ::
      jwt.verify(jwt.sign(claims, secret, options, iat), key, now) ==
        if key == secret && now < ExpiresAt(iat, options)
        then Some(Payload(options.subject, claims.email))
        else None
  }
}
