/**
 * bcrypt and JSON Web Tokens as uninterpreted functions. Each library is a
 * record of function values; the one law the model relies on is a ghost
 * predicate that lemmas take as a hypothesis.
 */
module Crypto {
  import opened Wrappers
  import opened Domain

  type Salt = string

  /** bcrypt.hash (with a salt chosen by the library) and bcrypt.compare. */
  datatype Bcrypt = Bcrypt(hash: (string, Salt) -> string, compare: (string, string) -> bool)

  /** A password always compares equal to any digest made from it. */
  ghost predicate Sound(bcrypt: Bcrypt) {
    forall password, salt :: bcrypt.compare(password, bcrypt.hash(password, salt))
  }

  /** The payload of an access token: the `id` claim plus issue and expiry times. */
  datatype Claims = Claims(id: UserId, iat: Timestamp, exp: Timestamp)

  /** jwtService.sign with the module's secret, and decoding of the signed string. */
  datatype Jwt = Jwt(sign: Claims -> string, decode: string -> Option<Claims>)

  /** A signed token decodes to exactly the claims it was signed with. */
  ghost predicate RoundTrips(jwt: Jwt) {
    forall claims :: jwt.decode(jwt.sign(claims)) == Some(claims)
  }

  /** The `expiresIn: '5m'` sign option, in seconds. */
  const ExpiresIn: int := 5 * 60

  /** jwtService.sign({ id }) at time `now`: the payload gains `iat` and `exp`. */
  function Sign(jwt: Jwt, id: UserId, now: Timestamp): (token: string)
    ensures RoundTrips(jwt) ==> jwt.decode(token) == Some(Claims(id, now, now + ExpiresIn))
  {
    jwt.sign(Claims(id, now, now + ExpiresIn))
  }

  /** A token is rejected as expired from its `exp` second on. */
  predicate Expired(claims: Claims, now: Timestamp) {
    claims.exp <= now
  }

  /** A token issued at `issuedAt` is live for exactly five minutes. */
  lemma TokenLifetime(jwt: Jwt, id: UserId, issuedAt: Timestamp, now: Timestamp)
    requires RoundTrips(jwt)
    ensures jwt.decode(Sign(jwt, id, issuedAt)).Some?
    ensures Expired(jwt.decode(Sign(jwt, id, issuedAt)).value, now) <==> issuedAt + ExpiresIn <= now
  {
  }
}
