/** The JSON Web Token payloads, token pairs and configuration the core
    passes around, and the signing library seen from outside: `sign` and
    `verify` are opaque functions supplied by the caller. */
module Jwt {
  import opened Common

  /** A claim's `id`: a string (a Firebase uid or a Mongo id), or a number
      (a Moodle id). */
  datatype Id = Str(s: string) | Num(n: int)

  /** The subject claim `sub`. Logins through Firebase put the stored
      user's `role` in it, Moodle logins and refreshes put `roles`. */
  datatype Sub = Sub(id: Option<Id>, email: Option<string>, roles: Option<seq<string>>, role: Option<string>)

  /** A verified payload: the top-level `id` read by the token validator,
      and `sub`. Every payload this service signs is `{ sub }`. */
  datatype Payload = Payload(id: Option<string>, sub: Option<Sub>)

  function Claim(sub: Sub): Payload {
    Payload(None, Some(sub))
  }

  /** `Tokens`: the flows here only ever fill `access_token`. */
  datatype Tokens = Tokens(accessToken: string, refreshToken: Option<string>)

  /** Nest's JwtService over jsonwebtoken: `sign(payload, secret, expiresIn)`
      and `verify(token, secret)`, which fails with `TokenExpiredError` or
      `JsonWebTokenError`. */
  datatype JwtLib = JwtLib(sign: (Payload, string, string) -> string,
                           verify: (string, string) -> Result<Payload>)

  /** What lemmas may assume of the library: a token verifies, with the
      secret it was signed with, to the payload it was signed from. */
  ghost predicate Sound(jwt: JwtLib) {
    forall p, secret, expiresIn :: secret != "" ==>
      jwt.verify(jwt.sign(p, secret, expiresIn), secret) == Ok(p)
  }

  /** The environment: `jwtConstants.secret` and `jwtConstants.expires`
      (read when the module loads; also the JwtModule's default secret),
      and `process.env.JWT_SECRET` / `JWT_REFRESH_SECRET` read at call time.
      An unset variable is the empty string. */
  datatype Config = Config(constSecret: string, constExpires: string,
                           envSecret: string, envRefreshSecret: string)

  /** `verify` fails only with jsonwebtoken's own errors. */
  ghost predicate LibraryErrors(jwt: JwtLib) {
    forall token, secret :: jwt.verify(token, secret).Err? ==>
      jwt.verify(token, secret).error.TokenExpiredError? || jwt.verify(token, secret).error.JsonWebTokenError?
  }
}
