/** `AuthService`: Firebase login, logout and token validation. Every
    failure is re-thrown with a fixed status. */
module AuthService {
  import opened Common
  import opened Store
  import opened Jwt
  import opened Identity
  import opened UserEntity
  import opened WhiteListService
  import opened GetTokensService
  import opened ValidateTokenService

  const PREFIX := "Ups... error: "

  /** The claim for a login: Firebase's uid and e-mail, and `user.role`,
      which the strict `User` schema never holds, so it is undefined. */
  function LoginClaim(rec: FirebaseUser): Payload {
    Claim(Sub(Some(Str(rec.uid)), rec.email, None, None))
  }

  /** The steps of `login` before the catch and before the whitelist write. */
  function LoginTokens(firebaseToken: string, fb: Firebase, cfg: Config, jwt: JwtLib, users: seq<User>)
    : Result<Tokens>
  {
    match fb.verifyIdToken(firebaseToken)
    case Err(e) => Err(e)
    case Ok(uid) =>
      match fb.getUser(Some(Str(uid)))
      case Err(e) => Err(e)
      case Ok(rec) =>
        match FindFirst(users, HasEmail(rec.email))
        case None => Err(HttpException(NOT_FOUND, Text("User not found")))
        case Some(_) => GetTokens(LoginClaim(rec), cfg, jwt)
  }

  /** `login`: the outcome and the whitelist after the call. */
  function LoginSpec(firebaseToken: string, fb: Firebase, cfg: Config, jwt: JwtLib, users: seq<User>,
                     wl: seq<Entry>, now: int): (r: (Result<Tokens>, seq<Entry>))
    ensures r.0.Err? ==> StatusOf(r.0.error) == Some(NOT_ACCEPTABLE) && r.1 == wl
    ensures r.0.Ok? <==> LoginTokens(firebaseToken, fb, cfg, jwt, users).Ok?
                         && LoginTokens(firebaseToken, fb, cfg, jwt, users).value.accessToken != ""
    ensures r.0.Ok? ==> r.0 == LoginTokens(firebaseToken, fb, cfg, jwt, users)
                        && r.1 == wl + [Entry(r.0.value.accessToken, true, now)]
  {
    match LoginTokens(firebaseToken, fb, cfg, jwt, users)
    case Err(e) => (Err(HttpException(NOT_ACCEPTABLE, Quoted(PREFIX, e))), wl)
    case Ok(t) =>
      var (w, wl') := AppendSpec(wl, t, now);
      if w.Err? then (Err(HttpException(NOT_ACCEPTABLE, Quoted(PREFIX, w.error))), wl)
      else (Ok(t), wl')
  }

  /** A Firebase account whose e-mail no stored user has cannot log in,
      and nothing is whitelisted. */
  lemma LoginUnknownEmail(firebaseToken: string, fb: Firebase, cfg: Config, jwt: JwtLib, users: seq<User>,
                          wl: seq<Entry>, now: int, uid: string, rec: FirebaseUser)
    requires fb.verifyIdToken(firebaseToken) == Ok(uid) && fb.getUser(Some(Str(uid))) == Ok(rec)
    requires rec.email.Some? && forall j :: 0 <= j < |users| ==> users[j].email != rec.email.value
    ensures LoginSpec(firebaseToken, fb, cfg, jwt, users, wl, now) ==
      (Err(HttpException(NOT_ACCEPTABLE, Quoted(PREFIX, HttpException(NOT_FOUND, Text("User not found"))))), wl)
  {
  }

  /** A Firebase account without an e-mail makes the lookup the empty
      filter: it fails only on an empty collection, and otherwise the first
      stored user lets it in. */
  lemma LoginWithoutEmail(firebaseToken: string, fb: Firebase, cfg: Config, jwt: JwtLib, users: seq<User>,
                          wl: seq<Entry>, now: int, uid: string, rec: FirebaseUser)
    requires fb.verifyIdToken(firebaseToken) == Ok(uid) && fb.getUser(Some(Str(uid))) == Ok(rec)
    requires rec.email.None?
    ensures |users| == 0 ==>
              LoginSpec(firebaseToken, fb, cfg, jwt, users, wl, now)
              == (Err(HttpException(NOT_ACCEPTABLE, Quoted(PREFIX, HttpException(NOT_FOUND, Text("User not found"))))), wl)
    ensures |users| > 0 ==> LoginTokens(firebaseToken, fb, cfg, jwt, users) == GetTokens(LoginClaim(rec), cfg, jwt)
  {
    UndefinedMatchesFirst(users, rec.email, None);
  }

  /** A successful login signs Firebase's uid and e-mail, with no role, for
      an account some stored user shares the e-mail with (any stored user
      when the account has none), and whitelists the token. */
  lemma LoginClaimContents(firebaseToken: string, fb: Firebase, cfg: Config, jwt: JwtLib, users: seq<User>,
                           wl: seq<Entry>, now: int)
    requires LoginSpec(firebaseToken, fb, cfg, jwt, users, wl, now).0.Ok?
    ensures var uid := fb.verifyIdToken(firebaseToken).value;
            var rec := fb.getUser(Some(Str(uid))).value;
            var i := FindFirst(users, HasEmail(rec.email)).value;
            var t := LoginSpec(firebaseToken, fb, cfg, jwt, users, wl, now).0.value;
            (rec.email.Some? ==> users[i].email == rec.email.value)
            && t == GetTokens(Claim(Sub(Some(Str(rec.uid)), rec.email, None, None)), cfg, jwt).value
  {
  }

  /** With a sound signer, the token a login returns verifies with the
      signing secret to a claim carrying the Firebase uid. */
  lemma LoginTokenCarriesUid(firebaseToken: string, fb: Firebase, cfg: Config, jwt: JwtLib, users: seq<User>,
                             wl: seq<Entry>, now: int)
    requires Sound(jwt)
    requires LoginSpec(firebaseToken, fb, cfg, jwt, users, wl, now).0.Ok?
    ensures var t := LoginSpec(firebaseToken, fb, cfg, jwt, users, wl, now).0.value;
            var p := jwt.verify(t.accessToken, SigningSecret(cfg));
            p.Ok? && p.value.sub.Some?
            && p.value.sub.value.id == Some(Str(fb.getUser(Some(Str(fb.verifyIdToken(firebaseToken).value))).value.uid))
  {
    var uid := fb.verifyIdToken(firebaseToken).value;
    var rec := fb.getUser(Some(Str(uid))).value;
    IssuedTokenVerifies(LoginClaim(rec), cfg, jwt);
  }

  /** `logout`: the whitelist revoke, re-thrown as 501. */
  function LogoutSpec(token: string, wl: seq<Entry>): (r: (Result<LogoutReply>, seq<Entry>))
    ensures r.0.Ok? <==> IsLive(wl, token)
    ensures r.0.Err? ==> r.1 == wl && StatusOf(r.0.error) == Some(NOT_IMPLEMENTED)
                         && r.0.error.body.Quoted? && StatusOf(r.0.error.body.cause) == Some(NOT_IMPLEMENTED)
    ensures r.0.Ok? ==> !IsLive(r.1, token)
  {
    var (res, after) := RevokeSpec(wl, token);
    assert res.Ok? ==> !IsLive(after, token) by {
      if res.Ok? { RevokeThenNotLive(wl, token); }
    }
    (Rethrow(res, NOT_IMPLEMENTED, PREFIX), after)
  }

  /** `validateToken`: the validator, re-thrown as 501 around its own 501. */
  function ValidateToken(token: string, cfg: Config, jwt: JwtLib, users: seq<User>, wl: seq<Entry>): (r: Result<Valid>)
    ensures r.Ok? <==> ValidateTokens(token, cfg, jwt, users, wl).Ok?
    ensures r.Ok? ==> r.value == TOKEN_VALID
    ensures r.Err? ==> StatusOf(r.error) == Some(NOT_IMPLEMENTED)
                       && r.error.body == Quoted(PREFIX, ValidateTokens(token, cfg, jwt, users, wl).error)
  {
    Rethrow(ValidateTokens(token, cfg, jwt, users, wl), NOT_IMPLEMENTED, PREFIX)
  }

  method Login(firebaseToken: string, fb: Firebase, cfg: Config, jwt: JwtLib, users: seq<User>,
               wl: WhitelistStore, now: int) returns (r: Result<Tokens>)
    modifies wl
    ensures (r, wl.entries) == LoginSpec(firebaseToken, fb, cfg, jwt, users, old(wl.entries), now)
  {
    var tokens := LoginTokens(firebaseToken, fb, cfg, jwt, users);
    if tokens.Err? {
      return Err(HttpException(NOT_ACCEPTABLE, Quoted(PREFIX, tokens.error)));
    }
    var w := wl.WhitelistJwt(tokens.value, now);
    if w.Err? {
      return Err(HttpException(NOT_ACCEPTABLE, Quoted(PREFIX, w.error)));
    }
    r := tokens;
  }

  method Logout(token: string, wl: WhitelistStore) returns (r: Result<LogoutReply>)
    modifies wl
    ensures (r, wl.entries) == LogoutSpec(token, old(wl.entries))
  {
    var res := wl.WhiteListChangeStatus(token);
    r := Rethrow(res, NOT_IMPLEMENTED, PREFIX);
  }
}
