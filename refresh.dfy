/** `RefreshTokenService.refreshTokens`: verify a refresh token, find its
    subject in Firebase or, failing that, among the Moodle users, and sign
    a new access token. */
module RefreshService {
  import opened Common
  import opened Store
  import opened Jwt
  import opened Identity
  import opened GetTokensService
  import MoodleService

  const REFRESH_FAILED := "Refresh token failed: "
  const REFRESH_EXPIRED := HttpException(NOT_ACCEPTABLE, Text("Refresh token has expired"))

  /** `process.env.JWT_REFRESH_SECRET`, or the JwtModule's secret when it
      is unset. */
  function RefreshSecret(cfg: Config): string {
    if cfg.envRefreshSecret != "" then cfg.envRefreshSecret else cfg.constSecret
  }

  /** The `catch` around the body: an expired token becomes 406, anything
      else 401 with the error's message. */
  function Caught(e: Exception): (r: Exception)
    ensures e.TokenExpiredError? ==> r == REFRESH_EXPIRED
    ensures !e.TokenExpiredError? ==> r == HttpException(UNAUTHORIZED, Prefixed(REFRESH_FAILED, e))
  {
    if e.TokenExpiredError? then REFRESH_EXPIRED else HttpException(UNAUTHORIZED, Prefixed(REFRESH_FAILED, e))
  }

  /** The identity found for `sub.id`: `id` and `email` of the record that
      replaces `userRecord`. */
  datatype Found = Found(id: Option<Id>, email: Option<string>)

  /** The Firebase lookup with its Moodle fallback (the inner `try`).
      `idOf` reads the Firebase record's id, which is where the written
      and the intended code differ. */
  function Lookup(sub: Sub, fb: Firebase, moodle: seq<MoodleService.MoodleUser>,
                  idOf: FirebaseUser -> Option<Id>): (r: Result<Found>)
    ensures fb.getUser(sub.id).Ok? ==> r == Ok(Found(idOf(fb.getUser(sub.id).value), fb.getUser(sub.id).value.email))
    ensures fb.getUser(sub.id).Err? && fb.getUser(sub.id).error != FirebaseError(USER_NOT_FOUND) ==>
              r == Err(fb.getUser(sub.id).error)
    ensures fb.getUser(sub.id) == Err(FirebaseError(USER_NOT_FOUND)) ==>
              (r.Ok? <==> MoodleService.FindOne(moodle, sub.id).Ok?)
    ensures fb.getUser(sub.id) == Err(FirebaseError(USER_NOT_FOUND)) && r.Ok? ==>
              var u := MoodleService.FindOne(moodle, sub.id).value;
              r.value == Found(if u.moodleId.Some? then Some(Num(u.moodleId.value)) else None, Some(u.email))
  {
    match fb.getUser(sub.id)
    case Ok(rec) => Ok(Found(idOf(rec), rec.email))
    case Err(e) =>
      if e != FirebaseError(USER_NOT_FOUND) then Err(e)
      else
        match MoodleService.FindOne(moodle, sub.id)
        case Err(e2) => Err(e2)
        case Ok(u) => Ok(Found(if u.moodleId.Some? then Some(Num(u.moodleId.value)) else None, Some(u.email)))
  }

  /** The body of the outer `try`: destructure `sub`, look it up, sign
      `{ sub: { id, email, roles } }` with the old token's roles. */
  function Reissue(decoded: Payload, cfg: Config, jwt: JwtLib, fb: Firebase,
                   moodle: seq<MoodleService.MoodleUser>, idOf: FirebaseUser -> Option<Id>): (r: Result<Tokens>)
    ensures decoded.sub.None? ==> r == Err(TypeError("id"))
    ensures decoded.sub.Some? && Lookup(decoded.sub.value, fb, moodle, idOf).Err? ==>
              r == Err(Lookup(decoded.sub.value, fb, moodle, idOf).error)
    ensures decoded.sub.Some? && Lookup(decoded.sub.value, fb, moodle, idOf).Ok? ==>
              var f := Lookup(decoded.sub.value, fb, moodle, idOf).value;
              r == GetTokens(Claim(Sub(f.id, f.email, decoded.sub.value.roles, None)), cfg, jwt)
  {
    match decoded.sub
    case None => Err(TypeError("id"))
    case Some(sub) =>
      match Lookup(sub, fb, moodle, idOf)
      case Err(e) => Err(e)
      case Ok(f) => GetTokens(Claim(Sub(f.id, f.email, sub.roles, None)), cfg, jwt)
  }

  /** `userRecord.id` on a Firebase `UserRecord`: there is no such
      property. */
  function RecordIdAsWritten(rec: FirebaseUser): Option<Id> { None }

  /** The record's `uid`, which is what the claim needs. */
  function RecordUid(rec: FirebaseUser): Option<Id> { Some(Str(rec.uid)) }

  /** `refreshTokens` as written: `verifyAsync` runs before the `try`, so
      its failures escape unchanged; the Firebase path signs no `id`. */
  function RefreshTokens(refreshToken: string, cfg: Config, jwt: JwtLib, fb: Firebase,
                         moodle: seq<MoodleService.MoodleUser>): (r: Result<Tokens>)
    ensures jwt.verify(refreshToken, RefreshSecret(cfg)).Err? ==> r == Err(jwt.verify(refreshToken, RefreshSecret(cfg)).error)
    ensures jwt.verify(refreshToken, RefreshSecret(cfg)).Ok? ==>
      var inner := Reissue(jwt.verify(refreshToken, RefreshSecret(cfg)).value, cfg, jwt, fb, moodle, RecordIdAsWritten);
      r == if inner.Ok? then inner else Err(Caught(inner.error))
  {
    match jwt.verify(refreshToken, RefreshSecret(cfg))
    case Err(e) => Err(e)
    case Ok(decoded) =>
      match Reissue(decoded, cfg, jwt, fb, moodle, RecordIdAsWritten)
      case Ok(t) => Ok(t)
      case Err(e) => Err(Caught(e))
  }

  /** The catch's 406 branch is dead: an expired refresh token fails in
      `verifyAsync` and comes out as the library's raw error, without an
      HTTP status. */
  lemma ExpiredRefreshEscapes(refreshToken: string, cfg: Config, jwt: JwtLib, fb: Firebase,
                              moodle: seq<MoodleService.MoodleUser>)
    requires jwt.verify(refreshToken, RefreshSecret(cfg)) == Err(TokenExpiredError)
    ensures RefreshTokens(refreshToken, cfg, jwt, fb, moodle) == Err(TokenExpiredError)
    ensures StatusOf(RefreshTokens(refreshToken, cfg, jwt, fb, moodle).error).None?
  {
  }

  /** With the libraries failing only in their own ways, no input makes
      the written code answer 406 'Refresh token has expired'. */
  lemma NeverReportsExpiry(refreshToken: string, cfg: Config, jwt: JwtLib, fb: Firebase,
                           moodle: seq<MoodleService.MoodleUser>)
    requires LibraryErrors(jwt) && FirebaseErrors(fb)
    ensures RefreshTokens(refreshToken, cfg, jwt, fb, moodle) != Err(REFRESH_EXPIRED)
  {
    var v := jwt.verify(refreshToken, RefreshSecret(cfg));
    if v.Ok? {
      ReissueNeverExpires(v.value, cfg, jwt, fb, moodle, RecordIdAsWritten);
    }
  }

  /** Nothing inside the `try` throws `TokenExpiredError`. */
  lemma ReissueNeverExpires(decoded: Payload, cfg: Config, jwt: JwtLib, fb: Firebase,
                            moodle: seq<MoodleService.MoodleUser>, idOf: FirebaseUser -> Option<Id>)
    requires FirebaseErrors(fb)
    ensures Reissue(decoded, cfg, jwt, fb, moodle, idOf) != Err(TokenExpiredError)
  {
    if decoded.sub.Some? {
      var sub := decoded.sub.value;
      if fb.getUser(sub.id) == Err(FirebaseError(USER_NOT_FOUND)) {
        var m := MoodleService.FindOne(moodle, sub.id);
        assert m.Err? ==> StatusOf(m.error).Some?;
      }
    }
  }

  /** A refresh through Firebase signs a claim without `id`, so the new
      access token no longer names its user. */
  lemma FirebaseRefreshDropsId(refreshToken: string, cfg: Config, jwt: JwtLib, fb: Firebase,
                               moodle: seq<MoodleService.MoodleUser>)
    requires Sound(jwt) && RefreshSecret(cfg) != "" && SigningSecret(cfg) != ""
    requires jwt.verify(refreshToken, RefreshSecret(cfg)).Ok?
    requires jwt.verify(refreshToken, RefreshSecret(cfg)).value.sub.Some?
    requires fb.getUser(jwt.verify(refreshToken, RefreshSecret(cfg)).value.sub.value.id).Ok?
    ensures RefreshTokens(refreshToken, cfg, jwt, fb, moodle).Ok?
    ensures var t := RefreshTokens(refreshToken, cfg, jwt, fb, moodle).value.accessToken;
            jwt.verify(t, SigningSecret(cfg)).Ok? && jwt.verify(t, SigningSecret(cfg)).value.sub.value.id.None?
  {
    var decoded := jwt.verify(refreshToken, RefreshSecret(cfg)).value;
    var rec := fb.getUser(decoded.sub.value.id).value;
    var claim := Claim(Sub(None, rec.email, decoded.sub.value.roles, None));
    assert RefreshTokens(refreshToken, cfg, jwt, fb, moodle) == GetTokens(claim, cfg, jwt);
    IssuedTokenVerifies(claim, cfg, jwt);
  }

  /** `refreshTokens` as intended: the verification inside the `try`, and
      the Firebase record's `uid` as the new claim's id. */
  function RefreshTokensIntended(refreshToken: string, cfg: Config, jwt: JwtLib, fb: Firebase,
                                 moodle: seq<MoodleService.MoodleUser>): (r: Result<Tokens>)
    ensures jwt.verify(refreshToken, RefreshSecret(cfg)) == Err(TokenExpiredError) ==> r == Err(REFRESH_EXPIRED)
    ensures r.Err? ==> StatusOf(r.error) == Some(UNAUTHORIZED) || r.error == REFRESH_EXPIRED
  {
    match jwt.verify(refreshToken, RefreshSecret(cfg))
    case Err(e) => Err(Caught(e))
    case Ok(decoded) =>
      match Reissue(decoded, cfg, jwt, fb, moodle, RecordUid)
      case Ok(t) => Ok(t)
      case Err(e) => Err(Caught(e))
  }

  /** The intended refresh hands back a token that names the same Firebase
      user, with the same roles. */
  lemma IntendedRefreshKeepsSubject(refreshToken: string, cfg: Config, jwt: JwtLib, fb: Firebase,
                                    moodle: seq<MoodleService.MoodleUser>)
    requires Sound(jwt) && SigningSecret(cfg) != ""
    requires jwt.verify(refreshToken, RefreshSecret(cfg)).Ok?
    requires jwt.verify(refreshToken, RefreshSecret(cfg)).value.sub.Some?
    requires fb.getUser(jwt.verify(refreshToken, RefreshSecret(cfg)).value.sub.value.id).Ok?
    ensures RefreshTokensIntended(refreshToken, cfg, jwt, fb, moodle).Ok?
    ensures var old_sub := jwt.verify(refreshToken, RefreshSecret(cfg)).value.sub.value;
            var rec := fb.getUser(old_sub.id).value;
            var t := RefreshTokensIntended(refreshToken, cfg, jwt, fb, moodle).value.accessToken;
            jwt.verify(t, SigningSecret(cfg)) == Ok(Claim(Sub(Some(Str(rec.uid)), rec.email, old_sub.roles, None)))
  {
    var decoded := jwt.verify(refreshToken, RefreshSecret(cfg)).value;
    var rec := fb.getUser(decoded.sub.value.id).value;
    var claim := Claim(Sub(Some(Str(rec.uid)), rec.email, decoded.sub.value.roles, None));
    assert RefreshTokensIntended(refreshToken, cfg, jwt, fb, moodle) == GetTokens(claim, cfg, jwt);
    IssuedTokenVerifies(claim, cfg, jwt);
  }

  /** The two versions agree except where the fixes apply: on every token
      that verifies and whose subject Firebase does not know. */
  lemma VersionsAgreeOnMoodlePath(refreshToken: string, cfg: Config, jwt: JwtLib, fb: Firebase,
                                  moodle: seq<MoodleService.MoodleUser>)
    requires jwt.verify(refreshToken, RefreshSecret(cfg)).Ok?
    requires var d := jwt.verify(refreshToken, RefreshSecret(cfg)).value;
             d.sub.None? || fb.getUser(d.sub.value.id).Err?
    ensures RefreshTokens(refreshToken, cfg, jwt, fb, moodle) == RefreshTokensIntended(refreshToken, cfg, jwt, fb, moodle)
  {
  }
}
