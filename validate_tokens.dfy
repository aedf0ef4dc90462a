/** `ValidateTokenService.validateTokens`: verify the token with the
    module's secret, look the user up by the payload's top-level `id`,
    refuse a deleted user, then consult the whitelist. */
module ValidateTokenService {
  import opened Common
  import opened Store
  import opened Jwt
  import opened UserEntity
  import opened WhiteListService

  datatype Valid = Valid(message: string)

  const TOKEN_VALID := Valid("The token is valid!")

  const PREFIX := "Ups... error: "

  /** The catch: `Ups... error: ${err}` as 501. */
  function ValidationFailed(e: Exception): Exception {
    HttpException(NOT_IMPLEMENTED, Quoted(PREFIX, e))
  }

  /** The user lookup as written: `findOne({ id: isValid.id })`, the
      payload's top-level `id`. */
  function ByTopLevelId(p: Payload): User -> bool {
    HasId(p.id)
  }

  /** The failure a check raises inside the `try`, before the catch wraps
      it, for a lookup `find` from the verified payload to a filter. */
  function CheckWith(token: string, cfg: Config, jwt: JwtLib, users: seq<User>, wl: seq<Entry>,
                     find: Payload -> (User -> bool)): Result<Valid> {
    match jwt.verify(token, cfg.constSecret)
    case Err(e) => Err(e)
    case Ok(p) =>
      match FindFirst(users, find(p))
      case None => Err(TypeError("deletedAt"))   // `user.deletedAt` on null
      case Some(i) =>
        if users[i].deletedAt.Some? then Err(HttpException(NOT_FOUND, Text("User invalid")))
        else if !IsLive(wl, token) then Err(HttpException(BAD_REQUEST, Text("Invalid token...")))
        else Ok(TOKEN_VALID)
  }

  function Check(token: string, cfg: Config, jwt: JwtLib, users: seq<User>, wl: seq<Entry>): Result<Valid> {
    CheckWith(token, cfg, jwt, users, wl, ByTopLevelId)
  }

  function ValidateTokens(token: string, cfg: Config, jwt: JwtLib, users: seq<User>, wl: seq<Entry>): (r: Result<Valid>)
    ensures r.Ok? <==>
      jwt.verify(token, cfg.constSecret).Ok?
      && (exists i :: 0 <= i < |users| && HasId(jwt.verify(token, cfg.constSecret).value.id)(users[i])
                      && users[i].deletedAt.None?
                      && forall j :: 0 <= j < i ==> !HasId(jwt.verify(token, cfg.constSecret).value.id)(users[j]))
      && IsLive(wl, token)
    ensures r.Ok? ==> r.value == TOKEN_VALID
    ensures r.Err? ==> r.error == ValidationFailed(Check(token, cfg, jwt, users, wl).error)
  {
    var c := Check(token, cfg, jwt, users, wl);
    if c.Ok? then
      assert jwt.verify(token, cfg.constSecret).Ok?;
      c
    else Err(ValidationFailed(c.error))
  }

  /** A token that does not verify is refused before any lookup: the
      outcome does not depend on the users or the whitelist. */
  lemma VerifyFailsFirst(token: string, cfg: Config, jwt: JwtLib, users: seq<User>, wl: seq<Entry>,
                         users': seq<User>, wl': seq<Entry>)
    requires jwt.verify(token, cfg.constSecret).Err?
    ensures ValidateTokens(token, cfg, jwt, users, wl) == ValidateTokens(token, cfg, jwt, users', wl')
            == Err(HttpException(NOT_IMPLEMENTED, Quoted(PREFIX, jwt.verify(token, cfg.constSecret).error)))
  {
  }

  /** The whitelist is consulted only for a verified token of a stored,
      undeleted user; a token that is not live then fails with 400 inside. */
  lemma NotLiveFails(token: string, cfg: Config, jwt: JwtLib, users: seq<User>, wl: seq<Entry>)
    requires jwt.verify(token, cfg.constSecret).Ok?
    requires var id := jwt.verify(token, cfg.constSecret).value.id;
             FindFirst(users, HasId(id)).Some? && users[FindFirst(users, HasId(id)).value].deletedAt.None?
    requires !IsLive(wl, token)
    ensures ValidateTokens(token, cfg, jwt, users, wl) ==
      Err(HttpException(NOT_IMPLEMENTED, Quoted(PREFIX, HttpException(BAD_REQUEST, Text("Invalid token...")))))
  {
  }

  /** Every payload this service signs is `{ sub }`, with no top-level
      `id`, so the lookup is the empty filter and takes the first stored
      user: the outcome depends on that user and the whitelist only. */
  lemma MintedTokenOutcome(token: string, cfg: Config, jwt: JwtLib, users: seq<User>, wl: seq<Entry>, sub: Sub)
    requires jwt.verify(token, cfg.constSecret) == Ok(Claim(sub))
    ensures ValidateTokens(token, cfg, jwt, users, wl) ==
      if |users| == 0 then Err(ValidationFailed(TypeError("deletedAt")))
      else if users[0].deletedAt.Some? then Err(ValidationFailed(HttpException(NOT_FOUND, Text("User invalid"))))
      else if !IsLive(wl, token) then Err(ValidationFailed(HttpException(BAD_REQUEST, Text("Invalid token..."))))
      else Ok(TOKEN_VALID)
  {
    UndefinedMatchesFirst(users, None, None);
  }

  // ------------------------------------------- the lookup evidently meant

  /** The user the token's subject names: `sub.id` equal to the stored `id`. */
  function NamesUser(p: Payload): User -> bool {
    (u: User) => p.sub.Some? && p.sub.value.id == Some(Str(u.id))
  }

  /** `validateTokens` with the lookup `findOne({ id: isValid.sub.id })`:
      a token validates only for the stored, undeleted user it names. */
  function ValidateTokensIntended(token: string, cfg: Config, jwt: JwtLib, users: seq<User>, wl: seq<Entry>)
    : (r: Result<Valid>)
    ensures r.Ok? <==>
      jwt.verify(token, cfg.constSecret).Ok?
      && (exists i :: 0 <= i < |users| && NamesUser(jwt.verify(token, cfg.constSecret).value)(users[i])
                      && users[i].deletedAt.None?
                      && forall j :: 0 <= j < i ==> !NamesUser(jwt.verify(token, cfg.constSecret).value)(users[j]))
      && IsLive(wl, token)
    ensures r.Ok? ==> r.value == TOKEN_VALID
    ensures r.Err? ==> r.error == ValidationFailed(CheckWith(token, cfg, jwt, users, wl, NamesUser).error)
  {
    var c := CheckWith(token, cfg, jwt, users, wl, NamesUser);
    if c.Ok? then
      assert jwt.verify(token, cfg.constSecret).Ok?;
      c
    else Err(ValidationFailed(c.error))
  }

  /** A minted token whose subject names no stored user is refused by the
      intended lookup, while the written one accepts it as soon as the first
      stored user is undeleted and the token is live. */
  lemma UnboundTokenValidates(token: string, cfg: Config, jwt: JwtLib, users: seq<User>, wl: seq<Entry>, sub: Sub)
    requires jwt.verify(token, cfg.constSecret) == Ok(Claim(sub))
    requires |users| > 0 && users[0].deletedAt.None? && IsLive(wl, token)
    requires forall j :: 0 <= j < |users| ==> sub.id != Some(Str(users[j].id))
    ensures ValidateTokens(token, cfg, jwt, users, wl) == Ok(TOKEN_VALID)
    ensures ValidateTokensIntended(token, cfg, jwt, users, wl).Err?
  {
    MintedTokenOutcome(token, cfg, jwt, users, wl, sub);
  }

  /** The input that shows it: one stored user `a`, a live token for `b`. */
  lemma UnboundTokenExample()
    ensures var u := User("000000000000000000000001", "a", "uid-a", None, "a@x.io", "password", None, None, None,
                          "1", "{}", [], 0, None, None);
            var jwt := JwtLib((p: Payload, s: string, e: string) => "t",
                              (t: string, s: string) => Ok(Claim(Sub(Some(Str("b")), None, None, None))));
            var cfg := Config("k", "15m", "", "");
            var wl := [Entry("t", true, 0)];
            ValidateTokens("t", cfg, jwt, [u], wl) == Ok(TOKEN_VALID)
            && ValidateTokensIntended("t", cfg, jwt, [u], wl).Err?
  {
    var u := User("000000000000000000000001", "a", "uid-a", None, "a@x.io", "password", None, None, None,
                  "1", "{}", [], 0, None, None);
    var jwt := JwtLib((p: Payload, s: string, e: string) => "t",
                      (t: string, s: string) => Ok(Claim(Sub(Some(Str("b")), None, None, None))));
    var wl := [Entry("t", true, 0)];
    assert FirstEntry(wl, "t") == Some(0);
    UnboundTokenValidates("t", Config("k", "15m", "", ""), jwt, [u], wl, Sub(Some(Str("b")), None, None, None));
  }

  /** When the first stored user is the one the token names, the written
      and the intended lookups agree. */
  lemma VersionsAgreeOnNamedFirstUser(token: string, cfg: Config, jwt: JwtLib, users: seq<User>, wl: seq<Entry>,
                                      sub: Sub)
    requires jwt.verify(token, cfg.constSecret) == Ok(Claim(sub))
    requires |users| > 0 && sub.id == Some(Str(users[0].id))
    ensures ValidateTokens(token, cfg, jwt, users, wl) == ValidateTokensIntended(token, cfg, jwt, users, wl)
  {
    MintedTokenOutcome(token, cfg, jwt, users, wl, sub);
    FindFirstIs(users, NamesUser(Claim(sub)), 0);
  }
}
