/** `JwtAuthGuard.canActivate`: take the token out of the Authorization
    header, run the token validator (twice if the first attempt throws),
    verify the token once more and put its subject on the request body. */
module JwtAuthGuard {
  import opened Common
  import opened Jwt
  import opened UserEntity
  import opened WhiteListService
  import opened ValidateTokenService

  /** `s.split(sep)`: the fields between separators, empty ones included. */
  function Split(s: string, sep: char): (r: seq<string>)
    ensures |r| >= 1
    ensures forall i :: 0 <= i < |r| ==> sep !in r[i]
  {
    if |s| == 0 then [""]
    else if s[0] == sep then [""] + Split(s[1..], sep)
    else
      var rest := Split(s[1..], sep);
      [[s[0]] + rest[0]] + rest[1..]
  }

  /** `fields.join(sep)` */
  function Join(fields: seq<string>, sep: char): string
    requires |fields| >= 1
  {
    if |fields| == 1 then fields[0] else fields[0] + [sep] + Join(fields[1..], sep)
  }

  lemma {:induction false} JoinSplit(s: string, sep: char)
    ensures Join(Split(s, sep), sep) == s
  {
    if |s| == 0 {
    } else if s[0] == sep {
      JoinSplit(s[1..], sep);
      assert s == [sep] + s[1..];
    } else {
      JoinSplit(s[1..], sep);
      var rest := Split(s[1..], sep);
      if |rest| == 1 {
        assert s == [s[0]] + rest[0];
      } else {
        assert Join(rest, sep) == rest[0] + [sep] + Join(rest[1..], sep);
        var r := Split(s, sep);
        assert r[1..] == rest[1..];
        assert s == [s[0]] + s[1..];
      }
    }
  }

  /** A field without the separator, then the separator: the field comes
      out first and the rest is split on its own. */
  lemma {:induction false} SplitPrefix(w: string, t: string, sep: char)
    requires sep !in w
    ensures Split(w + [sep] + t, sep) == [w] + Split(t, sep)
  {
    if |w| == 0 {
      assert w + [sep] + t == [sep] + t;
      assert ([sep] + t)[1..] == t;
    } else {
      var s := w + [sep] + t;
      assert s[0] == w[0] && s[1..] == w[1..] + [sep] + t;
      SplitPrefix(w[1..], t, sep);
      assert [w[0]] + w[1..] == w;
    }
  }

  lemma {:induction false} SplitJoin(fields: seq<string>, sep: char)
    requires |fields| >= 1
    requires forall i :: 0 <= i < |fields| ==> sep !in fields[i]
    ensures Split(Join(fields, sep), sep) == fields
  {
    if |fields| == 1 {
      SplitNoSep(fields[0], sep);
    } else {
      SplitJoin(fields[1..], sep);
      SplitPrefix(fields[0], Join(fields[1..], sep), sep);
      assert [fields[0]] + fields[1..] == fields;
    }
  }

  lemma {:induction false} SplitNoSep(w: string, sep: char)
    requires sep !in w
    ensures Split(w, sep) == [w]
  {
    if |w| > 0 {
      SplitNoSep(w[1..], sep);
      assert [w[0]] + w[1..] == w;
    }
  }

  /** `authHeader.split(' ')[1]`, undefined when there is no second field. */
  function SecondField(h: string): (r: Option<string>)
    ensures r.Some? <==> ' ' in h
  {
    var fields := Split(h, ' ');
    if |fields| >= 2 then
      JoinSplit(h, ' ');
      assert h == fields[0] + [' '] + Join(fields[1..], ' ');
      assert h[|fields[0]|] == ' ';
      Some(fields[1])
    else
      assert fields == [Join(fields, ' ')];
      JoinSplit(h, ' ');
      None
  }

  /** Positions matter, not the scheme word: any first word without a
      space, then a space, then a token without a space, gives that token. */
  lemma SecondFieldOfAnyScheme(scheme: string, token: string)
    requires ' ' !in scheme && ' ' !in token
    ensures SecondField(scheme + " " + token) == Some(token)
  {
    SplitPrefix(scheme, token, ' ');
    SplitNoSep(token, ' ');
  }

  predicate StartsWith(s: string, prefix: string) {
    |prefix| <= |s| && s[..|prefix|] == prefix
  }

  /** The access token written to the request log: the second field when
      the header starts with `Bearer `, else the literal `undefined`. */
  function LoggedAccessToken(authHeader: Option<string>): (r: string)
    ensures !Truthy(authHeader) || !StartsWith(authHeader.value, "Bearer ") ==> r == "undefined"
  {
    if Truthy(authHeader) && StartsWith(authHeader.value, "Bearer ") then
      assert authHeader.value[6] == ' ';
      SecondField(authHeader.value).value
    else "undefined"
  }

  lemma LoggedBearerToken(token: string)
    requires ' ' !in token
    ensures LoggedAccessToken(Some("Bearer " + token)) == token
  {
    assert "Bearer " + token == "Bearer" + " " + token;
    SecondFieldOfAnyScheme("Bearer", token);
  }

  const NO_HEADER := HttpException(UNAUTHORIZED, Text("No authorization header"))
  const BAD_FORMAT := HttpException(UNAUTHORIZED, Text("Invalid token format"))
  const INVALID_TOKEN := HttpException(UNAUTHORIZED, Text("Invalid token"))
  const VALIDATION_PREFIX := "UPS..Error during validation: "

  /** The secret of the last check: `JWT_SECRET || JWT_REFRESH_SECRET`;
      when both are unset Nest falls back to the module's secret. */
  function FinalSecret(cfg: Config): string {
    if cfg.envSecret != "" then cfg.envSecret
    else if cfg.envRefreshSecret != "" then cfg.envRefreshSecret
    else cfg.constSecret
  }

  /** The validator as the guard calls it: the secret it passes is ignored,
      so the second attempt is the very same call as the first. */
  function Attempts(token: string, cfg: Config, jwt: JwtLib, users: seq<User>, wl: seq<Entry>): (r: Result<Valid>)
    ensures r == ValidateTokens(token, cfg, jwt, users, wl) || ValidateTokens(token, cfg, jwt, users, wl).Err?
  {
    var first := ValidateTokens(token, cfg, jwt, users, wl);
    if first.Ok? then first else ValidateTokens(token, cfg, jwt, users, wl)
  }

  /** The retry never rescues a token the first attempt refused. */
  lemma RetryIsRedundant(token: string, cfg: Config, jwt: JwtLib, users: seq<User>, wl: seq<Entry>)
    ensures Attempts(token, cfg, jwt, users, wl) == ValidateTokens(token, cfg, jwt, users, wl)
  {
  }

  /** The guard's decision: the subject whose `id` and `roles` go on the
      request body, or the exception it throws. */
  function GuardSpec(authHeader: Option<string>, cfg: Config, jwt: JwtLib, users: seq<User>, wl: seq<Entry>)
    : (r: Result<Sub>)
    ensures !Truthy(authHeader) ==> r == Err(NO_HEADER)
    ensures Truthy(authHeader) && !Truthy(SecondField(authHeader.value)) ==> r == Err(BAD_FORMAT)
    ensures Truthy(authHeader) && Truthy(SecondField(authHeader.value))
            && ValidateTokens(SecondField(authHeader.value).value, cfg, jwt, users, wl).Err? ==>
            r == Err(INVALID_TOKEN)
    ensures r.Ok? ==> var token := SecondField(authHeader.value).value;
                      ValidateTokens(token, cfg, jwt, users, wl).Ok?
                      && jwt.verify(token, FinalSecret(cfg)).Ok?
                      && jwt.verify(token, FinalSecret(cfg)).value.sub == Some(r.value)
    ensures r.Err? ==> StatusOf(r.error) == Some(UNAUTHORIZED)
  {
    if !Truthy(authHeader) then Err(NO_HEADER)
    else
      var token := SecondField(authHeader.value);
      if !Truthy(token) then Err(BAD_FORMAT)
      else if Attempts(token.value, cfg, jwt, users, wl).Err? then Err(INVALID_TOKEN)
      else
        match jwt.verify(token.value, FinalSecret(cfg))
        case Err(e) => Err(HttpException(UNAUTHORIZED, Prefixed(VALIDATION_PREFIX, e)))
        case Ok(p) =>
          if p.sub.None? then Err(HttpException(UNAUTHORIZED, Prefixed(VALIDATION_PREFIX, TypeError("id"))))
          else Ok(p.sub.value)
  }

  /** A token this service issued is refused when no user is stored, when
      the first stored user is deleted or when the token is not live: the
      validator looks at the first stored user only. */
  lemma GuardRefusesMintedTokens(authHeader: Option<string>, cfg: Config, jwt: JwtLib,
                                 users: seq<User>, wl: seq<Entry>, sub: Sub)
    requires Truthy(authHeader) && Truthy(SecondField(authHeader.value))
    requires jwt.verify(SecondField(authHeader.value).value, cfg.constSecret) == Ok(Claim(sub))
    requires |users| == 0 || users[0].deletedAt.Some? || !IsLive(wl, SecondField(authHeader.value).value)
    ensures GuardSpec(authHeader, cfg, jwt, users, wl) == Err(INVALID_TOKEN)
  {
    MintedTokenOutcome(SecondField(authHeader.value).value, cfg, jwt, users, wl, sub);
  }

  /** Otherwise every live token this service issued passes, whoever its
      subject is, and its subject goes on the request. */
  lemma GuardAdmitsMintedTokens(authHeader: Option<string>, cfg: Config, jwt: JwtLib,
                                users: seq<User>, wl: seq<Entry>, sub: Sub)
    requires Truthy(authHeader) && Truthy(SecondField(authHeader.value))
    requires jwt.verify(SecondField(authHeader.value).value, cfg.constSecret) == Ok(Claim(sub))
    requires jwt.verify(SecondField(authHeader.value).value, FinalSecret(cfg)) == Ok(Claim(sub))
    requires |users| > 0 && users[0].deletedAt.None? && IsLive(wl, SecondField(authHeader.value).value)
    ensures GuardSpec(authHeader, cfg, jwt, users, wl) == Ok(sub)
  {
    MintedTokenOutcome(SecondField(authHeader.value).value, cfg, jwt, users, wl, sub);
  }

  /** The part of the request body the guard writes. */
  class RequestBody {
    var idUser: Option<Id>
    var rolesUser: Option<seq<string>>

    constructor(idUser: Option<Id>, rolesUser: Option<seq<string>>)
      ensures this.idUser == idUser && this.rolesUser == rolesUser
    {
      this.idUser := idUser;
      this.rolesUser := rolesUser;
    }
  }

  method CanActivate(authHeader: Option<string>, cfg: Config, jwt: JwtLib, users: seq<User>, wl: seq<Entry>,
                     body: RequestBody) returns (r: Result<bool>)
    modifies body
    ensures GuardSpec(authHeader, cfg, jwt, users, wl).Ok? ==>
      r == Ok(true) && body.idUser == GuardSpec(authHeader, cfg, jwt, users, wl).value.id
      && body.rolesUser == GuardSpec(authHeader, cfg, jwt, users, wl).value.roles
    ensures GuardSpec(authHeader, cfg, jwt, users, wl).Err? ==>
      r == Err(GuardSpec(authHeader, cfg, jwt, users, wl).error)
      && body.idUser == old(body.idUser) && body.rolesUser == old(body.rolesUser)
  {
    if !Truthy(authHeader) {
      return Err(NO_HEADER);
    }
    var token := SecondField(authHeader.value);
    if !Truthy(token) {
      return Err(BAD_FORMAT);
    }
    var payload := ValidateTokens(token.value, cfg, jwt, users, wl);
    if payload.Err? {
      payload := ValidateTokens(token.value, cfg, jwt, users, wl);
      if payload.Err? {
        return Err(INVALID_TOKEN);
      }
    }
    var isValid := jwt.verify(token.value, FinalSecret(cfg));
    if isValid.Err? {
      return Err(HttpException(UNAUTHORIZED, Prefixed(VALIDATION_PREFIX, isValid.error)));
    }
    if isValid.value.sub.None? {
      return Err(HttpException(UNAUTHORIZED, Prefixed(VALIDATION_PREFIX, TypeError("id"))));
    }
    var sub := isValid.value.sub.value;
    body.idUser := sub.id;
    body.rolesUser := sub.roles;
    r := Ok(true);
  }
}
