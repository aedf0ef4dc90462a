/** `OtpService`: issue a code to a known user at most three times in ten
    minutes and mail it; check a code through the validator. */
module OtpService {
  import opened Common
  import opened Store
  import opened UserEntity
  import opened OtpEntity
  import opened GenerateCodeService
  import opened GenerateOtpService
  import opened ValidateOtpService

  const RATE_LIMIT := 3
  const USER_NOT_FOUND := HttpException(NOT_FOUND, Text("User not found"))
  const TOO_MANY := HttpException(TOO_MANY_REQUESTS,
                                  Text("No more than 3 OTP codes can be generated in less than 10 minutes"))
  const CODE_VALID := "This code is valid!"

  /** The e-mail request `{ email, templateId: 1, context: { code } }`. */
  datatype EmailRequest = EmailRequest(email: string, templateId: int, code: int)

  /** `Error: ${err}` re-thrown by `createOtpCode`. */
  function CreateFailed(e: Exception): Exception {
    HttpException(NOT_ACCEPTABLE, Quoted(PREFIX, e))
  }

  /** The user's codes created in the last ten minutes, bounds included. */
  function WindowCount(otps: seq<Otp>, idUser: string, now: int): nat {
    |Filter(otps, InWindow(idUser, now))|
  }

  /** `createOtpCode`: find the user by `id`, apply the rate limit, save a
      code through the generator and ask for the e-mail. The mail service
      reports its own failures and never throws, so the request is the
      last step and cannot fail the call. */
  function CreateSpec(users: seq<User>, otps: seq<Otp>, idUser: string, draws: seq<real>, now: int)
    : (r: (Result<(Otp, EmailRequest)>, seq<Otp>))
    requires ValidDraws(draws)
    ensures FindFirst(users, HasId(Some(idUser))).None? ==> r == (Err(CreateFailed(USER_NOT_FOUND)), otps)
    ensures FindFirst(users, HasId(Some(idUser))).Some? && WindowCount(otps, idUser, now) >= RATE_LIMIT ==>
              r == (Err(CreateFailed(TOO_MANY)), otps)
    ensures r.0.Err? ==> StatusOf(r.0.error) == Some(NOT_ACCEPTABLE)
    ensures r.0.Ok? <==> FindFirst(users, HasId(Some(idUser))).Some? && WindowCount(otps, idUser, now) < RATE_LIMIT
    ensures r.0.Ok? ==> var u := users[FindFirst(users, HasId(Some(idUser))).value];
              r.1 == otps + [r.0.value.0] && r.0.value.0 == NewOtp(idUser, u.email, CodeOf(draws), now)
              && r.0.value.1 == EmailRequest(u.email, 1, r.0.value.0.code)
  {
    match FindFirst(users, HasId(Some(idUser)))
    case None => (Err(CreateFailed(USER_NOT_FOUND)), otps)
    case Some(i) =>
      if WindowCount(otps, idUser, now) >= RATE_LIMIT then (Err(CreateFailed(TOO_MANY)), otps)
      else
        var (o, after) := GenerateSpec(otps, users[i].id, users[i].email, draws, now);
        (Ok((o, EmailRequest(users[i].email, 1, o.code))), after)
  }

  /** Each code issued counts against the window it was issued in. */
  lemma CreateFillsWindow(users: seq<User>, otps: seq<Otp>, idUser: string, draws: seq<real>, now: int)
    requires ValidDraws(draws)
    requires FindFirst(users, HasId(Some(idUser))).Some? && WindowCount(otps, idUser, now) < RATE_LIMIT
    ensures WindowCount(CreateSpec(users, otps, idUser, draws, now).1, idUser, now)
            == WindowCount(otps, idUser, now) + 1
  {
    var u := users[FindFirst(users, HasId(Some(idUser))).value];
    var o := NewOtp(u.id, u.email, CodeOf(draws), now);
    FilterAppend(otps, [o], InWindow(idUser, now));
    assert InWindow(idUser, now)(o);
  }

  /** Three codes issued at one instant exhaust the allowance: a fourth
      request at that instant is refused with the wrapped 429. */
  lemma FourthRequestRefused(users: seq<User>, otps: seq<Otp>, idUser: string, d1: seq<real>, d2: seq<real>,
                             d3: seq<real>, d4: seq<real>, now: int)
    requires ValidDraws(d1) && ValidDraws(d2) && ValidDraws(d3) && ValidDraws(d4)
    requires FindFirst(users, HasId(Some(idUser))).Some? && WindowCount(otps, idUser, now) == 0
    ensures var s1 := CreateSpec(users, otps, idUser, d1, now).1;
            var s2 := CreateSpec(users, s1, idUser, d2, now).1;
            var s3 := CreateSpec(users, s2, idUser, d3, now).1;
            CreateSpec(users, s3, idUser, d4, now) == (Err(CreateFailed(TOO_MANY)), s3)
  {
    var s1 := CreateSpec(users, otps, idUser, d1, now).1;
    CreateFillsWindow(users, otps, idUser, d1, now);
    var s2 := CreateSpec(users, s1, idUser, d2, now).1;
    CreateFillsWindow(users, s1, idUser, d2, now);
    CreateFillsWindow(users, s2, idUser, d3, now);
  }

  /** A code just issued validates at once. */
  lemma IssuedCodeValidates(users: seq<User>, otps: seq<Otp>, idUser: string, draws: seq<real>, now: int)
    requires ValidDraws(draws)
    requires CreateSpec(users, otps, idUser, draws, now).0.Ok?
    ensures var after := CreateSpec(users, otps, idUser, draws, now).1;
            ValidateSpec(after, idUser, CodeOf(draws), now).0 == Ok(true)
  {
    var after := CreateSpec(users, otps, idUser, draws, now).1;
    var o := after[|otps|];
    assert InWindow(idUser, now)(o);
    FindLastIs(after, InWindow(idUser, now), |otps|);
  }

  /** `validateOtpCode`: the validator's 501 (or a `false`, which cannot
      happen) is wrapped once more as 501. */
  function ValidateCodeSpec(otps: seq<Otp>, idUser: string, code: int, now: int): (r: (Result<string>, seq<Otp>))
    ensures r.0.Ok? <==> ValidateSpec(otps, idUser, code, now).0 == Ok(true)
    ensures r.0.Ok? ==> r.0.value == CODE_VALID
    ensures r.1 == ValidateSpec(otps, idUser, code, now).1
    ensures r.0.Err? && ValidateSpec(otps, idUser, code, now).0.Err? ==>
              r.0.error == Wrapped(ValidateSpec(otps, idUser, code, now).0.error)
  {
    var (v, after) := ValidateSpec(otps, idUser, code, now);
    match v
    case Err(e) => (Err(Wrapped(e)), after)
    case Ok(b) =>
      if b then (Ok(CODE_VALID), after)
      else (Err(Wrapped(HttpException(UNAUTHORIZED, Text("An error occurred in the validation of the OTP code")))), after)
  }

  /** A wrong code comes back wrapped twice, as 501 around 501 around 403. */
  lemma WrongCodeWrappedTwice(otps: seq<Otp>, idUser: string, code: int, now: int)
    requires FindLast(otps, InWindow(idUser, now)).Some?
    requires var o := otps[FindLast(otps, InWindow(idUser, now)).value];
             o.status.NotUsed? && o.expiredIn >= now && o.code != code
    ensures ValidateCodeSpec(otps, idUser, code, now) == (Err(Wrapped(Wrapped(NOT_VALID))), otps)
  {
  }

  method CreateOtpCode(table: OtpCollection, users: seq<User>, idUser: string, draws: seq<real>, now: int) returns (r: Result<(Otp, EmailRequest)>)
    requires ValidDraws(draws)
    modifies table
    ensures (r, table.otps) == CreateSpec(users, old(table.otps), idUser, draws, now)
  {
    var found := FindFirst(users, HasId(Some(idUser)));
    if found.None? {
      return Err(CreateFailed(USER_NOT_FOUND));
    }
    if WindowCount(table.otps, idUser, now) >= RATE_LIMIT {
      return Err(CreateFailed(TOO_MANY));
    }
    var u := users[found.value];
    var o := GenerateOtpCode(table, u.id, u.email, draws, now);
    r := Ok((o, EmailRequest(u.email, 1, o.code)));
  }

  method ValidateOtpCode(table: OtpCollection, idUser: string, code: int, now: int) returns (r: Result<string>)
    modifies table
    ensures (r, table.otps) == ValidateCodeSpec(old(table.otps), idUser, code, now)
  {
    var v := ValidateOtp(table, idUser, code, now);
    if v.Err? {
      return Err(Wrapped(v.error));
    }
    if !v.value {
      return Err(Wrapped(HttpException(UNAUTHORIZED, Text("An error occurred in the validation of the OTP code"))));
    }
    r := Ok(CODE_VALID);
  }
}
