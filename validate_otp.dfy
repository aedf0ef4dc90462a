/** `ValidateOtpService`: check the user's most recent code of the last ten
    minutes and spend it. */
module ValidateOtpService {
  import opened Common
  import opened Store
  import opened OtpEntity

  const PREFIX := "Error: "
  const NO_CODES := HttpException(NOT_FOUND, Text("This user does not have OTP codes generated"))
  const ALREADY_USED := HttpException(FORBIDDEN, Text("This code has already been used"))
  const EXPIRED := HttpException(FORBIDDEN, Text("This code has already expired"))
  const NOT_VALID := HttpException(FORBIDDEN, Text("This code is not valid"))

  /** `Error: ${err}`, 501 */
  function Wrapped(e: Exception): Exception {
    HttpException(NOT_IMPLEMENTED, Quoted(PREFIX, e))
  }

  /** The filter `{ id_user, createdAt: { $gte: now - 10 min, $lte: now } }`. */
  function InWindow(idUser: string, now: int): Otp -> bool {
    (o: Otp) => o.idUser == idUser && now - OTP_LIFETIME <= o.createdAt <= now
  }

  /** The checks on the last code, in the order the source makes them. */
  function Refusal(o: Otp, code: int, now: int): (r: Option<Exception>)
    ensures r.None? <==> o.status.NotUsed? && o.expiredIn >= now && o.code == code
    ensures o.status.Used? ==> r == Some(ALREADY_USED)
    ensures o.status.NotUsed? && o.expiredIn < now ==> r == Some(EXPIRED)
    ensures o.status.NotUsed? && o.expiredIn >= now && o.code != code ==> r == Some(NOT_VALID)
  {
    if o.status.Used? then Some(ALREADY_USED)
    else if o.expiredIn < now then Some(EXPIRED)
    else if o.code != code then Some(NOT_VALID)
    else None
  }

  /** `validateOtp`: only the last record in the window is examined; on
      success it is marked used. Every refusal is re-thrown as 501. */
  function ValidateSpec(otps: seq<Otp>, idUser: string, code: int, now: int): (r: (Result<bool>, seq<Otp>))
    ensures FindLast(otps, InWindow(idUser, now)).None? ==> r == (Err(Wrapped(NO_CODES)), otps)
    ensures r.0.Ok? <==> (FindLast(otps, InWindow(idUser, now)).Some?
                          && Refusal(otps[FindLast(otps, InWindow(idUser, now)).value], code, now).None?)
    ensures r.0.Ok? ==> var i := FindLast(otps, InWindow(idUser, now)).value;
                        r.0.value && r.1 == otps[i := otps[i].(status := Used)]
    ensures r.0.Err? ==> r.1 == otps && StatusOf(r.0.error) == Some(NOT_IMPLEMENTED)
  {
    match FindLast(otps, InWindow(idUser, now))
    case None => (Err(Wrapped(NO_CODES)), otps)
    case Some(i) =>
      match Refusal(otps[i], code, now)
      case Some(e) => (Err(Wrapped(e)), otps)
      case None => (Ok(true), otps[i := otps[i].(status := Used)])
  }

  /** A code is spent by its first successful validation: the next one, at
      the same instant, is refused as already used. */
  lemma SecondValidationFails(otps: seq<Otp>, idUser: string, code: int, now: int)
    requires ValidateSpec(otps, idUser, code, now).0.Ok?
    ensures var after := ValidateSpec(otps, idUser, code, now).1;
            ValidateSpec(after, idUser, code, now) == (Err(Wrapped(ALREADY_USED)), after)
  {
    var i := FindLast(otps, InWindow(idUser, now)).value;
    var after := otps[i := otps[i].(status := Used)];
    assert InWindow(idUser, now)(after[i]);
    assert forall j :: i < j < |after| ==> after[j] == otps[j];
    assert FindLast(after, InWindow(idUser, now)) == Some(i) by {
      FindLastIs(after, InWindow(idUser, now), i);
    }
  }

  /** Validation changes the status of one record only. */
  lemma ValidateTouchesOneRecord(otps: seq<Otp>, idUser: string, code: int, now: int, j: nat)
    requires j < |otps| && ValidateSpec(otps, idUser, code, now).0.Ok?
    requires j != FindLast(otps, InWindow(idUser, now)).value
    ensures ValidateSpec(otps, idUser, code, now).1[j] == otps[j]
  {
  }

  /** A code whose expiry is exactly now is still accepted. */
  lemma ExpiryIsInclusive(o: Otp, now: int)
    requires o.status.NotUsed? && o.expiredIn == now
    ensures Refusal(o, o.code, now).None?
  {
  }

  /** An index that matches, with no match after it, is the last match. */
  lemma FindLastIs<T>(s: seq<T>, p: T -> bool, i: nat)
    requires i < |s| && p(s[i])
    requires forall j :: i < j < |s| ==> !p(s[j])
    ensures FindLast(s, p) == Some(i)
  {
    assert FindLast(s, p).Some?;
  }

  method ValidateOtp(table: OtpCollection, idUser: string, code: int, now: int) returns (r: Result<bool>)
    modifies table
    ensures (r, table.otps) == ValidateSpec(old(table.otps), idUser, code, now)
  {
    var last := FindLast(table.otps, InWindow(idUser, now));
    if last.None? {
      return Err(Wrapped(NO_CODES));
    }
    var i := last.value;
    var refused := Refusal(table.otps[i], code, now);
    if refused.Some? {
      return Err(Wrapped(refused.value));
    }
    table.otps := table.otps[i := table.otps[i].(status := Used)];
    r := Ok(true);
  }
}
