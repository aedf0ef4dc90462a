/** `GenerateOtpCodeService`: draw a code and save one new OTP record. */
module GenerateOtpService {
  import opened OtpEntity
  import opened GenerateCodeService

  /** `generateOtpCode`: the record saved, at the end of the collection. */
  function GenerateSpec(otps: seq<Otp>, idUser: string, emailUser: string, draws: seq<real>, now: int)
    : (r: (Otp, seq<Otp>))
    requires ValidDraws(draws)
    ensures r.1 == otps + [r.0]
    ensures r.0 == NewOtp(idUser, emailUser, CodeOf(draws), now)
  {
    var o := NewOtp(idUser, emailUser, CodeOf(draws), now);
    (o, otps + [o])
  }

  method GenerateOtpCode(table: OtpCollection, idUser: string, emailUser: string, draws: seq<real>, now: int)
    returns (o: Otp)
    requires ValidDraws(draws)
    modifies table
    ensures (o, table.otps) == GenerateSpec(old(table.otps), idUser, emailUser, draws, now)
  {
    var code := GenerateCode(draws);
    o := NewOtp(idUser, emailUser, code, now);
    table.otps := table.otps + [o];
  }
}
