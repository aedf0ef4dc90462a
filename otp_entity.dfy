/** The `Otp` document and its schema defaults, and the collection that
    holds them. */
module OtpEntity {
  /** `OtpStatusType` */
  datatype OtpStatus = NotUsed | Used

  /** Ten minutes in milliseconds: an OTP's lifetime and the rate-limit
      window. */
  const OTP_LIFETIME := 10 * 60 * 1000

  /** An `Otp` document; times are milliseconds since the epoch. */
  datatype Otp = Otp(idUser: string, emailUser: string, code: int, status: OtpStatus,
                     createdAt: int, expiredIn: int)

  /** The `expiredIn` default: `createdAt` plus ten minutes. */
  function ExpiryDefault(createdAt: int): int {
    createdAt + OTP_LIFETIME
  }

  /** `new otpModel({ id_user, email_user, code, status: NOT_USED, createdAt })`
      with the schema filling in `expiredIn`. */
  function NewOtp(idUser: string, emailUser: string, code: int, createdAt: int): (o: Otp)
    ensures o.idUser == idUser && o.emailUser == emailUser && o.code == code
    ensures o.status == NotUsed && o.createdAt == createdAt
    ensures o.expiredIn == ExpiryDefault(createdAt)
  {
    Otp(idUser, emailUser, code, NotUsed, createdAt, ExpiryDefault(createdAt))
  }

  /** A new code expires strictly after it is created, exactly ten minutes
      later, and is unexpired at every instant of its window. */
  lemma FreshCodeLifetime(idUser: string, emailUser: string, code: int, createdAt: int, t: int)
    requires createdAt <= t <= createdAt + OTP_LIFETIME
    ensures var o := NewOtp(idUser, emailUser, code, createdAt);
            o.expiredIn > o.createdAt && o.expiredIn - o.createdAt == 600000 && !(o.expiredIn < t)
  {
  }

  /** The `Otp` collection. */
  class OtpCollection {
    var otps: seq<Otp>

    constructor(initial: seq<Otp>)
      ensures otps == initial
    {
      otps := initial;
    }
  }
}
