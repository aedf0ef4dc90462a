/** `GetTokensService.getTokens`: choose the secret and the expiry, sign
    the payload once. */
module GetTokensService {
  import opened Common
  import opened Jwt

  /** `jwtConstants.secret || process.env.JWT_SECRET` */
  function SigningSecret(cfg: Config): string {
    if cfg.constSecret != "" then cfg.constSecret else cfg.envSecret
  }

  /** `jwtConstants.expires || '15m'` */
  function AccessExpiry(cfg: Config): string {
    if cfg.constExpires != "" then cfg.constExpires else "15m"
  }

  const SecretMissing := HttpException(NOT_IMPLEMENTED, Text("JWT_SECRET is not set"))

  function GetTokens(payload: Payload, cfg: Config, jwt: JwtLib): (r: Result<Tokens>)
    ensures r.Ok? <==> cfg.constSecret != "" || cfg.envSecret != ""
    ensures r.Err? ==> r.error == SecretMissing
    ensures r.Ok? ==> r.value.refreshToken.None?
    ensures r.Ok? && cfg.constSecret != "" ==>
      r.value.accessToken == jwt.sign(payload, cfg.constSecret, AccessExpiry(cfg))
    ensures r.Ok? && cfg.constSecret == "" ==>
      r.value.accessToken == jwt.sign(payload, cfg.envSecret, AccessExpiry(cfg))
    ensures cfg.constExpires == "" ==> AccessExpiry(cfg) == "15m"
  {
    var secretKey := SigningSecret(cfg);
    if secretKey == "" then Err(SecretMissing)
    else Ok(Tokens(jwt.sign(payload, secretKey, AccessExpiry(cfg)), None))
  }

  /** With a sound library, the issued access token verifies with the
      signing secret back to the payload it carries. */
  lemma IssuedTokenVerifies(payload: Payload, cfg: Config, jwt: JwtLib)
    requires Sound(jwt)
    requires GetTokens(payload, cfg, jwt).Ok?
    ensures jwt.verify(GetTokens(payload, cfg, jwt).value.accessToken, SigningSecret(cfg)) == Ok(payload)
  {
    var t := GetTokens(payload, cfg, jwt).value.accessToken;
    assert t == jwt.sign(payload, SigningSecret(cfg), AccessExpiry(cfg));
  }
}
