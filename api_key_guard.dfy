/** The `x-api-key` guard: a request passes only when the key service
    validates its key. */
module ApiKeyGuard {
  import opened Common
  import opened Store
  import opened ApiKeyService

  const KEY_MISSING := HttpException(UNAUTHORIZED, Text("API key is missing"))
  const KEY_INVALID := HttpException(UNAUTHORIZED, Text("Invalid API key"))
  const GUARD_FAILED := HttpException(NOT_IMPLEMENTED, Text("Error validating API key"))

  /** The `try` around the validator: `true` lets the request through;
      `false` throws 'Invalid API key' inside the `try`, so the `catch`
      replaces it, like every validator error, by 501. */
  function MapOutcome(validated: Result<bool>): (r: Result<bool>)
    ensures r.Ok? <==> validated == Ok(true)
    ensures r.Ok? ==> r.value
    ensures r.Err? ==> r.error == GUARD_FAILED
  {
    var inner := if validated == Ok(false) then Err(KEY_INVALID) else validated;
    match inner
    case Ok(b) => Ok(b)
    case Err(_) => Err(GUARD_FAILED)
  }

  /** `canActivate` together with the validation it triggers: a missing or
      empty header is refused before the key service is called. */
  function CanActivate(apiKey: Option<string>, keys: seq<ApiKey>, bc: Bcrypt, now: int)
    : (r: (Result<bool>, seq<ApiKey>))
    ensures !Truthy(apiKey) ==> r == (Err(KEY_MISSING), keys)
    ensures Truthy(apiKey) ==> r.0 == MapOutcome(ValidateSpec(keys, apiKey.value, bc, now).0)
                               && r.1 == ValidateSpec(keys, apiKey.value, bc, now).1
  {
    if !Truthy(apiKey) then (Err(KEY_MISSING), keys)
    else
      var (v, after) := ValidateSpec(keys, apiKey.value, bc, now);
      (MapOutcome(v), after)
  }

  /** The guard answers only 401 (no key) or 501 (any other refusal): the
      401 'Invalid API key' never reaches the client. */
  lemma GuardStatuses(apiKey: Option<string>, keys: seq<ApiKey>, bc: Bcrypt, now: int)
    ensures var r := CanActivate(apiKey, keys, bc, now).0;
            (r.Err? ==> r.error == KEY_MISSING || r.error == GUARD_FAILED)
            && (r == Err(KEY_MISSING) <==> !Truthy(apiKey))
            && r != Err(KEY_INVALID)
  {
  }

  /** A key that matches no active record is refused with 501 and leaves
      the store unchanged. */
  lemma UnknownKeyRefused(apiKey: string, keys: seq<ApiKey>, bc: Bcrypt, now: int)
    requires apiKey != ""
    requires FindFirst(keys, ActiveMatch(apiKey, bc)).None?
    ensures CanActivate(Some(apiKey), keys, bc, now) == (Err(GUARD_FAILED), keys)
  {
  }
}
