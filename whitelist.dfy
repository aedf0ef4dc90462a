/** `WhiteListService`: the ledger of issued access tokens. Logging in
    appends an entry, logging out flips the first entry for the token to
    inactive, and a token is live while its first entry is active. */
module WhiteListService {
  import opened Common
  import opened Store
  import opened Jwt

  /** A `Whitelist` document. */
  datatype Entry = Entry(token: string, status: bool, createdAt: int)

  /** The logout reply `{ message, actions }`. */
  datatype LogoutReply = LogoutReply(message: string, actions: string)

  const LOGOUT_DONE := LogoutReply("logout completed", "Token status changed successfully")

  /** The filter `{ token }`. */
  function HasToken(token: string): Entry -> bool {
    (e: Entry) => e.token == token
  }

  /** `findOne({ token })` */
  function FirstEntry(entries: seq<Entry>, token: string): (r: Option<nat>)
    ensures r.Some? ==> r.value < |entries| && entries[r.value].token == token
    ensures r.Some? ==> forall j :: 0 <= j < r.value ==> entries[j].token != token
    ensures r.None? <==> forall j :: 0 <= j < |entries| ==> entries[j].token != token
  {
    FindFirst(entries, HasToken(token))
  }

  /** `whiteListValidateToken`: the first entry for the token exists and is
      active. An unknown token is simply not live. */
  function IsLive(entries: seq<Entry>, token: string): (b: bool)
    ensures b <==> exists i :: 0 <= i < |entries| && entries[i].token == token && entries[i].status
                              && forall j :: 0 <= j < i ==> entries[j].token != token
  {
    match FirstEntry(entries, token)
    case None => false
    case Some(i) => entries[i].status
  }

  /** `whitelistJwt`: the access token is saved with status true; the
      refresh token is not recorded and an existing entry is not looked
      for. Mongoose's `required` refuses an empty token, re-thrown as 501. */
  function AppendSpec(entries: seq<Entry>, tokens: Tokens, now: int): (r: (Result<()>, seq<Entry>))
    ensures tokens.accessToken != "" ==>
      r.0.Ok? && r.1 == entries + [Entry(tokens.accessToken, true, now)]
    ensures tokens.accessToken == "" ==>
      r.0 == Err(HttpException(NOT_IMPLEMENTED, Quoted("Failed to whitelist token... ", ValidationError("token"))))
      && r.1 == entries
  {
    if tokens.accessToken == "" then
      (Err(HttpException(NOT_IMPLEMENTED, Quoted("Failed to whitelist token... ", ValidationError("token")))), entries)
    else (Ok(()), entries + [Entry(tokens.accessToken, true, now)])
  }

  /** `whiteListChangeStatus`: a missing entry is dereferenced
      (`tokenExist.status` on null), an inactive one is refused; both are
      re-thrown as 501. Otherwise `updateOne` sets status false on the
      first entry with the token. */
  function RevokeSpec(entries: seq<Entry>, token: string): (r: (Result<LogoutReply>, seq<Entry>))
    ensures r.0.Ok? <==> IsLive(entries, token)
    ensures r.0.Ok? ==> r.0.value == LOGOUT_DONE
    ensures r.0.Err? ==> r.1 == entries && StatusOf(r.0.error) == Some(NOT_IMPLEMENTED)
    ensures |r.1| == |entries|
  {
    match FirstEntry(entries, token)
    case None =>
      (Err(HttpException(NOT_IMPLEMENTED, Quoted("Ups... error: ", TypeError("status")))), entries)
    case Some(i) =>
      if !entries[i].status then
        (Err(HttpException(NOT_IMPLEMENTED,
           Quoted("Ups... error: ", NotFoundException(Text("This token is invalid"))))), entries)
      else (Ok(LOGOUT_DONE), entries[i := entries[i].(status := false)])
  }

  class WhitelistStore {
    var entries: seq<Entry>

    constructor()
      ensures entries == []
    {
      entries := [];
    }

    method WhitelistJwt(tokens: Tokens, now: int) returns (r: Result<()>)
      modifies this
      ensures (r, entries) == AppendSpec(old(entries), tokens, now)
    {
      if tokens.accessToken == "" {
        r := Err(HttpException(NOT_IMPLEMENTED, Quoted("Failed to whitelist token... ", ValidationError("token"))));
        return;
      }
      entries := entries + [Entry(tokens.accessToken, true, now)];
      r := Ok(());
    }

    method WhiteListChangeStatus(token: string) returns (r: Result<LogoutReply>)
      modifies this
      ensures (r, entries) == RevokeSpec(old(entries), token)
    {
      var found := FirstEntry(entries, token);
      if found.None? {
        r := Err(HttpException(NOT_IMPLEMENTED, Quoted("Ups... error: ", TypeError("status"))));
        return;
      }
      var i := found.value;
      if !entries[i].status {
        r := Err(HttpException(NOT_IMPLEMENTED,
               Quoted("Ups... error: ", NotFoundException(Text("This token is invalid")))));
        return;
      }
      entries := entries[i := entries[i].(status := false)];
      r := Ok(LOGOUT_DONE);
    }

    method WhiteListValidateToken(token: string) returns (live: bool)
      ensures live == IsLive(entries, token)
    {
      var found := FirstEntry(entries, token);
      live := found.Some? && entries[found.value].status;
    }
  }

  /** Revoking a live token succeeds, and afterwards it is no longer live. */
  lemma RevokeThenNotLive(entries: seq<Entry>, token: string)
    requires IsLive(entries, token)
    ensures RevokeSpec(entries, token).0 == Ok(LOGOUT_DONE)
    ensures !IsLive(RevokeSpec(entries, token).1, token)
  {
    var i := FirstEntry(entries, token).value;
    var after := RevokeSpec(entries, token).1;
    assert after == entries[i := entries[i].(status := false)];
    FindFirstIs(after, HasToken(token), i);
  }

  /** A second logout with the same token fails and changes nothing. */
  lemma RevokeTwiceFails(entries: seq<Entry>, token: string)
    requires IsLive(entries, token)
    ensures var after := RevokeSpec(entries, token).1;
            RevokeSpec(after, token).0.Err? && RevokeSpec(after, token).1 == after
  {
    RevokeThenNotLive(entries, token);
  }

  /** Logging out with a token that was never issued fails through the
      null dereference, re-thrown as 501. */
  lemma RevokeUnknown(entries: seq<Entry>, token: string)
    requires forall j :: 0 <= j < |entries| ==> entries[j].token != token
    ensures RevokeSpec(entries, token) ==
      (Err(HttpException(NOT_IMPLEMENTED, Quoted("Ups... error: ", TypeError("status")))), entries)
  {
  }

  /** Revoking flips only the status of the first entry for the token. */
  lemma RevokeTouchesFirstOnly(entries: seq<Entry>, token: string)
    requires IsLive(entries, token)
    ensures var i := FirstEntry(entries, token).value;
            var after := RevokeSpec(entries, token).1;
            after[i] == entries[i].(status := false)
            && forall j :: 0 <= j < |entries| && j != i ==> after[j] == entries[j]
  {
  }

  /** Appending the same token twice records two entries. */
  lemma DuplicateAppend(entries: seq<Entry>, tokens: Tokens, now: int, later: int)
    requires tokens.accessToken != ""
    ensures var once := AppendSpec(entries, tokens, now).1;
            var twice := AppendSpec(once, tokens, later).1;
            |twice| == |entries| + 2
            && twice[|entries|].token == twice[|entries| + 1].token == tokens.accessToken
  {
  }

  /** Re-registering a revoked token does not make it live again: the new
      entry comes after the revoked one, which stays first. */
  lemma ReRegisterStaysRevoked(entries: seq<Entry>, tokens: Tokens, now: int)
    requires IsLive(entries, tokens.accessToken)
    ensures var revoked := RevokeSpec(entries, tokens.accessToken).1;
            !IsLive(AppendSpec(revoked, tokens, now).1, tokens.accessToken)
  {
    var token := tokens.accessToken;
    var revoked := RevokeSpec(entries, token).1;
    RevokeThenNotLive(entries, token);
    var i := FirstEntry(entries, token).value;
    assert revoked[i].token == token;
    if token != "" {
      FindFirstAppend(revoked, [Entry(token, true, now)], HasToken(token));
    }
  }
}
