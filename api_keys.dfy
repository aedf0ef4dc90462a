/** `ApiKeyService`: issuing API keys, validating a presented key against
    the stored hashes with a usage cap, revoking and listing keys. */
module ApiKeyService {
  import opened Common
  import opened Store

  /** An `ApiKey` document: `key` is the bcrypt hash of the plaintext.
      A new record has `isActive` true and `usageCount` 0; `maxUsage` is
      null or missing (`None`) for a key without a cap. */
  datatype ApiKey = ApiKey(oid: string, key: string, systemName: Option<string>,
                           roles: Option<seq<string>>, maxUsage: Option<int>,
                           usageCount: int, isActive: bool, lastUsedAt: Option<int>)

  function KeyOid(k: ApiKey): string { k.oid }

  /** `CreateApiKeyDto`, spread into the new record. */
  datatype CreateApiKeyRequest = CreateApiKeyRequest(systemName: Option<string>, roles: Option<seq<string>>,
                                                     maxUsage: Option<int>)

  /** The reply `{ key, isActive }`: the plaintext, shown once. */
  datatype Issued = Issued(key: string, isActive: bool)

  /** bcrypt seen from outside: `hash` (salted) and `compare`. */
  datatype Bcrypt = Bcrypt(hash: string -> string, compare: (string, string) -> bool)

  /** What lemmas may assume of bcrypt: a key compares equal to its hash. */
  ghost predicate Sound(bc: Bcrypt) {
    forall key :: bc.compare(key, bc.hash(key))
  }

  // ------------------------------------------------------------ generation

  const KEY_LENGTH := 30

  /** The characters `toString(36)` writes for one digit: `0-9a-z`. */
  predicate IsBase36Char(c: char) {
    ('0' <= c <= '9') || ('a' <= c <= 'z')
  }

  /** `n.toString(36)` for a digit value `n` below 36. */
  function Base36Digit(n: int): (c: char)
    requires 0 <= n < 36
    ensures IsBase36Char(c)
  {
    if n < 10 then ('0' as int + n) as char else ('a' as int + (n - 10)) as char
  }

  /** `((Math.random() * 36) | 0).toString(36)` for one draw. */
  function KeyChar(draw: real): (c: char)
    requires 0.0 <= draw < 1.0
    ensures IsBase36Char(c)
  {
    Base36Digit(FloorScaled(draw, 36))
  }

  /** `generateApiKey`: one base-36 digit per draw of `Math.random()`. */
  function GenerateApiKey(draws: seq<real>): (key: string)
    requires |draws| == KEY_LENGTH
    requires forall i :: 0 <= i < |draws| ==> 0.0 <= draws[i] < 1.0
    ensures |key| == KEY_LENGTH
    ensures forall i :: 0 <= i < |key| ==> IsBase36Char(key[i]) && key[i] == KeyChar(draws[i])
  {
    Spell(draws)
  }

  function Spell(draws: seq<real>): (s: string)
    requires forall i :: 0 <= i < |draws| ==> 0.0 <= draws[i] < 1.0
    ensures |s| == |draws| && forall i :: 0 <= i < |s| ==> s[i] == KeyChar(draws[i])
  {
    if |draws| == 0 then [] else [KeyChar(draws[0])] + Spell(draws[1..])
  }

  // -------------------------------------------------------------- create

  const CREATE_FAILED := HttpException(FORBIDDEN, Text("Error creating API key"))

  /** `createApiKey`: the record gets the hash, never the plaintext; an
      empty hash fails (501 inside the `try`, re-thrown as 403). */
  function CreateSpec(keys: seq<ApiKey>, req: CreateApiKeyRequest, draws: seq<real>, bc: Bcrypt, oid: string)
    : (r: (Result<Issued>, seq<ApiKey>))
    requires |draws| == KEY_LENGTH && forall i :: 0 <= i < |draws| ==> 0.0 <= draws[i] < 1.0
    ensures r.0.Err? <==> bc.hash(GenerateApiKey(draws)) == ""
    ensures r.0.Err? ==> r.0.error == CREATE_FAILED && r.1 == keys
    ensures r.0.Ok? ==> r.0.value == Issued(GenerateApiKey(draws), true)
    ensures r.0.Ok? ==> r.1 == keys + [ApiKey(oid, bc.hash(r.0.value.key), req.systemName, req.roles,
                                              req.maxUsage, 0, true, None)]
  {
    var key := GenerateApiKey(draws);
    var hashed := bc.hash(key);
    if hashed == "" then (Err(CREATE_FAILED), keys)
    else (Ok(Issued(key, true)), keys + [ApiKey(oid, hashed, req.systemName, req.roles, req.maxUsage, 0, true, None)])
  }

  // ------------------------------------------------------------ validate

  const VALIDATE_FAILED := HttpException(NOT_IMPLEMENTED, Text("Error validating API key"))

  function IsActive(k: ApiKey): bool { k.isActive }

  /** The first record the scan acts on: active, and its hash matches. */
  function ActiveMatch(key: string, bc: Bcrypt): ApiKey -> bool {
    (k: ApiKey) => k.isActive && bc.compare(key, k.key)
  }

  /** `maxUsage !== null && usageCount >= maxUsage` */
  predicate Capped(k: ApiKey) {
    k.maxUsage.Some? && k.usageCount >= k.maxUsage.value
  }

  /** `updateLastUsed`: `findOneAndUpdate({ _id })` on the first record
      with that id; an id that is not an ObjectId fails with 406. */
  function UpdateLastUsed(keys: seq<ApiKey>, id: string, now: int): (r: (Result<()>, seq<ApiKey>))
    ensures r.0.Err? <==> !IsMongoId(id)
    ensures r.0.Err? ==> r.0.error == HttpException(NOT_ACCEPTABLE, Text("Error updating lastUsedAt")) && r.1 == keys
    ensures |r.1| == |keys|
    ensures forall j :: 0 <= j < |keys| ==> r.1[j] == keys[j] || (keys[j].oid == id && r.1[j] == keys[j].(lastUsedAt := Some(now)))
    ensures r.0.Ok? && FindFirst(keys, OidIs(KeyOid, id)).Some? ==>
              r.1[FindFirst(keys, OidIs(KeyOid, id)).value].lastUsedAt == Some(now)
  {
    match FindById(keys, KeyOid, id)
    case Err(_) => (Err(HttpException(NOT_ACCEPTABLE, Text("Error updating lastUsedAt"))), keys)
    case Ok(None) => (Ok(()), keys)
    case Ok(Some(i)) => (Ok(()), keys[i := keys[i].(lastUsedAt := Some(now))])
  }

  /** What happens to the first active match at index `i`: at its cap it
      is deactivated and validation fails; otherwise its count goes up by
      one and `updateLastUsed` stamps the record with its id. */
  function Consume(keys: seq<ApiKey>, i: nat, now: int): (r: (Result<bool>, seq<ApiKey>))
    requires i < |keys|
    ensures |r.1| == |keys|
    ensures Capped(keys[i]) ==> r == (Err(VALIDATE_FAILED), keys[i := keys[i].(isActive := false)])
    ensures !Capped(keys[i]) ==> (r.0 == Ok(true) <==> IsMongoId(keys[i].oid))
    ensures !Capped(keys[i]) && r.0 != Ok(true) ==> r.0 == Err(VALIDATE_FAILED)
    ensures !Capped(keys[i]) ==>
              r.1[i] == keys[i].(usageCount := keys[i].usageCount + 1)
              || r.1[i] == keys[i].(usageCount := keys[i].usageCount + 1, lastUsedAt := Some(now))
    ensures forall j :: 0 <= j < |keys| && j != i ==>
              r.1[j] == keys[j] || (keys[j].oid == keys[i].oid && r.1[j] == keys[j].(lastUsedAt := Some(now)))
  {
    if Capped(keys[i]) then (Err(VALIDATE_FAILED), keys[i := keys[i].(isActive := false)])
    else
      var bumped := keys[i := keys[i].(usageCount := keys[i].usageCount + 1)];
      var u := UpdateLastUsed(bumped, keys[i].oid, now);
      (if u.0.Err? then Err(VALIDATE_FAILED) else Ok(true), u.1)
  }

  /** With unique ids, a use is counted and stamped on exactly that record. */
  lemma ConsumeOneRecord(keys: seq<ApiKey>, i: nat, now: int)
    requires i < |keys| && UniqueOids(keys) && !Capped(keys[i]) && IsMongoId(keys[i].oid)
    ensures var after := Consume(keys, i, now).1;
            after[i] == keys[i].(usageCount := keys[i].usageCount + 1, lastUsedAt := Some(now))
            && forall j :: 0 <= j < |keys| && j != i ==> after[j] == keys[j]
  {
    var bumped := keys[i := keys[i].(usageCount := keys[i].usageCount + 1)];
    var p := OidIs(KeyOid, keys[i].oid);
    assert bumped[i].oid == keys[i].oid;
    assert KeyOid(bumped[i]) == keys[i].oid;
    assert p(bumped[i]);
    assert forall j :: 0 <= j < i ==> !p(bumped[j]) by {
      forall j | 0 <= j < i ensures !p(bumped[j]) {
        assert bumped[j] == keys[j];
      }
    }
    FindFirstIs(bumped, p, i);
  }

  /** `validateApiKey`: no active record at all is an error; the first
      active record whose hash matches decides (`Consume`); no match is
      `false` with nothing changed. Every failure is re-thrown as 501. */
  function ValidateSpec(keys: seq<ApiKey>, key: string, bc: Bcrypt, now: int): (r: (Result<bool>, seq<ApiKey>))
    ensures FindFirst(keys, IsActive).None? ==> r == (Err(VALIDATE_FAILED), keys)
    ensures r.0.Err? ==> r.0.error == VALIDATE_FAILED
    ensures r.0 == Ok(false) <==> FindFirst(keys, IsActive).Some? && FindFirst(keys, ActiveMatch(key, bc)).None?
    ensures r.0 == Ok(false) ==> r.1 == keys
    ensures r.0 == Ok(true) ==> FindFirst(keys, ActiveMatch(key, bc)).Some?
    ensures FindFirst(keys, IsActive).Some? && FindFirst(keys, ActiveMatch(key, bc)).Some? ==>
              r == Consume(keys, FindFirst(keys, ActiveMatch(key, bc)).value, now)
  {
    if FindFirst(keys, IsActive).None? then (Err(VALIDATE_FAILED), keys)
    else
      match FindFirst(keys, ActiveMatch(key, bc))
      case None => (Ok(false), keys)
      case Some(i) => Consume(keys, i, now)
  }

  /** Every active capped record is within its cap. */
  ghost predicate WithinCaps(keys: seq<ApiKey>) {
    forall j :: 0 <= j < |keys| && keys[j].isActive && keys[j].maxUsage.Some? ==>
      keys[j].usageCount <= keys[j].maxUsage.value
  }

  /** Documents' ids are unique, as Mongo's `_id` index guarantees. */
  ghost predicate UniqueOids(keys: seq<ApiKey>) {
    forall i, j :: 0 <= i < j < |keys| ==> keys[i].oid != keys[j].oid
  }

  /** Validation never pushes an active record past its cap. */
  lemma ValidateKeepsCaps(keys: seq<ApiKey>, key: string, bc: Bcrypt, now: int)
    requires WithinCaps(keys)
    ensures WithinCaps(ValidateSpec(keys, key, bc, now).1)
  {
    var m := FindFirst(keys, ActiveMatch(key, bc));
    if FindFirst(keys, IsActive).Some? && m.Some? && !Capped(keys[m.value]) {
      var i := m.value;
      var after := Consume(keys, i, now).1;
      assert after[i].isActive ==> after[i].usageCount <= keys[i].maxUsage.GetOr(after[i].usageCount);
    }
  }

  /** Validation never reactivates a record. */
  lemma ValidateNeverActivates(keys: seq<ApiKey>, key: string, bc: Bcrypt, now: int, j: nat)
    requires j < |keys| && !keys[j].isActive
    ensures !ValidateSpec(keys, key, bc, now).1[j].isActive
  {
  }

  /** When the first active match is under its cap, validation succeeds,
      counts one use of exactly that record and stamps it; every other
      record is left as it was. */
  lemma ValidateCountsOneUse(keys: seq<ApiKey>, key: string, bc: Bcrypt, now: int, i: nat)
    requires UniqueOids(keys)
    requires FindFirst(keys, ActiveMatch(key, bc)) == Some(i)
    requires !Capped(keys[i]) && IsMongoId(keys[i].oid)
    ensures var r := ValidateSpec(keys, key, bc, now);
            r.0 == Ok(true)
            && r.1[i] == keys[i].(usageCount := keys[i].usageCount + 1, lastUsedAt := Some(now))
            && forall j :: 0 <= j < |keys| && j != i ==> r.1[j] == keys[j]
  {
    assert IsActive(keys[i]);
    assert FindFirst(keys, IsActive).Some?;
    assert ValidateSpec(keys, key, bc, now) == Consume(keys, i, now);
    ConsumeOneRecord(keys, i, now);
  }

  /** A record deactivated at its cap answers no later validation: the
      same key then validates only through some other record. */
  lemma CappedKeyStaysRefused(keys: seq<ApiKey>, key: string, bc: Bcrypt, now: int, later: int, i: nat)
    requires FindFirst(keys, ActiveMatch(key, bc)) == Some(i) && Capped(keys[i])
    requires forall j :: 0 <= j < |keys| && j != i ==> !ActiveMatch(key, bc)(keys[j])
    ensures ValidateSpec(keys, key, bc, now).0 == Err(VALIDATE_FAILED)
    ensures ValidateSpec(ValidateSpec(keys, key, bc, now).1, key, bc, later).0 != Ok(true)
  {
    CappedMatchRefused(keys, key, bc, now, i);
    NoMatchLeft(keys, key, bc, i);
    NoMatchNotValid(keys[i := keys[i].(isActive := false)], key, bc, later);
  }

  lemma CappedMatchRefused(keys: seq<ApiKey>, key: string, bc: Bcrypt, now: int, i: nat)
    requires FindFirst(keys, ActiveMatch(key, bc)) == Some(i) && Capped(keys[i])
    ensures ValidateSpec(keys, key, bc, now) == (Err(VALIDATE_FAILED), keys[i := keys[i].(isActive := false)])
  {
    assert IsActive(keys[i]);
  }

  lemma NoMatchNotValid(keys: seq<ApiKey>, key: string, bc: Bcrypt, now: int)
    requires FindFirst(keys, ActiveMatch(key, bc)).None?
    ensures ValidateSpec(keys, key, bc, now).0 != Ok(true)
  {
  }

  /** Deactivating the only active match leaves no active match. */
  lemma NoMatchLeft(keys: seq<ApiKey>, key: string, bc: Bcrypt, i: nat)
    requires i < |keys| && forall j :: 0 <= j < |keys| && j != i ==> !ActiveMatch(key, bc)(keys[j])
    ensures FindFirst(keys[i := keys[i].(isActive := false)], ActiveMatch(key, bc)).None?
  {
    var after := keys[i := keys[i].(isActive := false)];
    forall j | 0 <= j < |after| ensures !ActiveMatch(key, bc)(after[j]) {
      if j != i { assert after[j] == keys[j]; }
    }
  }

  /** A key just issued validates, when no earlier active record already
      answers to it and its cap allows one use. */
  lemma IssuedKeyValidates(keys: seq<ApiKey>, req: CreateApiKeyRequest, draws: seq<real>, bc: Bcrypt,
                           oid: string, now: int)
    requires |draws| == KEY_LENGTH && forall i :: 0 <= i < |draws| ==> 0.0 <= draws[i] < 1.0
    requires Sound(bc) && IsMongoId(oid) && forall j :: 0 <= j < |keys| ==> keys[j].oid != oid
    requires CreateSpec(keys, req, draws, bc, oid).0.Ok?
    requires FindFirst(keys, ActiveMatch(GenerateApiKey(draws), bc)).None?
    requires req.maxUsage.None? || req.maxUsage.value > 0
    ensures var store := CreateSpec(keys, req, draws, bc, oid).1;
            ValidateSpec(store, GenerateApiKey(draws), bc, now).0 == Ok(true)
  {
    var plain := GenerateApiKey(draws);
    var rec := ApiKey(oid, bc.hash(plain), req.systemName, req.roles, req.maxUsage, 0, true, None);
    var store := keys + [rec];
    assert CreateSpec(keys, req, draws, bc, oid).1 == store;
    assert forall j :: 0 <= j < |keys| ==> store[j] == keys[j];
    FirstMatchValidates(store, plain, bc, now, |keys|);
  }

  /** The first active match, under its cap and with a well-formed id,
      validates. */
  lemma FirstMatchValidates(keys: seq<ApiKey>, key: string, bc: Bcrypt, now: int, i: nat)
    requires i < |keys| && ActiveMatch(key, bc)(keys[i]) && !Capped(keys[i]) && IsMongoId(keys[i].oid)
    requires forall j :: 0 <= j < i ==> !ActiveMatch(key, bc)(keys[j])
    ensures ValidateSpec(keys, key, bc, now).0 == Ok(true)
  {
    FindFirstIs(keys, ActiveMatch(key, bc), i);
    assert IsActive(keys[i]);
  }

  // -------------------------------------------------------------- revoke

  const REVOKE_FAILED := HttpException(NOT_IMPLEMENTED, Text("Error revoking API key"))

  /** `revokeApiKey`: the record with that id becomes inactive; a missing
      record or a malformed id is re-thrown as 501. */
  function RevokeSpec(keys: seq<ApiKey>, id: string): (r: (Result<()>, seq<ApiKey>))
    ensures r.0.Ok? <==> IsMongoId(id) && exists j :: 0 <= j < |keys| && keys[j].oid == id
    ensures r.0.Err? ==> r.0.error == REVOKE_FAILED && r.1 == keys
    ensures r.0.Ok? ==> FindFirst(keys, OidIs(KeyOid, id)).Some?
                        && var i := FindFirst(keys, OidIs(KeyOid, id)).value;
                           r.1 == keys[i := keys[i].(isActive := false)]
  {
    match FindById(keys, KeyOid, id)
    case Err(_) => (Err(REVOKE_FAILED), keys)
    case Ok(None) => (Err(REVOKE_FAILED), keys)
    case Ok(Some(i)) => (Ok(()), keys[i := keys[i].(isActive := false)])
  }

  /** Once revoked, a record answers no validation. */
  lemma RevokedKeyIgnored(keys: seq<ApiKey>, id: string, key: string, bc: Bcrypt, j: nat)
    requires RevokeSpec(keys, id).0.Ok? && j < |keys| && keys[j].oid == id && UniqueOids(keys)
    ensures !ActiveMatch(key, bc)(RevokeSpec(keys, id).1[j])
  {
    var i := FindFirst(keys, OidIs(KeyOid, id)).value;
    assert keys[i].oid == id;
  }

  // ---------------------------------------------------------------- list

  const LIST_FAILED := HttpException(NOT_FOUND, Text("Error retrieving API keys"))

  /** `findAll`: a page of the active records; a negative skip or an empty
      page (204 inside the `try`) is re-thrown as 404. */
  function FindAll(keys: seq<ApiKey>, page: int, limit: int): (r: Result<seq<ApiKey>>)
    ensures r.Err? ==> r.error == LIST_FAILED
    ensures (page - 1) * limit < 0 ==> r.Err?
    ensures r.Ok? ==> 0 < |r.value| && (limit != 0 ==> |r.value| <= Abs(limit))
    ensures r.Ok? ==> forall k :: 0 <= k < |r.value| ==> r.value[k] in keys && r.value[k].isActive
    ensures r.Ok? ==> forall k :: 0 <= k < |r.value| ==>
                        0 <= (page - 1) * limit + k < |Filter(keys, IsActive)|
                        && r.value[k] == Filter(keys, IsActive)[(page - 1) * limit + k]
    ensures r.Ok? ==> |r.value| == PageLength(|Filter(keys, IsActive)|, (page - 1) * limit, limit)
  {
    match SkipLimit(Filter(keys, IsActive), (page - 1) * limit, limit)
    case None => Err(LIST_FAILED)
    case Some(view) => if |view| == 0 then Err(LIST_FAILED) else Ok(view)
  }

  /** A page is empty, hence an error, exactly when it starts past the last
      active record (for a usable skip and limit). */
  lemma FindAllEmptyPage(keys: seq<ApiKey>, page: int, limit: int)
    requires (page - 1) * limit >= 0 && limit != 0
    ensures FindAll(keys, page, limit).Err? <==> (page - 1) * limit >= |Filter(keys, IsActive)|
  {
  }

  // --------------------------------------------------------------- store

  class ApiKeyStore {
    var keys: seq<ApiKey>

    constructor(initial: seq<ApiKey>)
      ensures keys == initial
    {
      keys := initial;
    }

    method CreateApiKey(req: CreateApiKeyRequest, draws: seq<real>, bc: Bcrypt, oid: string) returns (r: Result<Issued>)
      requires |draws| == KEY_LENGTH && forall i :: 0 <= i < |draws| ==> 0.0 <= draws[i] < 1.0
      modifies this
      ensures (r, keys) == CreateSpec(old(keys), req, draws, bc, oid)
    {
      var key := GenerateApiKey(draws);
      var hashed := bc.hash(key);
      if hashed == "" {
        return Err(CREATE_FAILED);
      }
      keys := keys + [ApiKey(oid, hashed, req.systemName, req.roles, req.maxUsage, 0, true, None)];
      r := Ok(Issued(key, true));
    }

    /** The `for` loop over the active records, in store order. */
    method ValidateApiKey(key: string, bc: Bcrypt, now: int) returns (r: Result<bool>)
      modifies this
      ensures (r, keys) == ValidateSpec(old(keys), key, bc, now)
    {
      if FindFirst(keys, IsActive).None? {
        return Err(VALIDATE_FAILED);
      }
      var i := 0;
      while i < |keys|
        invariant 0 <= i <= |keys|
        invariant forall j :: 0 <= j < i ==> !ActiveMatch(key, bc)(keys[j])
      {
        if keys[i].isActive && bc.compare(key, keys[i].key) {
          FindFirstIs(keys, ActiveMatch(key, bc), i);
          assert ValidateSpec(keys, key, bc, now) == Consume(keys, i, now);
          if Capped(keys[i]) {
            keys := keys[i := keys[i].(isActive := false)];
            return Err(VALIDATE_FAILED);
          }
          var id := keys[i].oid;
          keys := keys[i := keys[i].(usageCount := keys[i].usageCount + 1)];
          var stamped := UpdateLastUsed(keys, id, now);
          keys := stamped.1;
          if stamped.0.Err? {
            return Err(VALIDATE_FAILED);
          }
          return Ok(true);
        }
        i := i + 1;
      }
      assert FindFirst(keys, ActiveMatch(key, bc)).None?;
      r := Ok(false);
    }

    method RevokeApiKey(id: string) returns (r: Result<()>)
      modifies this
      ensures (r, keys) == RevokeSpec(old(keys), id)
    {
      var found := FindById(keys, KeyOid, id);
      if found.Err? || found.value.None? {
        return Err(REVOKE_FAILED);
      }
      var i := found.value.value;
      keys := keys[i := keys[i].(isActive := false)];
      r := Ok(());
    }
  }
}
