/** `UsersService`: registration through Firebase, role update, soft
    delete and the paged listing over the `User` collection. */
module UserService {
  import opened Common
  import opened Store
  import opened Jwt
  import opened Identity
  import opened UserEntity
  import opened WhiteListService
  import opened GetTokensService

  /** `CreateUserDto` as the handler receives it. `None` is a property the
      request does not carry. */
  datatype CreateUserRequest = CreateUserRequest(
    token: Option<string>, email: Option<string>, termsVersion: string, metadataTerms: string,
    role: Option<string>, id: Option<string>, accessMethod: Option<string>, metadata: Option<string>,
    name: Option<string>, documentUser: Option<string>, typeDocument: Option<string>)

  const REGISTER_FAILED := "Failed to register user! try again later with another firebaseId:  "

  function RegisterFailure(e: Exception): Exception {
    HttpException(NOT_ACCEPTABLE, Prefixed(REGISTER_FAILED, e))
  }

  /** `userRecord.providerData[0]?.providerId || 'password'` */
  function ProviderDefault(rec: FirebaseUser): string {
    if |rec.providerIds| > 0 && rec.providerIds[0] != "" then rec.providerIds[0] else "password"
  }

  /** The new document: the computed fields come first and the remaining
      request properties are spread over them, so the request's `id`,
      `accessMethod` and `metadata` win when present. The `role: role` the
      code adds is not a schema path and is dropped; `roles` keeps its
      default, the empty list. */
  function NewUser(req: CreateUserRequest, rec: FirebaseUser, uuid: string, oid: string, now: int): (u: User)
    ensures u.oid == oid && u.firebaseId == rec.uid && u.email == rec.email.GetOr("")
    ensures u.accessMethod == (if req.accessMethod.Some? then req.accessMethod.value else ProviderDefault(rec))
    ensures u.id == (if req.id.Some? then req.id.value else uuid)
    ensures u.metadata == (if req.metadata.Some? then req.metadata else Some(rec.metadata))
    ensures u.name == req.name && u.documentUser == req.documentUser && u.typeDocument == req.typeDocument
    ensures u.termsVersion == req.termsVersion && u.metadataTerms == req.metadataTerms
    ensures u.createdAt == now && u.deletedAt.None? && u.deletedBy.None? && u.roles == []
  {
    User(oid, req.id.GetOr(uuid), rec.uid, req.name, rec.email.GetOr(""),
         req.accessMethod.GetOr(ProviderDefault(rec)),
         if req.metadata.Some? then req.metadata else Some(rec.metadata),
         req.documentUser, req.typeDocument, req.termsVersion, req.metadataTerms, [],
         now, None, None)
  }

  /** The identity behind a registration request. The local `password` is
      never assigned, so without a token the e-mail branch is never taken. */
  function RegistrationIdentity(req: CreateUserRequest, fb: Firebase): (r: Result<FirebaseUser>)
    ensures !Truthy(req.token) ==> r == Err(HttpException(BAD_REQUEST, Text("Insufficient data for registration")))
  {
    if Truthy(req.token) then
      match fb.verifyIdToken(req.token.value)
      case Err(e) => Err(e)
      case Ok(uid) => fb.getUser(Some(Str(uid)))
    else Err(HttpException(BAD_REQUEST, Text("Insufficient data for registration")))
  }

  /** The claim signed for a new user: its uuid and e-mail, and
      `user.role`, undefined on a document of the strict schema. */
  function RegisterClaim(u: User): Payload {
    Claim(Sub(Some(Str(u.id)), Some(u.email), None, None))
  }

  /** `register`: the outcome, the user collection and the whitelist after
      the call. The user is saved before the tokens are made. */
  function RegisterSpec(req: CreateUserRequest, fb: Firebase, cfg: Config, jwt: JwtLib,
                        users: seq<User>, wl: seq<Entry>, uuid: string, oid: string, now: int)
    : (r: (Result<Tokens>, seq<User>, seq<Entry>))
    ensures r.0.Err? ==> StatusOf(r.0.error) == Some(NOT_ACCEPTABLE) && r.2 == wl
    ensures r.1 == users || (exists rec :: r.1 == users + [NewUser(req, rec, uuid, oid, now)])
    ensures var id := RegistrationIdentity(req, fb);
            r.0.Ok? <==> id.Ok? && FindFirst(users, HasEmail(id.value.email)).None?
                         && MissingRequired(NewUser(req, id.value, uuid, oid, now)).None?
                         && GetTokens(RegisterClaim(NewUser(req, id.value, uuid, oid, now)), cfg, jwt).Ok?
                         && GetTokens(RegisterClaim(NewUser(req, id.value, uuid, oid, now)), cfg, jwt).value.accessToken != ""
    ensures r.0.Ok? ==> var u := NewUser(req, RegistrationIdentity(req, fb).value, uuid, oid, now);
                        r.0 == GetTokens(RegisterClaim(u), cfg, jwt) && r.1 == users + [u]
                        && r.2 == wl + [Entry(r.0.value.accessToken, true, now)]
  {
    match RegistrationIdentity(req, fb)
    case Err(e) => (Err(RegisterFailure(e)), users, wl)
    case Ok(rec) =>
      if FindFirst(users, HasEmail(rec.email)).Some? then
        (Err(RegisterFailure(HttpException(BAD_REQUEST, Text("User already exists! Try again")))), users, wl)
      else
        var u := NewUser(req, rec, uuid, oid, now);
        match MissingRequired(u)
        case Some(path) => (Err(RegisterFailure(ValidationError(path))), users, wl)
        case None =>
          match GetTokens(RegisterClaim(u), cfg, jwt)
          case Err(e) => (Err(RegisterFailure(e)), users + [u], wl)
          case Ok(t) =>
            var (w, wl') := AppendSpec(wl, t, now);
            if w.Err? then (Err(RegisterFailure(w.error)), users + [u], wl)
            else (Ok(t), users + [u], wl')
  }

  /** Without a Firebase token registration always fails, and stores nothing. */
  lemma RegisterNeedsToken(req: CreateUserRequest, fb: Firebase, cfg: Config, jwt: JwtLib,
                           users: seq<User>, wl: seq<Entry>, uuid: string, oid: string, now: int)
    requires !Truthy(req.token)
    ensures RegisterSpec(req, fb, cfg, jwt, users, wl, uuid, oid, now) ==
      (Err(RegisterFailure(HttpException(BAD_REQUEST, Text("Insufficient data for registration")))), users, wl)
  {
  }

  /** A Firebase identity whose e-mail is already stored is refused and
      nothing is added. */
  lemma RegisterDuplicate(req: CreateUserRequest, fb: Firebase, cfg: Config, jwt: JwtLib,
                          users: seq<User>, wl: seq<Entry>, uuid: string, oid: string, now: int)
    requires RegistrationIdentity(req, fb).Ok?
    requires exists j :: 0 <= j < |users| && HasEmail(RegistrationIdentity(req, fb).value.email)(users[j])
    ensures var r := RegisterSpec(req, fb, cfg, jwt, users, wl, uuid, oid, now);
            r.0.Err? && r.1 == users && r.2 == wl
  {
    var rec := RegistrationIdentity(req, fb).value;
    assert FindFirst(users, HasEmail(rec.email)).Some?;
  }

  /** A successful registration stores exactly the new user and whitelists
      exactly the access token it returns, signed over the new user's
      uuid and e-mail, with no role. */
  lemma RegisterSuccess(req: CreateUserRequest, fb: Firebase, cfg: Config, jwt: JwtLib,
                        users: seq<User>, wl: seq<Entry>, uuid: string, oid: string, now: int)
    requires RegisterSpec(req, fb, cfg, jwt, users, wl, uuid, oid, now).0.Ok?
    ensures var r := RegisterSpec(req, fb, cfg, jwt, users, wl, uuid, oid, now);
            var rec := RegistrationIdentity(req, fb).value;
            var u := NewUser(req, rec, uuid, oid, now);
            RegistrationIdentity(req, fb).Ok?
            && (forall j :: 0 <= j < |users| ==> users[j].email != u.email)
            && r.1 == users + [u]
            && r.2 == wl + [Entry(r.0.value.accessToken, true, now)]
            && r.0.value == GetTokens(Claim(Sub(Some(Str(u.id)), Some(u.email), None, None)), cfg, jwt).value
  {
    var rec := RegistrationIdentity(req, fb).value;
    var u := NewUser(req, rec, uuid, oid, now);
    assert FindFirst(users, HasEmail(rec.email)).None?;
    forall j | 0 <= j < |users| ensures users[j].email != u.email {
      assert !HasEmail(rec.email)(users[j]);
    }
  }

  /** When no token can be signed the user has already been saved. */
  lemma RegisterSavesBeforeSigning(req: CreateUserRequest, fb: Firebase, cfg: Config, jwt: JwtLib,
                                   users: seq<User>, wl: seq<Entry>, uuid: string, oid: string, now: int)
    requires cfg.constSecret == "" && cfg.envSecret == ""
    requires RegistrationIdentity(req, fb).Ok?
    requires FindFirst(users, HasEmail(RegistrationIdentity(req, fb).value.email)).None?
    requires MissingRequired(NewUser(req, RegistrationIdentity(req, fb).value, uuid, oid, now)).None?
    ensures var r := RegisterSpec(req, fb, cfg, jwt, users, wl, uuid, oid, now);
            r.0 == Err(RegisterFailure(SecretMissing))
            && r.1 == users + [NewUser(req, RegistrationIdentity(req, fb).value, uuid, oid, now)]
  {
  }

  /** `updateRole`: `findById` errors and the missing user are re-thrown as
      500 with their message. `user.role = ...` sets a path the strict schema
      does not have, so the save writes nothing: the found document comes
      back as it was stored. */
  function UpdateRoleSpec(users: seq<User>, userId: string, role: Option<string>): (r: (Result<User>, seq<User>))
    ensures r.0.Ok? <==> IsMongoId(userId) && exists i :: 0 <= i < |users| && users[i].oid == userId
    ensures r.0.Err? ==> StatusOf(r.0.error) == Some(INTERNAL_SERVER_ERROR)
    ensures !IsMongoId(userId) ==> r.0 == Err(HttpException(INTERNAL_SERVER_ERROR, MessageOf(CastError(userId))))
    ensures r.0.Ok? ==> exists i :: 0 <= i < |users| && users[i].oid == userId && r.0.value == users[i]
    ensures r.1 == users
  {
    match FindById(users, UserOid, userId)
    case Err(e) => (Err(HttpException(INTERNAL_SERVER_ERROR, MessageOf(e))), users)
    case Ok(None) => (Err(HttpException(INTERNAL_SERVER_ERROR, Text("User not found"))), users)
    case Ok(Some(i)) => (Ok(users[i]), users)
  }

  // ------------------------------------------- the role evidently meant

  /** The requested role as the declared `roles` list. */
  function RoleList(role: Option<string>): seq<string> {
    if role.Some? then [role.value] else []
  }

  /** `register`'s document with the role kept on the declared path. */
  function NewUserIntended(req: CreateUserRequest, rec: FirebaseUser, uuid: string, oid: string, now: int)
    : (u: User)
    ensures u.roles == RoleList(req.role)
    ensures u.(roles := []) == NewUser(req, rec, uuid, oid, now)
  {
    NewUser(req, rec, uuid, oid, now).(roles := RoleList(req.role))
  }

  /** `updateRole` writing the declared path: the same outcome, and the
      found document now holds the role. */
  function UpdateRoleIntended(users: seq<User>, userId: string, role: Option<string>): (r: (Result<User>, seq<User>))
    ensures r.0.Ok? <==> UpdateRoleSpec(users, userId, role).0.Ok?
    ensures r.0.Err? ==> r == UpdateRoleSpec(users, userId, role)
    ensures r.0.Ok? ==> exists i :: 0 <= i < |users| && users[i].oid == userId
                          && r.0.value == users[i].(roles := RoleList(role)) && r.1 == users[i := r.0.value]
  {
    match FindById(users, UserOid, userId)
    case Err(e) => (Err(HttpException(INTERNAL_SERVER_ERROR, MessageOf(e))), users)
    case Ok(None) => (Err(HttpException(INTERNAL_SERVER_ERROR, Text("User not found"))), users)
    case Ok(Some(i)) =>
      var u := users[i].(roles := RoleList(role));
      (Ok(u), users[i := u])
  }

  /** As written, no request role ever reaches the store or a token: a new
      user has no roles and its claim no role, and an update that succeeds
      leaves the collection as it was. */
  lemma RoleNeverStored(req: CreateUserRequest, rec: FirebaseUser, uuid: string, oid: string, now: int,
                        users: seq<User>, userId: string, role: Option<string>)
    requires req.role.Some?
    ensures NewUser(req, rec, uuid, oid, now).roles == [] != RoleList(req.role)
    ensures RegisterClaim(NewUser(req, rec, uuid, oid, now)).sub.value.role.None?
    ensures UpdateRoleSpec(users, userId, role).1 == users
  {
  }

  /** With the declared path written, the role reads back from the store. */
  lemma IntendedRoleReadsBack(users: seq<User>, userId: string, role: Option<string>)
    requires UpdateRoleIntended(users, userId, role).0.Ok?
    ensures var after := UpdateRoleIntended(users, userId, role).1;
            FindOne(after, userId).Ok? && FindOne(after, userId).value.roles == RoleList(role)
  {
    var i := FindFirst(users, OidIs(UserOid, userId)).value;
    var after := UpdateRoleIntended(users, userId, role).1;
    assert after[i].oid == userId;
    assert OidIs(UserOid, userId)(after[i]);
    FindFirstIs(after, OidIs(UserOid, userId), i);
  }

  /** `removeUser`'s catch: only a `NotFoundException` keeps 404. */
  function RemoveFailure(e: Exception): Exception {
    if e.NotFoundException? then HttpException(NOT_FOUND, MessageOf(e))
    else HttpException(NOT_IMPLEMENTED, Text("Error when trying to delete user"))
  }

  /** `removeUser`: a soft delete. The record stays, with `deletedAt` and
      `deletedBy` set; it is saved before Firebase is asked to delete the
      account (with the Mongo id), so a Firebase failure leaves it deleted. */
  function RemoveUserSpec(users: seq<User>, userId: string, deletedBy: string, now: int, fb: Firebase)
    : (r: (Result<()>, seq<User>))
    ensures |r.1| == |users|
    ensures r.0.Ok? <==> IsMongoId(userId) && (exists j :: 0 <= j < |users| && users[j].oid == userId)
                         && fb.deleteUser(userId).None?
    ensures !IsMongoId(userId) ==> r == (Err(HttpException(NOT_IMPLEMENTED, Text("Error when trying to delete user"))), users)
    ensures IsMongoId(userId) && FindFirst(users, OidIs(UserOid, userId)).Some? ==>
              var i := FindFirst(users, OidIs(UserOid, userId)).value;
              r.1 == users[i := users[i].(deletedAt := Some(now), deletedBy := Some(deletedBy))]
              && (fb.deleteUser(userId).Some? ==> r.0 == Err(RemoveFailure(fb.deleteUser(userId).value)))
  {
    match FindById(users, UserOid, userId)
    case Err(e) => (Err(RemoveFailure(e)), users)
    case Ok(None) => (Err(RemoveFailure(HttpException(NOT_FOUND, Text("User not found")))), users)
    case Ok(Some(i)) =>
      var after := users[i := users[i].(deletedAt := Some(now), deletedBy := Some(deletedBy))];
      match fb.deleteUser(userId)
      case Some(e) => (Err(RemoveFailure(e)), after)
      case None => (Ok(()), after)
  }

  /** A missing user is reported as 501, not 404: the thrown exception
      is a plain `HttpException`, not a `NotFoundException`. */
  lemma RemoveMissingIs501(users: seq<User>, userId: string, deletedBy: string, now: int, fb: Firebase)
    requires FindById(users, UserOid, userId).Ok?
    requires forall j :: 0 <= j < |users| ==> users[j].oid != userId
    ensures RemoveUserSpec(users, userId, deletedBy, now, fb) ==
      (Err(HttpException(NOT_IMPLEMENTED, Text("Error when trying to delete user"))), users)
  {
    assert FindFirst(users, OidIs(UserOid, userId)).None?;
  }

  /** Soft delete marks exactly the record with that id, whatever Firebase
      answers, and leaves every other record as it was. */
  lemma RemoveMarksOnlyTarget(users: seq<User>, userId: string, deletedBy: string, now: int, fb: Firebase, i: nat)
    requires i < |users| && users[i].oid == userId && IsMongoId(userId)
    requires forall j :: 0 <= j < i ==> users[j].oid != userId
    ensures var after := RemoveUserSpec(users, userId, deletedBy, now, fb).1;
            after[i] == users[i].(deletedAt := Some(now), deletedBy := Some(deletedBy))
            && forall j :: 0 <= j < |users| && j != i ==> after[j] == users[j]
  {
    assert OidIs(UserOid, userId)(users[i]);
    assert forall j :: 0 <= j < i ==> !OidIs(UserOid, userId)(users[j]);
    FindFirstIs(users, OidIs(UserOid, userId), i);
  }

  /** The listing filter: `{ deletedAt: null }` plus the optional name and
      e-mail regular expressions (`matches`). */
  function Listed(matches: User -> bool): User -> bool {
    (u: User) => u.deletedAt.None? && matches(u)
  }

  datatype UserPage = UserPage(users: seq<User>, total: nat, page: int, limit: int)

  /** `findAllUsers`: skip `(page - 1) * limit`, at most `limit`; `total`
      counts every match. A negative skip is rejected by the server. */
  function FindAllUsers(users: seq<User>, matches: User -> bool, page: int, limit: int): (r: Result<UserPage>)
    ensures r.Err? <==> (page - 1) * limit < 0
    ensures r.Err? ==> r.error == HttpException(NOT_FOUND, Text("Failed to find users"))
    ensures r.Ok? ==> r.value.total == |Filter(users, Listed(matches))| && r.value.page == page && r.value.limit == limit
    ensures r.Ok? ==> forall k :: 0 <= k < |r.value.users| ==>
                        r.value.users[k] in users && r.value.users[k].deletedAt.None? && matches(r.value.users[k])
    ensures r.Ok? && limit != 0 ==> |r.value.users| <= Abs(limit)
    ensures r.Ok? ==> forall k :: 0 <= k < |r.value.users| ==>
                        0 <= (page - 1) * limit + k < |Filter(users, Listed(matches))|
                        && r.value.users[k] == Filter(users, Listed(matches))[(page - 1) * limit + k]
    ensures r.Ok? ==> |r.value.users| == PageLength(|Filter(users, Listed(matches))|, (page - 1) * limit, limit)
  {
    var q := Filter(users, Listed(matches));
    match SkipLimit(q, (page - 1) * limit, limit)
    case None => Err(HttpException(NOT_FOUND, Text("Failed to find users")))
    case Some(view) =>
      assert forall k :: 0 <= k < |view| ==> view[k] in q;
      Ok(UserPage(view, |q|, page, limit))
  }

  /** A soft-deleted user is never listed again. */
  lemma RemovedNotListed(users: seq<User>, userId: string, deletedBy: string, now: int, fb: Firebase,
                         i: nat, matches: User -> bool, page: int, limit: int)
    requires i < |users| && users[i].oid == userId && IsMongoId(userId)
    requires forall j :: 0 <= j < i ==> users[j].oid != userId
    requires FindAllUsers(RemoveUserSpec(users, userId, deletedBy, now, fb).1, matches, page, limit).Ok?
    ensures var after := RemoveUserSpec(users, userId, deletedBy, now, fb).1;
            after[i] !in FindAllUsers(after, matches, page, limit).value.users
  {
    RemoveMarksOnlyTarget(users, userId, deletedBy, now, fb, i);
  }

  /** `findOne(id)`: every failure is re-thrown as 403 with its message. */
  function FindOne(users: seq<User>, id: string): (r: Result<User>)
    ensures r.Ok? <==> IsMongoId(id) && exists j :: 0 <= j < |users| && users[j].oid == id
    ensures r.Ok? ==> r.value in users && r.value.oid == id
    ensures r.Err? ==> StatusOf(r.error) == Some(FORBIDDEN)
  {
    match FindById(users, UserOid, id)
    case Err(e) => Err(HttpException(FORBIDDEN, MessageOf(e)))
    case Ok(None) => Err(HttpException(FORBIDDEN, Text("User not found")))
    case Ok(Some(i)) => Ok(users[i])
  }

  class UserStore {
    var users: seq<User>

    constructor(initial: seq<User>)
      ensures users == initial
    {
      users := initial;
    }

    method Register(req: CreateUserRequest, fb: Firebase, cfg: Config, jwt: JwtLib, wl: WhitelistStore,
                    uuid: string, oid: string, now: int) returns (r: Result<Tokens>)
      modifies this, wl
      ensures (r, users, wl.entries) == RegisterSpec(req, fb, cfg, jwt, old(users), old(wl.entries), uuid, oid, now)
    {
      var identity := RegistrationIdentity(req, fb);
      if identity.Err? {
        return Err(RegisterFailure(identity.error));
      }
      var rec := identity.value;
      var existing := FindFirst(users, HasEmail(rec.email));
      if existing.Some? {
        return Err(RegisterFailure(HttpException(BAD_REQUEST, Text("User already exists! Try again"))));
      }
      var u := NewUser(req, rec, uuid, oid, now);
      var invalid := MissingRequired(u);
      if invalid.Some? {
        return Err(RegisterFailure(ValidationError(invalid.value)));
      }
      users := users + [u];
      var tokens := GetTokens(RegisterClaim(u), cfg, jwt);
      if tokens.Err? {
        return Err(RegisterFailure(tokens.error));
      }
      var w := wl.WhitelistJwt(tokens.value, now);
      if w.Err? {
        return Err(RegisterFailure(w.error));
      }
      r := Ok(tokens.value);
    }

    method UpdateRole(userId: string, role: Option<string>) returns (r: Result<User>)
      ensures (r, users) == UpdateRoleSpec(users, userId, role)
    {
      var found := FindById(users, UserOid, userId);
      if found.Err? {
        return Err(HttpException(INTERNAL_SERVER_ERROR, MessageOf(found.error)));
      }
      if found.value.None? {
        return Err(HttpException(INTERNAL_SERVER_ERROR, Text("User not found")));
      }
      r := Ok(users[found.value.value]);
    }

    method RemoveUser(userId: string, deletedBy: string, now: int, fb: Firebase) returns (r: Result<()>)
      modifies this
      ensures (r, users) == RemoveUserSpec(old(users), userId, deletedBy, now, fb)
    {
      var found := FindById(users, UserOid, userId);
      if found.Err? {
        return Err(RemoveFailure(found.error));
      }
      if found.value.None? {
        return Err(RemoveFailure(HttpException(NOT_FOUND, Text("User not found"))));
      }
      var i := found.value.value;
      users := users[i := users[i].(deletedAt := Some(now), deletedBy := Some(deletedBy))];
      var failure := fb.deleteUser(userId);
      if failure.Some? {
        return Err(RemoveFailure(failure.value));
      }
      r := Ok(());
    }
  }
}
