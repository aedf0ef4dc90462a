/** `MoodleService`: login of Moodle users mirrored locally, the mapping of
    Moodle's user list, the sync that upserts it, delete, paging and
    lookup by id. */
module MoodleService {
  import opened Common
  import opened Store
  import opened Jwt
  import opened WhiteListService
  import opened GetTokensService

  /** A `moodleUser` document; `oid` is its Mongo `_id`. */
  datatype MoodleUser = MoodleUser(
    oid: string, moodleId: Option<int>, user: string, email: string,
    firstname: Option<string>, lastname: Option<string>, fullname: Option<string>,
    department: Option<string>, city: Option<string>, roles: Option<seq<string>>,
    country: Option<string>, confirmed: Option<bool>, suspended: Option<bool>,
    createdAt: int, updatedAt: Option<int>, deletedAt: Option<int>)

  function MoodleOid(u: MoodleUser): string { u.oid }

  /** A user as Moodle's `core_user_get_users` returns it. */
  datatype RemoteUser = RemoteUser(
    id: int, username: string, firstname: Option<string>, lastname: Option<string>,
    fullname: Option<string>, email: string, department: Option<string>, city: Option<string>,
    country: Option<string>, confirmed: Option<bool>, suspended: Option<bool>, role: Option<seq<string>>)

  /** An element of `getUsersFromMoodle`'s result. */
  datatype Fetched = Fetched(
    moodleId: int, user: string, firstname: Option<string>, lastname: Option<string>,
    fullname: Option<string>, email: string, department: Option<string>, city: Option<string>,
    country: Option<string>, confirmed: Option<bool>, suspended: Option<bool>, roles: seq<string>)

  const BASIC := ["BASIC"]

  // ---------------------------------------------------------------- login

  /** `LoginDto`; `None` is a missing property. */
  datatype LoginRequest = LoginRequest(username: Option<string>, email: Option<string>)

  /** `findOne({ username })` as written. `username` is not a path of the
      strict schema, which calls the field `user`. With `strictQuery` on
      (Mongoose 6's default) the path is stripped and the filter is `{}`,
      which every document matches; with it off (the default from
      Mongoose 7 on) the path is kept and no document has it. */
  function UsernameFilter(strictQuery: bool): MoodleUser -> bool {
    (u: MoodleUser) => strictQuery
  }

  /** The filter evidently meant: the stored `user` is the username. */
  function HasUsername(username: string): MoodleUser -> bool {
    (u: MoodleUser) => u.user == username
  }

  const LOGIN_PREFIX := "Failed to login user!... "

  const CREDENTIALS_REQUIRED := HttpException(BAD_REQUEST, Text("Username and email are required!"))
  const NOT_IN_CENTINELA := HttpException(NOT_FOUND, Text("User not found in Centinela!"))
  const CREDENTIALS_MISMATCH := HttpException(BAD_REQUEST, Text("Username and email do not match!"))

  /** The claim a Moodle login signs: the record's `_id`, e-mail and roles. */
  function MoodleClaim(u: MoodleUser): Payload {
    Claim(Sub(Some(Str(u.oid)), Some(u.email), u.roles, None))
  }

  /** The checks inside the `try`, and the tokens they lead to. */
  function LoginTokens(u: MoodleUser, cfg: Config, jwt: JwtLib): Result<Tokens> {
    if u.suspended == Some(true) then Err(HttpException(FORBIDDEN, Text("User account is suspended!")))
    else if u.confirmed != Some(true) then Err(HttpException(FORBIDDEN, Text("User account is not confirmed!")))
    else GetTokens(MoodleClaim(u), cfg, jwt)
  }

  /** `loginWithMoodle` with the record looked up by `find(username)`: the
      three checks before the `try` keep their own status; everything
      inside is re-thrown as 406. */
  function LoginWith(req: LoginRequest, users: seq<MoodleUser>, find: string -> (MoodleUser -> bool),
                     cfg: Config, jwt: JwtLib, wl: seq<Entry>, now: int): (r: (Result<Tokens>, seq<Entry>))
    ensures !Truthy(req.username) || !Truthy(req.email) ==> r == (Err(CREDENTIALS_REQUIRED), wl)
    ensures Truthy(req.username) && Truthy(req.email)
            && FindFirst(users, find(req.username.value)).None? ==>
      r == (Err(NOT_IN_CENTINELA), wl)
    ensures Truthy(req.username) && Truthy(req.email)
            && FindFirst(users, find(req.username.value)).Some?
            && users[FindFirst(users, find(req.username.value)).value].email != req.email.value ==>
      r == (Err(CREDENTIALS_MISMATCH), wl)
    ensures Truthy(req.username) && Truthy(req.email)
            && FindFirst(users, find(req.username.value)).Some?
            && users[FindFirst(users, find(req.username.value)).value].email == req.email.value ==>
      var t := LoginTokens(users[FindFirst(users, find(req.username.value)).value], cfg, jwt);
      (t.Err? ==> r == (Err(HttpException(NOT_ACCEPTABLE, Prefixed(LOGIN_PREFIX, t.error))), wl))
      && (t.Ok? && t.value.accessToken != "" ==> r == (t, wl + [Entry(t.value.accessToken, true, now)]))
      && (t.Ok? && t.value.accessToken == "" ==> r.0.Err? && StatusOf(r.0.error) == Some(NOT_ACCEPTABLE))
    ensures r.0.Err? ==> r.1 == wl
    ensures r.0.Ok? ==> r.1 == wl + [Entry(r.0.value.accessToken, true, now)]
  {
    if !Truthy(req.username) || !Truthy(req.email) then (Err(CREDENTIALS_REQUIRED), wl)
    else
      match FindFirst(users, find(req.username.value))
      case None => (Err(NOT_IN_CENTINELA), wl)
      case Some(i) =>
        if users[i].email != req.email.value then (Err(CREDENTIALS_MISMATCH), wl)
        else
          match LoginTokens(users[i], cfg, jwt)
          case Err(e) => (Err(HttpException(NOT_ACCEPTABLE, Prefixed(LOGIN_PREFIX, e))), wl)
          case Ok(t) =>
            var (w, wl') := AppendSpec(wl, t, now);
            if w.Err? then (Err(HttpException(NOT_ACCEPTABLE, Prefixed(LOGIN_PREFIX, w.error))), wl)
            else (Ok(t), wl')
  }

  /** `loginWithMoodle` as written: the username never selects the record.
      Without `strictQuery` every login is the 404; with it the first stored
      document is the one checked and signed. */
  function LoginSpec(req: LoginRequest, users: seq<MoodleUser>, strictQuery: bool, cfg: Config, jwt: JwtLib,
                     wl: seq<Entry>, now: int): (r: (Result<Tokens>, seq<Entry>))
    ensures !Truthy(req.username) || !Truthy(req.email) ==> r == (Err(CREDENTIALS_REQUIRED), wl)
    ensures Truthy(req.username) && Truthy(req.email) && (!strictQuery || |users| == 0) ==>
      r == (Err(NOT_IN_CENTINELA), wl)
    ensures Truthy(req.username) && Truthy(req.email) && strictQuery && |users| > 0
            && users[0].email != req.email.value ==>
      r == (Err(CREDENTIALS_MISMATCH), wl)
    ensures r.0.Ok? ==> strictQuery && |users| > 0 && users[0].email == req.email.value
                        && r.0 == GetTokens(MoodleClaim(users[0]), cfg, jwt)
                        && r.1 == wl + [Entry(r.0.value.accessToken, true, now)]
    ensures Truthy(req.username) && Truthy(req.email) && strictQuery && |users| > 0
            && users[0].email == req.email.value ==>
      var t := LoginTokens(users[0], cfg, jwt);
      (t.Err? ==> r == (Err(HttpException(NOT_ACCEPTABLE, Prefixed(LOGIN_PREFIX, t.error))), wl))
      && (t.Ok? && t.value.accessToken != "" ==> r == (t, wl + [Entry(t.value.accessToken, true, now)]))
      && (t.Ok? && t.value.accessToken == "" ==> r.0.Err? && StatusOf(r.0.error) == Some(NOT_ACCEPTABLE))
    ensures r.0.Err? ==> r.1 == wl
  {
    FirstOfAll(users, strictQuery);
    LoginWith(req, users, (n: string) => UsernameFilter(strictQuery), cfg, jwt, wl, now)
  }

  /** The filter as written finds the first document or none. */
  lemma FirstOfAll(users: seq<MoodleUser>, strictQuery: bool)
    ensures FindFirst(users, UsernameFilter(strictQuery)) == (if strictQuery && |users| > 0 then Some(0) else None)
  {
  }

  /** `loginWithMoodle` with the filter on `user` it evidently means. */
  function LoginIntended(req: LoginRequest, users: seq<MoodleUser>, cfg: Config, jwt: JwtLib,
                         wl: seq<Entry>, now: int): (r: (Result<Tokens>, seq<Entry>))
    ensures r.0.Ok? ==> Truthy(req.username) && Truthy(req.email)
                        && exists i :: 0 <= i < |users| && users[i].user == req.username.value
                                       && users[i].email == req.email.value
                                       && r.0 == GetTokens(MoodleClaim(users[i]), cfg, jwt)
    ensures !Truthy(req.username) || !Truthy(req.email) ==> r == (Err(CREDENTIALS_REQUIRED), wl)
    ensures Truthy(req.username) && Truthy(req.email)
            && (forall j :: 0 <= j < |users| ==> users[j].user != req.username.value) ==>
      r == (Err(NOT_IN_CENTINELA), wl)
    ensures Truthy(req.username) && Truthy(req.email)
            && FindFirst(users, HasUsername(req.username.value)).Some?
            && users[FindFirst(users, HasUsername(req.username.value)).value].email != req.email.value ==>
      r == (Err(CREDENTIALS_MISMATCH), wl)
    ensures Truthy(req.username) && Truthy(req.email)
            && FindFirst(users, HasUsername(req.username.value)).Some?
            && users[FindFirst(users, HasUsername(req.username.value)).value].email == req.email.value ==>
      var t := LoginTokens(users[FindFirst(users, HasUsername(req.username.value)).value], cfg, jwt);
      (t.Err? ==> r == (Err(HttpException(NOT_ACCEPTABLE, Prefixed(LOGIN_PREFIX, t.error))), wl))
      && (t.Ok? && t.value.accessToken != "" ==> r == (t, wl + [Entry(t.value.accessToken, true, now)]))
    ensures r.0.Err? ==> r.1 == wl
  {
    var r := LoginWith(req, users, HasUsername, cfg, jwt, wl, now);
    if r.0.Ok? then
      LoginClaimContents(req, users, HasUsername, cfg, jwt, wl, now);
      r
    else r
  }

  /** Under either reading the username plays no part: any other truthy
      username gives the same outcome. */
  lemma LoginIgnoresUsername(req: LoginRequest, users: seq<MoodleUser>, strictQuery: bool, cfg: Config,
                             jwt: JwtLib, wl: seq<Entry>, now: int, other: string)
    requires Truthy(req.username) && other != ""
    ensures LoginSpec(req, users, strictQuery, cfg, jwt, wl, now)
            == LoginSpec(req.(username := Some(other)), users, strictQuery, cfg, jwt, wl, now)
  {
  }

  /** The input that shows it: `bob` is stored second with his own e-mail,
      yet the written login checks `alice`'s record (or finds none), while
      the intended one reaches `bob`'s and can only fail inside the `try`. */
  lemma LoginByUsernameExample(strictQuery: bool, cfg: Config, jwt: JwtLib, wl: seq<Entry>, now: int)
    ensures var alice := MoodleUser("000000000000000000000001", Some(1), "alice", "alice@x.io", None, None, None,
                                    None, None, None, None, Some(true), Some(false), 0, None, None);
            var bob := MoodleUser("000000000000000000000002", Some(2), "bob", "bob@x.io", None, None, None,
                                  None, None, None, None, Some(true), Some(false), 0, None, None);
            var req := LoginRequest(Some("bob"), Some("bob@x.io"));
            LoginSpec(req, [alice, bob], strictQuery, cfg, jwt, wl, now).0
              == Err(if strictQuery then CREDENTIALS_MISMATCH else NOT_IN_CENTINELA)
            && (LoginIntended(req, [alice, bob], cfg, jwt, wl, now).0.Err? ==>
                  StatusOf(LoginIntended(req, [alice, bob], cfg, jwt, wl, now).0.error) == Some(NOT_ACCEPTABLE))
  {
    var alice := MoodleUser("000000000000000000000001", Some(1), "alice", "alice@x.io", None, None, None,
                            None, None, None, None, Some(true), Some(false), 0, None, None);
    var bob := MoodleUser("000000000000000000000002", Some(2), "bob", "bob@x.io", None, None, None,
                          None, None, None, None, Some(true), Some(false), 0, None, None);
    assert FindFirst([alice, bob], HasUsername("bob")) == Some(1) by {
      FindFirstIs([alice, bob], HasUsername("bob"), 1);
    }
  }

  /** When the first stored document is the named user, the two readings
      with `strictQuery` on agree. */
  lemma VersionsAgreeOnNamedFirst(req: LoginRequest, users: seq<MoodleUser>, cfg: Config, jwt: JwtLib,
                                  wl: seq<Entry>, now: int)
    requires Truthy(req.username) && |users| > 0 && users[0].user == req.username.value
    ensures LoginSpec(req, users, true, cfg, jwt, wl, now) == LoginIntended(req, users, cfg, jwt, wl, now)
  {
    FindFirstIs(users, HasUsername(req.username.value), 0);
    FirstOfAll(users, true);
  }

  /** A suspended or unconfirmed account is refused with a 403 that the
      catch turns into 406, whichever filter found the record. */
  lemma LoginBlockedAccount(req: LoginRequest, users: seq<MoodleUser>, find: string -> (MoodleUser -> bool),
                            cfg: Config, jwt: JwtLib, wl: seq<Entry>, now: int, i: nat)
    requires Truthy(req.username) && Truthy(req.email)
    requires FindFirst(users, find(req.username.value)) == Some(i)
    requires users[i].email == req.email.value
    requires users[i].suspended == Some(true) || users[i].confirmed != Some(true)
    ensures var r := LoginWith(req, users, find, cfg, jwt, wl, now);
            r.1 == wl && r.0.Err? && StatusOf(r.0.error) == Some(NOT_ACCEPTABLE)
            && StatusOf(r.0.error.body.cause) == Some(FORBIDDEN)
  {
  }

  /** A successful login signs the found record's id, e-mail and roles,
      whichever filter found it. */
  lemma LoginClaimContents(req: LoginRequest, users: seq<MoodleUser>, find: string -> (MoodleUser -> bool),
                           cfg: Config, jwt: JwtLib, wl: seq<Entry>, now: int)
    requires LoginWith(req, users, find, cfg, jwt, wl, now).0.Ok?
    ensures Truthy(req.username) && Truthy(req.email) && FindFirst(users, find(req.username.value)).Some?
    ensures var i := FindFirst(users, find(req.username.value)).value;
            var u := users[i];
            find(req.username.value)(u) && u.email == req.email.value
            && u.suspended != Some(true) && u.confirmed == Some(true)
            && LoginWith(req, users, find, cfg, jwt, wl, now).0.value == GetTokens(MoodleClaim(u), cfg, jwt).value
  {
  }

  // ------------------------------------------------------ fetch and map

  /** The element built for each Moodle user; a missing `role` becomes
      `['BASIC']` (an empty list is kept: it is truthy). */
  function MapRemote(m: RemoteUser): (f: Fetched)
    ensures f.moodleId == m.id && f.user == m.username && f.email == m.email
    ensures f.roles == (if m.role.Some? then m.role.value else BASIC)
  {
    Fetched(m.id, m.username, m.firstname, m.lastname, m.fullname, m.email, m.department,
            m.city, m.country, m.confirmed, m.suspended, m.role.GetOr(BASIC))
  }

  function MapAll(ms: seq<RemoteUser>): (fs: seq<Fetched>)
    ensures |fs| == |ms| && forall k :: 0 <= k < |ms| ==> fs[k] == MapRemote(ms[k])
  {
    if |ms| == 0 then [] else [MapRemote(ms[0])] + MapAll(ms[1..])
  }

  /** `getUsersFromMoodle`, given the outcome of the HTTP call
      (`response.data.users`, possibly missing). */
  function GetUsersFromMoodle(response: Result<Option<seq<RemoteUser>>>): (r: Result<seq<Fetched>>)
    ensures r.Ok? <==> response.Ok? && response.value.Some? && |response.value.value| > 0
    ensures r.Ok? ==> r.value == MapAll(response.value.value)
    ensures r.Err? ==> StatusOf(r.error) == Some(NOT_ACCEPTABLE)
  {
    match response
    case Err(e) => Err(HttpException(NOT_ACCEPTABLE, MessageOf(e)))
    case Ok(users) =>
      if users.None? || |users.value| == 0 then
        Err(HttpException(NOT_ACCEPTABLE, Text("No users found in Moodle!")))
      else Ok(MapAll(users.value))
  }

  /** Every fetched user carries roles: Moodle's own, or `['BASIC']`. */
  lemma FetchedRolesDefault(response: Result<Option<seq<RemoteUser>>>, k: nat)
    requires GetUsersFromMoodle(response).Ok? && k < |response.value.value|
    ensures var m := response.value.value[k];
            GetUsersFromMoodle(response).value[k].roles == (if m.role.Some? then m.role.value else BASIC)
  {
  }

  // ----------------------------------------------------------------- sync

  function HasMoodleId(id: int): MoodleUser -> bool {
    (u: MoodleUser) => u.moodleId == Some(id)
  }

  /** Mongoose's `required` on `user` and `email`. */
  function SaveCheck(u: MoodleUser): Result<MoodleUser> {
    if u.user == "" then Err(ValidationError("user"))
    else if u.email == "" then Err(ValidationError("email"))
    else Ok(u)
  }

  /** A stored record carries fetched user `f`: the fields the loop writes
      hold `f`'s values (`confirmed` may have taken the schema default). */
  predicate Mirrors(u: MoodleUser, f: Fetched) {
    u.moodleId == Some(f.moodleId) && u.user == f.user && u.email == f.email
    && u.firstname == f.firstname && u.lastname == f.lastname && u.fullname == f.fullname
    && u.department == f.department && u.city == f.city && u.country == f.country
    && u.roles == Some(f.roles) && u.suspended == f.suspended
    && (f.confirmed.Some? ==> u.confirmed == f.confirmed)
  }

  /** The insert branch: a new document with `_id` `oid`; `confirmed`
      left undefined takes the schema default `true`. */
  function Inserted(f: Fetched, oid: string, now: int): (u: MoodleUser)
    ensures Mirrors(u, f) && u.oid == oid && u.confirmed == Some(f.confirmed.GetOr(true))
    ensures u.createdAt == now && u.updatedAt.None? && u.deletedAt.None?
  {
    MoodleUser(oid, Some(f.moodleId), f.user, f.email, f.firstname, f.lastname, f.fullname,
               f.department, f.city, Some(f.roles), f.country, Some(f.confirmed.GetOr(true)),
               f.suspended, now, None, None)
  }

  /** The update branch: every listed field is overwritten and `updatedAt`
      set; the `_id`, `moodleId`, `createdAt` and `deletedAt` stay. */
  function Overwritten(u: MoodleUser, f: Fetched, now: int): (v: MoodleUser)
    requires u.moodleId == Some(f.moodleId)
    ensures Mirrors(v, f) && v.confirmed == f.confirmed && v.updatedAt == Some(now)
    ensures v.oid == u.oid && v.moodleId == u.moodleId && v.createdAt == u.createdAt && v.deletedAt == u.deletedAt
  {
    u.(user := f.user, email := f.email, firstname := f.firstname, lastname := f.lastname,
       fullname := f.fullname, department := f.department, city := f.city, country := f.country,
       roles := Some(f.roles), confirmed := f.confirmed, suspended := f.suspended, updatedAt := Some(now))
  }

  /** One iteration of the loop for fetched user `f`: the save fails iff a
      required field is empty; otherwise a new record is appended, or the
      first record with `f`'s `moodleId` is overwritten, and nothing else
      changes. */
  function SyncOne(users: seq<MoodleUser>, f: Fetched, oid: string, now: int): (r: Result<seq<MoodleUser>>)
    ensures r.Err? <==> f.user == "" || f.email == ""
    ensures r.Err? ==> r.error == ValidationError(if f.user == "" then "user" else "email")
    ensures r.Ok? && FindFirst(users, HasMoodleId(f.moodleId)).None? ==> r.value == users + [Inserted(f, oid, now)]
    ensures r.Ok? && FindFirst(users, HasMoodleId(f.moodleId)).Some? ==>
              var i := FindFirst(users, HasMoodleId(f.moodleId)).value;
              r.value == users[i := Overwritten(users[i], f, now)]
    ensures r.Ok? ==> |r.value| >= |users|
    ensures r.Ok? ==> exists j :: 0 <= j < |r.value| && Mirrors(r.value[j], f)
    ensures r.Ok? ==> forall j :: 0 <= j < |users| && users[j].moodleId != Some(f.moodleId) ==> r.value[j] == users[j]
  {
    match FindFirst(users, HasMoodleId(f.moodleId))
    case None =>
      (match SaveCheck(Inserted(f, oid, now))
       case Err(e) => Err(e)
       case Ok(u) =>
         assert (users + [u])[|users|] == u;
         Ok(users + [u]))
    case Some(i) =>
      match SaveCheck(Overwritten(users[i], f, now))
      case Err(e) => Err(e)
      case Ok(u) =>
        assert users[i := u][i] == u;
        Ok(users[i := u])
  }

  /** The loop over `fetched[k..]`; `mint(k)` is the `_id` a document
      inserted at step k receives. A failed save stops the loop and keeps
      what the earlier steps wrote; the loop completes iff every remaining
      fetched user has a `user` and an `email`. */
  function SyncFrom(users: seq<MoodleUser>, fetched: seq<Fetched>, k: nat, mint: nat -> string, now: int)
    : (r: (Result<()>, seq<MoodleUser>))
    requires k <= |fetched|
    decreases |fetched| - k
    ensures r.0.Ok? <==> forall m :: k <= m < |fetched| ==> fetched[m].user != "" && fetched[m].email != ""
  {
    if k == |fetched| then (Ok(()), users)
    else
      match SyncOne(users, fetched[k], mint(k), now)
      case Err(e) => (Err(e), users)
      case Ok(next) => SyncFrom(next, fetched, k + 1, mint, now)
  }

  /** One turn of the loop: the first step decides whether the loop stops. */
  lemma SyncStep(users: seq<MoodleUser>, fetched: seq<Fetched>, k: nat, mint: nat -> string, now: int)
    requires k < |fetched|
    ensures SyncOne(users, fetched[k], mint(k), now).Err? ==>
              SyncFrom(users, fetched, k, mint, now) == (Err(SyncOne(users, fetched[k], mint(k), now).error), users)
    ensures SyncOne(users, fetched[k], mint(k), now).Ok? ==>
              SyncFrom(users, fetched, k, mint, now) == SyncFrom(SyncOne(users, fetched[k], mint(k), now).value, fetched, k + 1, mint, now)
  {
  }

  /** `syncUsersWithCentinela`: failures, the fetch's included, are
      re-thrown as 501 with their message. The sync succeeds iff the fetch
      does and every fetched user has a `user` and an `email`; the
      collection is then what the loop leaves. */
  function SyncSpec(users: seq<MoodleUser>, response: Result<Option<seq<RemoteUser>>>, mint: nat -> string,
                    now: int): (r: (Result<()>, seq<MoodleUser>))
    ensures GetUsersFromMoodle(response).Err? ==> r.1 == users && r.0.Err?
    ensures r.0.Err? ==> StatusOf(r.0.error) == Some(NOT_IMPLEMENTED)
    ensures r.0.Ok? <==> GetUsersFromMoodle(response).Ok?
                         && forall m :: 0 <= m < |GetUsersFromMoodle(response).value| ==>
                              GetUsersFromMoodle(response).value[m].user != ""
                              && GetUsersFromMoodle(response).value[m].email != ""
    ensures GetUsersFromMoodle(response).Ok? ==>
              r.1 == SyncFrom(users, GetUsersFromMoodle(response).value, 0, mint, now).1
  {
    match GetUsersFromMoodle(response)
    case Err(e) => (Err(HttpException(NOT_IMPLEMENTED, MessageOf(e))), users)
    case Ok(fetched) =>
      var (res, after) := SyncFrom(users, fetched, 0, mint, now);
      (RethrowMessage(res, NOT_IMPLEMENTED), after)
  }

  /** Records whose `moodleId` no fetched user has are left as they were,
      and no record is removed. */
  lemma {:induction false} SyncKeepsOthers(users: seq<MoodleUser>, fetched: seq<Fetched>, k: nat,
                                           mint: nat -> string, now: int)
    requires k <= |fetched|
    decreases |fetched| - k
    ensures var after := SyncFrom(users, fetched, k, mint, now).1;
            |after| >= |users|
            && forall j :: 0 <= j < |users| && (forall m :: k <= m < |fetched| ==> users[j].moodleId != Some(fetched[m].moodleId))
                 ==> after[j] == users[j]
  {
    if k < |fetched| {
      var step := SyncOne(users, fetched[k], mint(k), now);
      if step.Ok? {
        SyncKeepsOthers(step.value, fetched, k + 1, mint, now);
      }
    }
  }

  /** After a complete sync every fetched `moodleId` has a record. */
  lemma {:induction false} SyncCovers(users: seq<MoodleUser>, fetched: seq<Fetched>, k: nat,
                                      mint: nat -> string, now: int)
    requires k <= |fetched|
    requires SyncFrom(users, fetched, k, mint, now).0.Ok?
    decreases |fetched| - k
    ensures var after := SyncFrom(users, fetched, k, mint, now).1;
            forall m :: k <= m < |fetched| ==>
              exists j :: 0 <= j < |after| && after[j].moodleId == Some(fetched[m].moodleId)
  {
    if k < |fetched| {
      var next := SyncOne(users, fetched[k], mint(k), now).value;
      SyncCovers(next, fetched, k + 1, mint, now);
      var after := SyncFrom(next, fetched, k + 1, mint, now).1;
      assert after == SyncFrom(users, fetched, k, mint, now).1;
      var j0 :| 0 <= j0 < |next| && next[j0].moodleId == Some(fetched[k].moodleId);
      SyncKeepsIds(next, fetched, k + 1, mint, now, j0);
    }
  }

  /** A record never loses its `moodleId` during the sync (the update
      branch only touches records that have the id it writes). */
  lemma {:induction false} SyncKeepsIds(users: seq<MoodleUser>, fetched: seq<Fetched>, k: nat,
                                        mint: nat -> string, now: int, j: nat)
    requires k <= |fetched| && j < |users|
    decreases |fetched| - k
    ensures var after := SyncFrom(users, fetched, k, mint, now).1;
            j < |after| && after[j].moodleId == users[j].moodleId
  {
    if k < |fetched| {
      var step := SyncOne(users, fetched[k], mint(k), now);
      if step.Ok? {
        assert step.value[j].moodleId == users[j].moodleId;
        SyncKeepsIds(step.value, fetched, k + 1, mint, now, j);
      }
    }
  }

  /** After a complete sync of users with distinct `moodleId`s, each
      fetched user is mirrored by a stored record. */
  lemma {:induction false} SyncMirrors(users: seq<MoodleUser>, fetched: seq<Fetched>, k: nat,
                                       mint: nat -> string, now: int)
    requires k <= |fetched|
    requires SyncFrom(users, fetched, k, mint, now).0.Ok?
    requires forall m, n :: k <= m < n < |fetched| ==> fetched[m].moodleId != fetched[n].moodleId
    decreases |fetched| - k
    ensures var after := SyncFrom(users, fetched, k, mint, now).1;
            forall m :: k <= m < |fetched| ==> exists j :: 0 <= j < |after| && Mirrors(after[j], fetched[m])
  {
    if k < |fetched| {
      var next := SyncOne(users, fetched[k], mint(k), now).value;
      SyncMirrors(next, fetched, k + 1, mint, now);
      SyncKeepsOthers(next, fetched, k + 1, mint, now);
      var after := SyncFrom(next, fetched, k + 1, mint, now).1;
      assert after == SyncFrom(users, fetched, k, mint, now).1;
      var j0 :| 0 <= j0 < |next| && Mirrors(next[j0], fetched[k]);
      assert after[j0] == next[j0];
    }
  }

  // --------------------------------------------------------------- delete

  datatype Deleted = Deleted(moodleId: int)

  /** `deleteUserInMoodle`: a missing record is a 404 thrown outside any
      `try`. Otherwise the local record goes first, then Moodle is called;
      its failure is re-thrown as 406 and the local record stays deleted. */
  function DeleteSpec(users: seq<MoodleUser>, moodleId: int, remote: Option<Exception>)
    : (r: (Result<Deleted>, seq<MoodleUser>))
    ensures FindFirst(users, HasMoodleId(moodleId)).None? ==>
      r == (Err(HttpException(NOT_FOUND, Text("user with ID: " + DecimalOf(moodleId) + " NOT FOUND"))), users)
    ensures FindFirst(users, HasMoodleId(moodleId)).Some? ==>
      r.1 == RemoveAt(users, FindFirst(users, HasMoodleId(moodleId)).value)
    ensures r.0.Ok? <==> FindFirst(users, HasMoodleId(moodleId)).Some? && remote.None?
  {
    match FindFirst(users, HasMoodleId(moodleId))
    case None => (Err(HttpException(NOT_FOUND, Text("user with ID: " + DecimalOf(moodleId) + " NOT FOUND"))), users)
    case Some(i) =>
      var after := RemoveAt(users, i);
      match remote
      case Some(e) => (Err(HttpException(NOT_ACCEPTABLE, MessageOf(e))), after)
      case None => (Ok(Deleted(moodleId)), after)
  }

  // ------------------------------------------------------- paging, lookup

  function Listed(matches: MoodleUser -> bool): MoodleUser -> bool {
    (u: MoodleUser) => u.deletedAt.None? && matches(u)
  }

  datatype MoodlePage = MoodlePage(users: seq<MoodleUser>, total: nat, page: int, limit: int)

  /** `findAllUsers` over the Moodle mirror. */
  function FindAllUsers(users: seq<MoodleUser>, matches: MoodleUser -> bool, page: int, limit: int)
    : (r: Result<MoodlePage>)
    ensures r.Err? <==> (page - 1) * limit < 0
    ensures r.Err? ==> r.error == HttpException(NOT_FOUND, Text("Failed to find users"))
    ensures r.Ok? ==> r.value.total == |Filter(users, Listed(matches))| && r.value.page == page && r.value.limit == limit
    ensures r.Ok? ==> forall k :: 0 <= k < |r.value.users| ==>
                        r.value.users[k] in users && r.value.users[k].deletedAt.None? && matches(r.value.users[k])
    ensures r.Ok? && limit != 0 ==> |r.value.users| <= Abs(limit)
    ensures r.Ok? ==> forall k :: 0 <= k < |r.value.users| ==>
                        0 <= (page - 1) * limit + k < |Filter(users, Listed(matches))|
                        && r.value.users[k] == Filter(users, Listed(matches))[(page - 1) * limit + k]
    ensures r.Ok? ==> |r.value.users| == PageLength(|Filter(users, Listed(matches))|, (page - 1) * limit, limit)
  {
    var q := Filter(users, Listed(matches));
    match SkipLimit(q, (page - 1) * limit, limit)
    case None => Err(HttpException(NOT_FOUND, Text("Failed to find users")))
    case Some(view) =>
      assert forall k :: 0 <= k < |view| ==> view[k] in q;
      Ok(MoodlePage(view, |q|, page, limit))
  }

  /** `findOne(id)` with whatever value the caller passes: an undefined id
      finds nothing, a number or a malformed string fails the ObjectId
      cast; every failure is re-thrown as 406. */
  function FindOne(users: seq<MoodleUser>, id: Option<Id>): (r: Result<MoodleUser>)
    ensures r.Ok? <==> id.Some? && id.value.Str? && IsMongoId(id.value.s)
                       && exists j :: 0 <= j < |users| && users[j].oid == id.value.s
    ensures r.Ok? ==> r.value in users && r.value.oid == id.value.s
    ensures r.Err? ==> StatusOf(r.error) == Some(NOT_ACCEPTABLE)
  {
    match id
    case None => Err(HttpException(NOT_ACCEPTABLE, Text("User not found")))
    case Some(Num(n)) => Err(HttpException(NOT_ACCEPTABLE, MessageOf(CastError(DecimalOf(n)))))
    case Some(Str(s)) =>
      match FindById(users, MoodleOid, s)
      case Err(e) => Err(HttpException(NOT_ACCEPTABLE, MessageOf(e)))
      case Ok(None) => Err(HttpException(NOT_ACCEPTABLE, Text("User not found")))
      case Ok(Some(i)) => Ok(users[i])
  }

  // ---------------------------------------------------------------- store

  class MoodleStore {
    var users: seq<MoodleUser>

    constructor(initial: seq<MoodleUser>)
      ensures users == initial
    {
      users := initial;
    }

    /** `strictQuery` is the Mongoose setting that decides what the
        `username` filter becomes. */
    method LoginWithMoodle(req: LoginRequest, strictQuery: bool, cfg: Config, jwt: JwtLib, wl: WhitelistStore,
                           now: int)
      returns (r: Result<Tokens>)
      modifies wl
      ensures (r, wl.entries) == LoginSpec(req, users, strictQuery, cfg, jwt, old(wl.entries), now)
    {
      if !Truthy(req.username) || !Truthy(req.email) {
        return Err(CREDENTIALS_REQUIRED);
      }
      var found := FindFirst(users, UsernameFilter(strictQuery));
      if found.None? {
        return Err(NOT_IN_CENTINELA);
      }
      var u := users[found.value];
      if u.email != req.email.value {
        return Err(CREDENTIALS_MISMATCH);
      }
      var tokens := LoginTokens(u, cfg, jwt);
      if tokens.Err? {
        return Err(HttpException(NOT_ACCEPTABLE, Prefixed(LOGIN_PREFIX, tokens.error)));
      }
      var w := wl.WhitelistJwt(tokens.value, now);
      if w.Err? {
        return Err(HttpException(NOT_ACCEPTABLE, Prefixed(LOGIN_PREFIX, w.error)));
      }
      r := tokens;
    }

    method SyncUsersWithCentinela(response: Result<Option<seq<RemoteUser>>>, mint: nat -> string, now: int)
      returns (r: Result<()>)
      modifies this
      ensures (r, users) == SyncSpec(old(users), response, mint, now)
    {
      var fetched := GetUsersFromMoodle(response);
      if fetched.Err? {
        return Err(HttpException(NOT_IMPLEMENTED, MessageOf(fetched.error)));
      }
      var fs := fetched.value;
      var k := 0;
      while k < |fs|
        invariant 0 <= k <= |fs|
        invariant SyncFrom(users, fs, k, mint, now) == SyncFrom(old(users), fs, 0, mint, now)
      {
        var existing := FindFirst(users, HasMoodleId(fs[k].moodleId));
        var candidate := if existing.None? then Inserted(fs[k], mint(k), now)
                         else Overwritten(users[existing.value], fs[k], now);
        var saved := SaveCheck(candidate);
        SyncStep(users, fs, k, mint, now);
        if saved.Err? {
          return Err(HttpException(NOT_IMPLEMENTED, MessageOf(saved.error)));
        }
        if existing.None? {
          users := users + [saved.value];
        } else {
          users := users[existing.value := saved.value];
        }
        k := k + 1;
      }
      r := Ok(());
    }

    method DeleteUserInMoodle(moodleId: int, remote: Option<Exception>) returns (r: Result<Deleted>)
      modifies this
      ensures (r, users) == DeleteSpec(old(users), moodleId, remote)
    {
      var found := FindFirst(users, HasMoodleId(moodleId));
      if found.None? {
        return Err(HttpException(NOT_FOUND, Text("user with ID: " + DecimalOf(moodleId) + " NOT FOUND")));
      }
      users := RemoveAt(users, found.value);
      if remote.Some? {
        return Err(HttpException(NOT_ACCEPTABLE, MessageOf(remote.value)));
      }
      r := Ok(Deleted(moodleId));
    }
  }
}
