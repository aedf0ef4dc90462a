# auth-firebase, modelled in Dafny

This project models the decision rules and table operations of the
auth-firebase NestJS service, and proves properties about them. The service
issues and checks JSON Web Tokens for users who sign in through Firebase or
Moodle. It keeps a whitelist of live access tokens. It guards routes by
role, by bearer token and by API key. It also stores roles, users, Moodle
users, hashed API keys and one-time codes (OTPs) in Mongo collections.

Each collection is a sequence of documents in natural order:

- `findOne` is the first match (`Store.FindFirst`).
- `find` keeps every match in store order (`Store.Filter`).
- `findById` first casts the id to an ObjectId (`Store.FindById`).
- `.skip().limit()` take a window (`Store.SkipLimit`).
- A `save` of a found document replaces that element.

Every `catch` that re-wraps an error is modelled explicitly. The caught
exception stays inside the new one (`Common.Message`), so a 500 around a 404
is told apart from a 404.

The services that change a collection are classes whose field is that
collection:

- `WhitelistStore`, `UserStore`, `MoodleStore`, `RoleStore`,
  `ApiKeyStore`, `OtpCollection`.
- Each method is proved equal to a specification function that returns the
  result and the new collection. The properties are lemmas about those
  functions.
- Loops the source has stay loops with invariants: the API-key scan, the
  role-code scan, the six-digit code generation and the Moodle sync.

Pure decision code is written as functions:

- the roles guard;
- the token-validation chain;
- the bearer-header parsing;
- the secret and expiry selection;
- the refresh coordinator;
- the DTO validators;
- the exception filter's classification.

What the service gets from outside the process is a parameter:

- **JWT:** `sign` and `verify` (`Jwt.JwtLib`).
- **Firebase Admin:** `verifyIdToken`, `getUser` and the account calls (`Identity.Firebase`).
- **bcrypt:** `hash` and `compare` (`ApiKeyService.Bcrypt`).
- **Moodle:** the HTTP answer.
- **Mongoose:** the `strictQuery` setting, which decides what a filter on a path the schema does not declare becomes.
- **Time and randomness:**
  - the clock, as integer milliseconds;
  - each `Math.random()` draw, as a real in `[0, 1)`;
  - fresh Mongo ids and uuids.
- **Environment:** the settings read from it (`Jwt.Config`).

Where the code's order of effects matters, the model keeps it:

- a user is saved before the tokens are signed;
- a code is saved before the mail is sent;
- a local Moodle record is deleted before the remote call.

Behaviour that follows the code rather than the documented intent:

- A registration spreads the request after `accessMethod`, `id` and
  `metadata`, so a request that carries its own `accessMethod` wins
  (src/modules/user/service/user.service.ts:65-76).
- A filter key whose value is undefined is dropped, so `findOne({ id:
  undefined })` is `findOne({})` and gives the first document
  (`UserEntity.HasId`, `UserEntity.HasEmail`).
- The user services read and write `role`, while the schema declares
  `roles` (src/modules/user/entities/user.entity.ts:39-40). The strict
  schema drops `role`, so the model stores no role and signs none.
- Moodle login filters on `username`, while the schema field is `user`
  (src/modules/moodle/entities/moodle.entity.ts:11-12). With `strictQuery`
  on, the path is stripped and every login checks the first document. With
  it off, no document matches and every login is a 404.
- The global `ValidationPipe()` is built without `whitelist`
  (src/main.ts:13), so properties a DTO does not declare reach the handlers
  that spread the request. See "## Left out".
- The global `ValidationPipe()` validates a copy with the `@Transform`
  lowercasing applied, but a pipe built without options or `transform`
  hands the handler the value it received, so the body as sent, case and
  all (`MoodleUserDto.Pipe`). The lowercasing only decides what passes
  the validators. The model follows `ValidationPipe` as Nest 10 ships it;
  package.json is not part of this model.

The seven discrepancies listed under "## Findings" are each modelled twice.
One member is the code as written, with a lemma that exhibits the problem.
The other is a corrected version, with the intended property proved about
it.

## Model

| member | source | states |
|---|---|---|
| WhiteListService.FirstEntry | src/Libs/auth/utils/services/whiteList.service.ts:37 | `findOne({ token })`: the index of an entry with the token and none before it; none exactly when no entry has the token |
| WhiteListService.IsLive | src/Libs/auth/utils/services/whiteList.service.ts:61-67 | a token is live exactly when its first entry exists and is active |
| WhiteListService.AppendSpec | src/Libs/auth/utils/services/whiteList.service.ts:20-33 | a non-empty access token is appended with status true; an empty one is refused by the schema and re-thrown as 501 with the store unchanged |
| WhiteListService.RevokeSpec | src/Libs/auth/utils/services/whiteList.service.ts:35-58 | logout succeeds exactly when the token is live, with the fixed reply; every failure is a 501 that leaves the store unchanged; the store keeps its size |
| WhiteListService.WhitelistStore.WhitelistJwt | src/Libs/auth/utils/services/whiteList.service.ts:20-33 | result and new entries are those of `AppendSpec` on the old entries |
| WhiteListService.WhitelistStore.WhiteListChangeStatus | src/Libs/auth/utils/services/whiteList.service.ts:35-58 | result and new entries are those of `RevokeSpec` on the old entries |
| WhiteListService.WhitelistStore.WhiteListValidateToken | src/Libs/auth/utils/services/whiteList.service.ts:61-74 | returns whether the token is live, changing nothing |
| WhiteListService.RevokeThenNotLive | src/Libs/auth/utils/services/whiteList.service.ts:35-52 | revoking a live token succeeds and the token is no longer live afterwards |
| WhiteListService.RevokeTwiceFails | src/Libs/auth/utils/services/whiteList.service.ts:39-40 | a second logout with the same token fails and changes nothing |
| WhiteListService.RevokeUnknown | src/Libs/auth/utils/services/whiteList.service.ts:37-39 | a token that was never issued fails through the null dereference, re-thrown as 501 |
| WhiteListService.RevokeTouchesFirstOnly | src/Libs/auth/utils/services/whiteList.service.ts:42-44 | logout flips the status of the first entry for the token and of no other entry |
| WhiteListService.DuplicateAppend | src/Libs/auth/utils/services/whiteList.service.ts:22-26 | registering the same token twice records two entries |
| WhiteListService.ReRegisterStaysRevoked | src/Libs/auth/utils/services/whiteList.service.ts:20-44 | a revoked token registered again stays not live, since its revoked entry stays first |
| GetTokensService.GetTokens | src/Libs/auth/utils/services/getTokens.service.ts:11-29 | succeeds exactly when a secret is configured (else 501 'JWT_SECRET is not set'); the constant secret wins over the environment one; the expiry defaults to 15m; no refresh token is issued |
| GetTokensService.IssuedTokenVerifies | src/Libs/auth/utils/services/getTokens.service.ts:11-29 | with a sound library, the issued access token verifies under the signing secret to the payload it was signed with |
| UserEntity.MissingRequired | src/modules/user/entities/user.entity.ts:12-37 | a user saves exactly when its required string paths (firebaseId, email, accessMethod, termsVersion, metadataTerms) are non-empty |
| UserEntity.UndefinedMatchesFirst | src/Libs/auth/utils/services/validateTokens.service.ts:20 | a filter on an undefined `email` or `id` matches every document, so `findOne` gives the first document, or none in an empty collection |
| ValidateTokenService.ValidateTokens | src/Libs/auth/utils/services/validateTokens.service.ts:16-38 | valid exactly when the token verifies with the module's secret, the first user whose `id` is the payload's top-level `id` (the first user of all when the payload has none, since the undefined key is dropped) exists and is not deleted, and the token is live; every failure is the inner error wrapped as 501 |
| ValidateTokenService.VerifyFailsFirst | src/Libs/auth/utils/services/validateTokens.service.ts:18 | a token that does not verify is refused with its verification error, whatever the users and the whitelist hold |
| ValidateTokenService.NotLiveFails | src/Libs/auth/utils/services/validateTokens.service.ts:25-29 | a verified token of a stored, undeleted user that is not live fails with 'Invalid token...' wrapped as 501 |
| ValidateTokenService.MintedTokenOutcome | src/Libs/auth/utils/services/validateTokens.service.ts:18-31 | for a token carrying only `{ sub }`, as every token the service signs does, the lookup is `findOne({})`: an empty collection fails on `deletedAt` of null, a deleted first user gives 'User invalid' and a token that is not live 'Invalid token...', each wrapped as 501; otherwise the token is valid, whoever it names |
| ValidateTokenService.ValidateTokensIntended | src/Libs/auth/utils/services/validateTokens.service.ts:16-38 | with the lookup on `sub.id`: valid exactly when the token verifies, the first user its subject names exists and is not deleted, and the token is live; a failure is the inner error wrapped as 501 |
| ValidateTokenService.UnboundTokenValidates | src/Libs/auth/utils/services/validateTokens.service.ts:20-31 | a live token whose subject names no stored user is accepted as written once the first stored user is undeleted, and refused by the intended lookup |
| ValidateTokenService.UnboundTokenExample | src/Libs/auth/utils/services/validateTokens.service.ts:20 | one stored user `a` and a live token for `b`: the written check accepts it, the intended one refuses it |
| ValidateTokenService.VersionsAgreeOnNamedFirstUser | src/Libs/auth/utils/services/validateTokens.service.ts:20-31 | when the subject names the first stored user, the written and the intended validation give the same answer |
| AuthService.LoginSpec | src/Libs/auth/services/auth.service.ts:23-54 | every failure is a 406 that whitelists nothing; the login succeeds exactly when verification, the Firebase lookup, the stored-user lookup and the signing all succeed and the access token is not empty, and then returns those tokens and appends exactly that access token, active, to the whitelist |
| AuthService.LoginUnknownEmail | src/Libs/auth/services/auth.service.ts:31-33 | a Firebase account with an e-mail that no stored user has fails with 'User not found' wrapped as 406, and nothing is whitelisted |
| AuthService.LoginWithoutEmail | src/Libs/auth/services/auth.service.ts:31-43 | a Firebase account without an e-mail makes the lookup `findOne({})`: an empty collection gives the wrapped 404 and whitelists nothing; otherwise the account's tokens are signed, whichever user is stored first |
| AuthService.LoginClaimContents | src/Libs/auth/services/auth.service.ts:31-43 | a successful login comes from an account some stored user shares the e-mail with, and signs the Firebase uid and e-mail with no role, since `user.role` is not a schema path |
| AuthService.LoginTokenCarriesUid | src/Libs/auth/services/auth.service.ts:35-43 | with a sound signer, the returned token verifies under the signing secret to a claim whose id is the Firebase uid |
| AuthService.LogoutSpec | src/Libs/auth/services/auth.service.ts:56-65 | logout succeeds exactly when the token is live and leaves it not live; a failure is a 501 around the whitelist's own 501 and changes nothing |
| AuthService.ValidateToken | src/Libs/auth/services/auth.service.ts:67-76 | succeeds exactly when the validator does; a failure is the validator's error wrapped as 501 again |
| AuthService.Login | src/Libs/auth/services/auth.service.ts:23-54 | outcome and new whitelist are those of `LoginSpec`, so it succeeds under exactly the same conditions |
| AuthService.Logout | src/Libs/auth/services/auth.service.ts:56-65 | outcome and new whitelist are those of `LogoutSpec` |
| JwtAuthGuard.Split | src/Libs/Guards/jwt-auth/jwt-auth.guard.ts:63 | `split(' ')` gives at least one field and no field holds the separator |
| JwtAuthGuard.JoinSplit | src/Libs/Guards/jwt-auth/jwt-auth.guard.ts:63 | joining the fields of a split with the separator gives back the header |
| JwtAuthGuard.SplitPrefix | src/Libs/Guards/jwt-auth/jwt-auth.guard.ts:63 | a field without the separator followed by the separator comes first in the split of the rest |
| JwtAuthGuard.SplitJoin | src/Libs/Guards/jwt-auth/jwt-auth.guard.ts:63 | splitting a join of separator-free fields gives back the fields |
| JwtAuthGuard.SplitNoSep | src/Libs/Guards/jwt-auth/jwt-auth.guard.ts:63 | a string without the separator splits into itself alone |
| JwtAuthGuard.SecondField | src/Libs/Guards/jwt-auth/jwt-auth.guard.ts:63 | `split(' ')[1]` is defined exactly when the header holds a space |
| JwtAuthGuard.SecondFieldOfAnyScheme | src/Libs/Guards/jwt-auth/jwt-auth.guard.ts:63-66 | the token is taken by position: any first word, not only `Bearer`, yields the second field |
| JwtAuthGuard.LoggedAccessToken | src/Libs/Guards/jwt-auth/jwt-auth.guard.ts:28-38 | the logged token is 'undefined' unless the header starts with 'Bearer ' |
| JwtAuthGuard.LoggedBearerToken | src/Libs/Guards/jwt-auth/jwt-auth.guard.ts:36-38 | for `Bearer <token>` the logged token is the token |
| JwtAuthGuard.RetryIsRedundant | src/Libs/Guards/jwt-auth/jwt-auth.guard.ts:70-102 | the validator ignores the secret passed to it, so the retry with the refresh secret gives the first attempt's outcome |
| JwtAuthGuard.GuardSpec | src/Libs/Guards/jwt-auth/jwt-auth.guard.ts:24-158 | a missing header, a missing second field and a refused token give their three fixed 401s; a pass means the validator accepted the token and the final verification gave the subject; every refusal is a 401 |
| JwtAuthGuard.GuardRefusesMintedTokens | src/Libs/Guards/jwt-auth/jwt-auth.guard.ts:70-102 | a token carrying only `{ sub }`, as every token the service signs does, is refused with 'Invalid token' when the collection is empty, its first user is deleted or the token is not live |
| JwtAuthGuard.GuardAdmitsMintedTokens | src/Libs/Guards/jwt-auth/jwt-auth.guard.ts:24-158 | a token carrying only `{ sub }` that verifies under both secrets passes with its subject when the first stored user is undeleted and the token is live, whichever user it names |
| JwtAuthGuard.CanActivate | src/Libs/Guards/jwt-auth/jwt-auth.guard.ts:24-158 | on a pass returns true and writes the subject's `id` and `roles` to the request body; on a refusal throws the guard's error and leaves the body unchanged |
| JwtAuthGuard.Attempts | src/Libs/Guards/jwt-auth/jwt-auth.guard.ts:69-101 | the outcome of the two attempts is the first attempt's success, or a failure |
| RolesGuard.CanActivate | src/Libs/Guards/guard-roles/roles.guard.ts:22-68 | a public route passes; a pass is always `true`; a refusal is the 401 or a runtime TypeError; with no roles and no admin key the route is open; with an admin key it depends on the caller holding it (an empty role list gets the 401); with roles it passes exactly when the caller shares one |
| RolesGuard.AdminIgnoredWithRoles | src/Libs/Guards/guard-roles/roles.guard.ts:43-58 | once required roles are declared, the admin key does not affect the decision |
| RolesGuard.AdminFallThrough | src/Libs/Guards/guard-roles/roles.guard.ts:46-58 | a caller with roles but without the admin key gets a failing `roles.some` on undefined roles: a TypeError, neither a pass nor the 401 |
| RolesGuard.AdminFallThroughExample | src/Libs/Guards/guard-roles/roles.guard.ts:46-58 | the caller `["BASIC"]` on an `ADMIN` route gets the TypeError |
| RolesGuard.CanActivateIntended | src/Libs/Guards/guard-roles/roles.guard.ts:43-55 | with the admin branch closed by the 401: for a caller with a role list the answer is a pass or the 401, and on admin routes it passes exactly when the caller holds the key |
| RolesGuard.IntendedDiffersOnlyOnFallThrough | src/Libs/Guards/guard-roles/roles.guard.ts:46-58 | the written and the corrected decision differ exactly on the fall-through inputs |
| UserService.NewUser | src/modules/user/service/user.service.ts:65-76 | the new document takes the Firebase uid and e-mail, the provider (default 'password') unless the request names an access method, a fresh uuid unless the request carries an `id`, the request's declared properties, the creation time, an empty `roles` (the request's `role` has no schema path) and no deletion |
| UserService.RegistrationIdentity | src/modules/user/service/user.service.ts:32-56 | without a truthy Firebase token the request is refused with 'Insufficient data for registration' (the e-mail branch needs an unassigned `password`) |
| UserService.RegisterSpec | src/modules/user/service/user.service.ts:27-96 | every failure is a 406 that whitelists nothing; the collection either stays as it was or gains exactly the new user; registration succeeds exactly when the Firebase identity is obtained, no stored user has its e-mail, the new document has every required field and its claim signs to a non-empty access token, and then returns those tokens, stores the new user and whitelists that access token |
| UserService.RegisterNeedsToken | src/modules/user/service/user.service.ts:35-56 | without a token registration fails with 406 around the 400, and stores and whitelists nothing |
| UserService.RegisterDuplicate | src/modules/user/service/user.service.ts:58-63 | a Firebase identity whose e-mail is already stored is refused and nothing is stored or whitelisted |
| UserService.RegisterSuccess | src/modules/user/service/user.service.ts:58-89 | a success stores exactly the new user (whose e-mail no earlier user had), whitelists exactly the returned access token, signed over the new user's uuid and e-mail with no role |
| UserService.RegisterSavesBeforeSigning | src/modules/user/service/user.service.ts:78-85 | with no signing secret the call fails, but the new user has already been stored |
| UserService.UpdateRoleSpec | src/modules/user/service/user.service.ts:138-154 | succeeds exactly when the id is an ObjectId held by a record; a malformed id is a 500 with the cast error's message and every failure a 500; a success returns the stored record with that `_id` as it was; the collection never changes, since `role` is not a schema path |
| UserService.NewUserIntended | src/modules/user/service/user.service.ts:65-76 | with the role on the declared path: the document `register` builds, except that `roles` holds the requested role |
| UserService.UpdateRoleIntended | src/modules/user/service/user.service.ts:138-154 | with the declared path written: it succeeds and fails exactly as written; a success returns the record with that `_id` whose `roles` hold the role, written back in place |
| UserService.RoleNeverStored | src/modules/user/service/user.service.ts:65-148 | as written a requested role reaches neither the store nor a token: the new user has empty `roles`, its claim has no role, and `updateRole` leaves the collection as it was |
| UserService.IntendedRoleReadsBack | src/modules/user/service/user.service.ts:143-150 | after the intended update, `findOne` of that id gives a record whose `roles` hold the requested role |
| UserService.RemoveMissingIs501 | src/modules/user/service/user.service.ts:158-174 | a missing user is reported as 501, not 404, because the thrown exception is not a `NotFoundException` |
| UserService.RemoveMarksOnlyTarget | src/modules/user/service/user.service.ts:156-166 | the soft delete sets `deletedAt` and `deletedBy` on the record with that `_id`, whatever Firebase answers, and leaves every other record as it was |
| UserService.FindAllUsers | src/modules/user/service/user.service.ts:178-209 | a negative skip gives 404 'Failed to find users'; otherwise `total` counts every undeleted match, and the page is the run of undeleted matches in store order from offset `(page-1)*limit`, as long as `abs(limit)` allows (no bound for 0) and the matches remaining; the reply echoes `page` and `limit` |
| UserService.RemovedNotListed | src/modules/user/service/user.service.ts:162-185 | a soft-deleted user is never listed again |
| UserService.FindOne | src/modules/user/service/user.service.ts:222-231 | succeeds exactly when the id is an ObjectId held by a record, which it returns; every failure is a 403 |
| UserService.UserStore.Register | src/modules/user/service/user.service.ts:27-96 | outcome, collection and whitelist are those of `RegisterSpec`, so it succeeds under exactly the same conditions |
| UserService.UserStore.UpdateRole | src/modules/user/service/user.service.ts:138-154 | outcome is that of `UpdateRoleSpec`, and the collection stays as it was |
| UserService.UserStore.RemoveUser | src/modules/user/service/user.service.ts:156-176 | outcome and collection are those of `RemoveUserSpec` |
| UserService.RemoveUserSpec | src/modules/user/service/user.service.ts:156-176 | a record with that ObjectId is soft-deleted in place (`deletedAt` now, `deletedBy` the caller); the call succeeds exactly then and when Firebase deletes the account; a malformed id is the 501 'Error when trying to delete user' changing nothing; a Firebase failure goes through the catch after the record was marked; the collection keeps its size |
| MoodleService.LoginSpec | src/modules/moodle/service/moodle.service.ts:57-115 | as written the username never selects the record: a missing username or e-mail gives 400; with `strictQuery` off, or an empty collection, every login is 404; otherwise the first stored document is checked, another e-mail giving 400; all three unwrapped; when its e-mail matches, a failure of the account checks or the signing is that error under 406, and tokens with a non-empty access token are returned and whitelisted; a failure whitelists nothing; a success signs that document and whitelists exactly the returned access token |
| MoodleService.LoginWith | src/modules/moodle/service/moodle.service.ts:57-115 | with the record found by a filter on the username: a missing username or e-mail gives 400, no record 404 and a different e-mail 400, all unwrapped; with the first found record's e-mail matching, a failure of the account checks or the signing is that error under 406, and tokens with a non-empty access token are returned and whitelisted, an empty one giving a 406; a failure whitelists nothing; a success whitelists exactly the returned access token |
| MoodleService.FirstOfAll | src/modules/moodle/service/moodle.service.ts:67 | the filter as written finds the first document when `strictQuery` is on and the collection is not empty, and nothing otherwise |
| MoodleService.LoginIntended | src/modules/moodle/service/moodle.service.ts:57-115 | with the filter on `user`: a missing username or e-mail gives 400; no record with that `user` 404; the first such record with another e-mail 400; with its e-mail matching, a failure of the account checks or the signing is that error under 406, and tokens with a non-empty access token are returned and whitelisted; a success comes from a record whose `user` is the username and whose e-mail is the given one, and signs it; a failure whitelists nothing |
| MoodleService.LoginIgnoresUsername | src/modules/moodle/service/moodle.service.ts:67 | the written login gives the same outcome for any other non-empty username |
| MoodleService.LoginByUsernameExample | src/modules/moodle/service/moodle.service.ts:67-79 | with `alice` stored before `bob`, `bob`'s login is 400 as written with `strictQuery` on (alice's record is checked) and 404 with it off, while the intended login reaches `bob` and can fail only inside the `try` |
| MoodleService.VersionsAgreeOnNamedFirst | src/modules/moodle/service/moodle.service.ts:67 | with `strictQuery` on and the named user stored first, the written and the intended login agree |
| MoodleService.LoginBlockedAccount | src/modules/moodle/service/moodle.service.ts:83-114 | whichever filter finds the record, a suspended or unconfirmed account is refused with a 403 re-thrown as 406, whitelisting nothing |
| MoodleService.LoginClaimContents | src/modules/moodle/service/moodle.service.ts:98-108 | whichever filter finds the record, a success comes from a record the filter accepts, with the given e-mail, not suspended and confirmed, and signs the record's id, e-mail and roles |
| MoodleService.MapRemote | src/modules/moodle/service/moodle.service.ts:171-184 | each fetched element copies the Moodle id, username and e-mail, and takes Moodle's roles or `['BASIC']` |
| MoodleService.MapAll | src/modules/moodle/service/moodle.service.ts:171 | the mapping keeps the length and maps element by element |
| MoodleService.GetUsersFromMoodle | src/modules/moodle/service/moodle.service.ts:150-188 | succeeds exactly when the call answers a non-empty user list, giving its mapping; every failure, the 404 'No users found in Moodle!' included, is re-thrown as 406 |
| MoodleService.FetchedRolesDefault | src/modules/moodle/service/moodle.service.ts:183 | every fetched user carries Moodle's roles or `['BASIC']` |
| MoodleService.SyncOne | src/modules/moodle/service/moodle.service.ts:227-264 | the save fails exactly when the fetched `user` or `email` is empty, with a validation error naming that path; otherwise a user with an unknown `moodleId` is appended as a new document, the first record with a known one is overwritten in place, and nothing else changes |
| MoodleService.Inserted | src/modules/moodle/service/moodle.service.ts:232-246 | the new document holds the fetched user's fields, the new `_id`, `confirmed` defaulting to true, `createdAt` now and no update or deletion time |
| MoodleService.Overwritten | src/modules/moodle/service/moodle.service.ts:250-261 | the found document takes the fetched user's fields and `updatedAt` now, and keeps its `_id`, `moodleId`, `createdAt` and `deletedAt` |
| MoodleService.SyncFrom | src/modules/moodle/service/moodle.service.ts:226-264 | the loop completes exactly when every remaining fetched user has a `user` and an `email` |
| MoodleService.SyncSpec | src/modules/moodle/service/moodle.service.ts:219-269 | a failed fetch changes nothing; the sync succeeds exactly when the fetch does and every fetched user has a `user` and an `email`, and after the fetch the collection is what the loop leaves; every failure is reported as 501 |
| MoodleService.SyncKeepsOthers | src/modules/moodle/service/moodle.service.ts:226-264 | records whose `moodleId` no fetched user has are left as they were by the whole loop |
| MoodleService.SyncCovers | src/modules/moodle/service/moodle.service.ts:226-264 | after a complete sync every fetched `moodleId` has a record |
| MoodleService.SyncMirrors | src/modules/moodle/service/moodle.service.ts:226-264 | after a complete sync of fetched users with distinct `moodleId`s, every fetched user's fields are held by a stored record |
| MoodleService.SyncKeepsIds | src/modules/moodle/service/moodle.service.ts:249-263 | the loop never changes the `moodleId` of an existing record |
| MoodleService.DeleteSpec | src/modules/moodle/service/moodle.service.ts:190-217 | no record gives the unwrapped 404 naming the id and changes nothing; otherwise the first record with that `moodleId` is removed before Moodle is called, and the call succeeds exactly when Moodle does |
| MoodleService.FindAllUsers | src/modules/moodle/service/moodle.service.ts:117-148 | a negative skip gives 404 'Failed to find users'; otherwise `total` counts every undeleted match, and the page is the run of undeleted matches in store order from offset `(page-1)*limit`, as long as `abs(limit)` allows (no bound for 0) and the matches remaining; the reply echoes `page` and `limit` |
| MoodleService.FindOne | src/modules/moodle/service/moodle.service.ts:270-279 | succeeds exactly when the id is an ObjectId string held by a record, which it returns; every failure is a 406 |
| MoodleService.MoodleStore.LoginWithMoodle | src/modules/moodle/service/moodle.service.ts:57-115 | for the given `strictQuery`, outcome and new whitelist are those of `LoginSpec`, its successes included |
| MoodleService.MoodleStore.SyncUsersWithCentinela | src/modules/moodle/service/moodle.service.ts:219-269 | outcome and new store are those of `SyncSpec` |
| MoodleService.MoodleStore.DeleteUserInMoodle | src/modules/moodle/service/moodle.service.ts:190-217 | outcome and new store are those of `DeleteSpec` |
| MoodleService.SyncStep | src/modules/moodle/service/moodle.service.ts:226-264 | one turn of the loop: a failed save stops the sync with the collection as the earlier turns left it; otherwise the sync goes on from the updated collection |
| RefreshService.Caught | src/Libs/auth/utils/services/refresh.service.ts:59-70 | the outer catch turns an expired token into 406 'Refresh token has expired' and anything else into 401 'Refresh token failed: ' with the error's message |
| RefreshService.Lookup | src/Libs/auth/utils/services/refresh.service.ts:30-48 | a Firebase record gives its id and e-mail; a Firebase error other than 'auth/user-not-found' is re-thrown; on that code the Moodle `findOne` decides, and a Moodle record gives its `moodleId` and e-mail |
| RefreshService.Reissue | src/Libs/auth/utils/services/refresh.service.ts:26-58 | a payload without `sub` fails on `sub.id`; a failed lookup passes its error on; otherwise the new claim carries the found id and e-mail and the old token's roles, signed by `getTokens` and not whitelisted |
| RefreshService.RefreshTokens | src/Libs/auth/utils/services/refresh.service.ts:17-72 | a verification failure escapes unwrapped; otherwise success is the reissue's and a failure is its error through the outer catch |
| RefreshService.ExpiredRefreshEscapes | src/Libs/auth/utils/services/refresh.service.ts:19-64 | an expired refresh token escapes as the raw library error, with no HTTP status |
| RefreshService.NeverReportsExpiry | src/Libs/auth/utils/services/refresh.service.ts:59-64 | with libraries that fail only in their own ways, no input yields the 406 'Refresh token has expired' |
| RefreshService.ReissueNeverExpires | src/Libs/auth/utils/services/refresh.service.ts:26-58 | nothing inside the outer `try` throws an expiry error |
| RefreshService.FirebaseRefreshDropsId | src/Libs/auth/utils/services/refresh.service.ts:32-57 | a refresh through Firebase succeeds but signs a claim without `id`, since a `UserRecord` has `uid` and no `id` |
| RefreshService.RefreshTokensIntended | src/Libs/auth/utils/services/refresh.service.ts:17-72 | with the verification inside the `try`: an expired token gives the 406, and every other failure is a 401 |
| RefreshService.IntendedRefreshKeepsSubject | src/Libs/auth/utils/services/refresh.service.ts:32-58 | the corrected refresh through Firebase returns a token that verifies to the Firebase uid, the record's e-mail and the old roles |
| RefreshService.VersionsAgreeOnMoodlePath | src/Libs/auth/utils/services/refresh.service.ts:33-48 | for a verified token whose subject Firebase does not return, the written and the corrected refresh agree |
| ApiKeyService.KeyChar | src/modules/x-api-keys/service/api-key.service.ts:181 | one draw of `Math.random()` gives one base-36 digit, a character of `0-9a-z` |
| ApiKeyService.Base36Digit | src/modules/x-api-keys/service/api-key.service.ts:181 | `toString(36)` of a digit value below 36 is a character of `0-9a-z` |
| ApiKeyService.GenerateApiKey | src/modules/x-api-keys/service/api-key.service.ts:178-186 | the key has 30 characters, each a base-36 digit given by its own draw |
| ApiKeyService.Spell | src/modules/x-api-keys/service/api-key.service.ts:180-182 | one character per draw, in order |
| ApiKeyService.CreateSpec | src/modules/x-api-keys/service/api-key.service.ts:17-47 | fails (403) exactly when the hash is empty, changing nothing; otherwise returns the plaintext with `isActive` true and appends a record holding its hash, the request's fields, `usageCount` 0 and `isActive` true |
| ApiKeyService.UpdateLastUsed | src/modules/x-api-keys/service/api-key.service.ts:161-176 | fails (406) exactly for a non-ObjectId id, changing nothing; otherwise stamps `lastUsedAt` on the first record with that id and touches no other record |
| ApiKeyService.Consume | src/modules/x-api-keys/service/api-key.service.ts:132-148 | a capped match is deactivated and validation fails; otherwise its count rises by one, it may be stamped, and the result is `true` exactly when the stamp succeeds; other records change at most by a stamp on the same id |
| ApiKeyService.ConsumeOneRecord | src/modules/x-api-keys/service/api-key.service.ts:144-148 | with unique ids, an uncapped use counts one and stamps exactly that record, every other record unchanged |
| ApiKeyService.ValidateSpec | src/modules/x-api-keys/service/api-key.service.ts:120-159 | no active record fails with 501; `false` exactly when records are active but none matches, with nothing changed; otherwise the first active match decides; every failure is 501 'Error validating API key' |
| ApiKeyService.ValidateKeepsCaps | src/modules/x-api-keys/service/api-key.service.ts:132-144 | validation never pushes an active record past its cap |
| ApiKeyService.ValidateNeverActivates | src/modules/x-api-keys/service/api-key.service.ts:120-151 | an inactive record stays inactive |
| ApiKeyService.ValidateCountsOneUse | src/modules/x-api-keys/service/api-key.service.ts:144-148 | when the first active match is under its cap, validation succeeds, counts one use of exactly that record and stamps it, leaving the others unchanged |
| ApiKeyService.CappedKeyStaysRefused | src/modules/x-api-keys/service/api-key.service.ts:132-143 | a match at its cap fails, and with no other record answering to the key no later validation succeeds |
| ApiKeyService.IssuedKeyValidates | src/modules/x-api-keys/service/api-key.service.ts:17-148 | a key just issued validates, when no earlier active record answers to it and its cap allows a use |
| ApiKeyService.RevokeSpec | src/modules/x-api-keys/service/api-key.service.ts:83-98 | succeeds exactly for an ObjectId held by a record, and then deactivates the first record with it; every failure is 501 and changes nothing |
| ApiKeyService.RevokedKeyIgnored | src/modules/x-api-keys/service/api-key.service.ts:82-148 | a revoked record answers no later validation |
| ApiKeyService.FindAll | src/modules/x-api-keys/service/api-key.service.ts:100-118 | a negative skip or an empty page gives 404; a page is the run of active records in store order from offset `(page-1)*limit`, as long as `abs(limit)` allows (no bound for 0) and the active records remaining |
| ApiKeyService.FindAllEmptyPage | src/modules/x-api-keys/service/api-key.service.ts:102-109 | for a usable skip and limit, the listing fails exactly when the page starts past the last active record |
| ApiKeyService.ApiKeyStore.CreateApiKey | src/modules/x-api-keys/service/api-key.service.ts:17-47 | outcome and new records are those of `CreateSpec` |
| ApiKeyService.ApiKeyStore.ValidateApiKey | src/modules/x-api-keys/service/api-key.service.ts:120-159 | the loop over the active records gives the outcome and new records of `ValidateSpec` |
| ApiKeyService.ApiKeyStore.RevokeApiKey | src/modules/x-api-keys/service/api-key.service.ts:83-98 | outcome and new records are those of `RevokeSpec` |
| ApiKeyGuard.MapOutcome | src/Libs/Guards/x-api-key/api-key.guard.ts:61-109 | the request passes exactly when the validator answered `true`; every other outcome, `false` included, becomes 501 'Error validating API key' |
| ApiKeyGuard.CanActivate | src/Libs/Guards/x-api-key/api-key.guard.ts:21-110 | a missing or empty header gives 401 'API key is missing' without calling the validator; otherwise the validator's outcome is mapped and its store changes kept |
| ApiKeyGuard.GuardStatuses | src/Libs/Guards/x-api-key/api-key.guard.ts:40-109 | the guard refuses only with the missing-key 401, exactly when the header is missing, or with the 501; 'Invalid API key' never reaches the client |
| ApiKeyGuard.UnknownKeyRefused | src/Libs/Guards/x-api-key/api-key.guard.ts:61-109 | a key that matches no active record is refused with the 501 and the store is unchanged |
| ApiKeyService.FirstMatchValidates | src/modules/x-api-keys/service/api-key.service.ts:129-148 | the first active record whose hash matches, under its cap and with a well-formed id, makes validation succeed |
| ApiKeyService.CappedMatchRefused | src/modules/x-api-keys/service/api-key.service.ts:132-143 | when the first active match is at its cap, validation fails with the 501 and that record, and only it, becomes inactive |
| ApiKeyService.NoMatchLeft | src/modules/x-api-keys/service/api-key.service.ts:136-137 | deactivating the only active match leaves no active record that matches the key |
| ApiKeyService.NoMatchNotValid | src/modules/x-api-keys/service/api-key.service.ts:129-151 | with no active match, validation never answers `true` |
| RolesService.Locate | src/Libs/roles/services/roles.service.ts:40-46 | fails exactly when the id is not an ObjectId (`Invalid id`, 400) or no role has it (`Role not found`, 404); otherwise gives the first role with that id |
| RolesService.GetRoleById | src/Libs/roles/services/roles.service.ts:38-55 | a malformed id and a missing role are both re-thrown as 500 around the original error; a role returned has the requested id and is in the store |
| RolesService.UpdateRoleSpec | src/Libs/roles/services/roles.service.ts:69-90 | fails exactly when the lookup fails, wrapped as 500 and changing nothing; otherwise the role with that id gets the five DTO fields and `updatedAt`, is returned in its new version, and no other role changes |
| RolesService.UpdateKeepsIdentity | src/Libs/roles/services/roles.service.ts:74-78 | an update never changes a role's id, its `restricted` flag or its creation time |
| RolesService.ChangeRestrictionSpec | src/Libs/roles/services/roles.service.ts:92-120 | a malformed id is one 500 around `Invalid id`; a failed `getRoleById` is wrapped once more; otherwise exactly the found role's `restricted` is negated and returned |
| RolesService.MissingRoleWrappedTwice | src/Libs/roles/services/roles.service.ts:97 | a well-formed id that names no role is reported as 500 around 500 around the 404 |
| RolesService.ToggleTwiceRestores | src/Libs/roles/services/roles.service.ts:102-108 | changing the restriction twice succeeds again and gives back the original store |
| RolesService.DeleteRoleSpec | src/Libs/roles/services/roles.service.ts:122-138 | a malformed id is a plain 400 (the check is outside the `try`); a missing role is 500 around `Role not exist`; otherwise the first role with the id is removed and the success text returned |
| RolesService.DeleteRemovesRole | src/Libs/roles/services/roles.service.ts:127 | with unique ids, after a deletion no role has the id and every other role is still present |
| RolesService.LastFound | src/Libs/roles/services/roles.service.ts:144-151 | nothing is found exactly when no listed code belongs to a role; otherwise the role found has the last listed code that some role has |
| RolesService.LastFoundFirstRole | src/Libs/roles/services/roles.service.ts:144-151 | the role found is the first stored role with the last listed code that some role has |
| RolesService.ValidateRoleExistenceSpec | src/Libs/roles/services/roles.service.ts:140-160 | a missing list fails on `length`, re-thrown as 500; otherwise `isValidRole` holds exactly when some listed code exists, and `data` is the role of the last such code |
| RolesService.EmptyListInvalid | src/Libs/roles/services/roles.service.ts:142-153 | an empty list gives `data` null and `isValidRole` false |
| RolesService.RoleStore.UpdateRole | src/Libs/roles/services/roles.service.ts:69-90 | result and new store are those of `UpdateRoleSpec` |
| RolesService.RoleStore.ChangeRestrictionRole | src/Libs/roles/services/roles.service.ts:92-120 | result and new store are those of `ChangeRestrictionSpec` |
| RolesService.RoleStore.DeleteRole | src/Libs/roles/services/roles.service.ts:122-138 | result and new store are those of `DeleteRoleSpec` |
| RolesService.RoleStore.ValidateRoleExistence | src/Libs/roles/services/roles.service.ts:140-160 | the loop's answer is `ValidateRoleExistenceSpec`, so it keeps the role of the last listed code that exists |
| OtpEntity.NewOtp | src/Libs/otp/entities/otp.entity.ts:9-33 | a new record keeps the given user, mail and code, has status `NOT_USED` and the given creation time, and expires at the schema default |
| OtpEntity.FreshCodeLifetime | src/Libs/otp/entities/otp.entity.ts:27-33 | a new code expires exactly ten minutes (600000 ms) after it is created and is unexpired at every instant of that window |
| GenerateCodeService.GenerateNumber | src/Libs/otp/utils/services/generateCode.service.ts:7-9 | for `min <= max` the number lies in `[min, max]` |
| GenerateCodeService.Pow10 | src/Libs/otp/utils/services/generateCode.service.ts:16 | every power of ten used for a decimal place is at least 1 |
| GenerateCodeService.DigitsBound | src/Libs/otp/utils/services/generateCode.service.ts:16 | `parseInt` of n decimal digits is below 10^n and not negative |
| GenerateCodeService.LeadingDigitUnique | src/Libs/otp/utils/services/generateCode.service.ts:16 | two numbers with equal value and remainders below one place value have the same leading digit |
| GenerateCodeService.AtLeastOnce | src/Libs/otp/utils/services/generateCode.service.ts:16 | a place value taken at least once is at least the place value |
| GenerateCodeService.DigitsValueInjective | src/Libs/otp/utils/services/generateCode.service.ts:16 | two digit lists of the same length that parse to the same number are equal |
| GenerateCodeService.Digits | src/Libs/otp/utils/services/generateCode.service.ts:13-15 | one decimal digit per draw, each the `generateNumber(0, 9)` of its draw |
| GenerateCodeService.CodeOf | src/Libs/otp/utils/services/generateCode.service.ts:11-17 | the code lies in `[0, 999999]` |
| GenerateCodeService.LeadingZeroShortens | src/Libs/otp/utils/services/generateCode.service.ts:16 | when the first digit drawn is 0 the code is below 100000, so it has fewer than six digits |
| GenerateCodeService.CodeDeterminesDigits | src/Libs/otp/utils/services/generateCode.service.ts:11-17 | two six-digit draws that give the same code drew the same digits |
| GenerateCodeService.GenerateCode | src/Libs/otp/utils/services/generateCode.service.ts:11-17 | the loop's code is `CodeOf` of the six draws, so it lies in `[0, 999999]` |
| GenerateOtpService.GenerateSpec | src/Libs/otp/utils/services/generateOtp.service.ts:15-26 | the new record is appended and nothing else in the collection changes; it holds the user, the mail and the drawn code, is unused and expires ten minutes after now |
| GenerateOtpService.GenerateOtpCode | src/Libs/otp/utils/services/generateOtp.service.ts:15-33 | returned record and new collection are those of `GenerateSpec` |
| ValidateOtpService.Refusal | src/Libs/otp/utils/services/validateOtp.service.ts:31-44 | the last code is accepted exactly when it is unused, its expiry is not before now and it equals the given code; otherwise the first failed check in source order names the 403 |
| ValidateOtpService.ValidateSpec | src/Libs/otp/utils/services/validateOtp.service.ts:11-53 | no code in the last ten minutes gives the 404 (as 501) and changes nothing; it succeeds exactly when the last code in the window passes every check, and then only that record is marked used; every failure is a 501 that leaves the collection as it was |
| ValidateOtpService.SecondValidationFails | src/Libs/otp/utils/services/validateOtp.service.ts:31-35 | after a successful validation the same code at the same instant is refused as already used |
| ValidateOtpService.ValidateTouchesOneRecord | src/Libs/otp/utils/services/validateOtp.service.ts:46-48 | a successful validation leaves every record other than the last one in the window unchanged |
| ValidateOtpService.ExpiryIsInclusive | src/Libs/otp/utils/services/validateOtp.service.ts:37 | a code whose expiry is exactly now is still accepted |
| ValidateOtpService.FindLastIs | src/Libs/otp/utils/services/validateOtp.service.ts:29 | a matching index with no match after it is the element `existOtp[existOtp.length - 1]` picks |
| ValidateOtpService.ValidateOtp | src/Libs/otp/utils/services/validateOtp.service.ts:11-53 | result and new collection are those of `ValidateSpec` |
| OtpService.CreateSpec | src/Libs/otp/services/otp.service.ts:21-63 | an unknown user is a 406 around the 404 and a user with three or more codes in the window a 406 around the 429, both changing nothing; it succeeds exactly for a known user under the limit, returning the new unused code (also appended to the collection) and the mail request to the user's address with template 1 and that code |
| OtpService.CreateFillsWindow | src/Libs/otp/services/otp.service.ts:31-47 | each code issued raises the count in its own window by one |
| OtpService.FourthRequestRefused | src/Libs/otp/services/otp.service.ts:38-42 | three codes issued at one instant exhaust the allowance, so a fourth request then is refused and changes nothing |
| OtpService.IssuedCodeValidates | src/Libs/otp/services/otp.service.ts:44-59 | a code just issued validates at once |
| OtpService.ValidateCodeSpec | src/Libs/otp/services/otp.service.ts:65-82 | succeeds with `This code is valid!` exactly when the validator succeeds; the collection is the validator's; a validator error comes back wrapped once more as 501 |
| OtpService.WrongCodeWrappedTwice | src/Libs/otp/services/otp.service.ts:79-81 | a wrong code is reported as 501 around 501 around the 403 and changes nothing |
| OtpService.CreateOtpCode | src/Libs/otp/services/otp.service.ts:21-63 | result and new collection are those of `CreateSpec` |
| OtpService.ValidateOtpCode | src/Libs/otp/services/otp.service.ts:65-82 | result and new collection are those of `ValidateCodeSpec` |
| Store.FindFirst | src/Libs/otp/services/otp.service.ts:23 | `findOne` gives the first matching document, and nothing exactly when no document matches |
| Store.FindFirstIs | src/Libs/roles/services/roles.service.ts:145 | a matching index with no match before it is what `findOne` returns |
| Store.FindFirstAppend | src/Libs/otp/utils/services/generateOtp.service.ts:26 | saving new documents does not move the first match of a filter that already matched |
| Store.FindLast | src/Libs/otp/utils/services/validateOtp.service.ts:16-29 | the last matching document, after which none matches, and nothing exactly when none matches |
| Store.Filter | src/Libs/otp/services/otp.service.ts:31-36 | `find` returns only matching documents of the store and every matching one, never more than the store holds; a store of one document keeps it exactly when it matches |
| Store.FilterCount | src/Libs/otp/services/otp.service.ts:31-36 | a matching document occurs in `find`'s answer as often as in the store, and a document that does not match not at all |
| Store.FilterAppend | src/Libs/otp/services/otp.service.ts:31-36 | the matches of two stores laid end to end are the matches of each, in order |
| Store.RemoveAt | src/Libs/roles/services/roles.service.ts:127 | deleting a document removes exactly it and keeps the others in order |
| Store.SkipLimit | src/modules/user/service/user.service.ts:196-197 | a negative skip is refused; otherwise the window starts at `skip`, is a contiguous slice of the store, and holds as many documents as `abs(limit)` allows (no bound for 0) and the store has left after `skip` |
| Store.FindById | src/Libs/roles/services/roles.service.ts:43 | a string that is not an ObjectId raises a `CastError`; otherwise the first document with that `_id`, and nothing exactly when none has it |
| Common.Rethrow | src/Libs/auth/services/auth.service.ts:59-64 | a success passes through; a failure becomes an `HttpException` of the given status whose message is the prefix around the caught error |
| Common.RethrowMessage | src/modules/moodle/service/moodle.service.ts:266-267 | a success passes through; a failure becomes an `HttpException` of the given status carrying the caught error's message |
| Common.FloorScaled | src/modules/x-api-keys/service/api-key.service.ts:181 | `Math.floor(Math.random() * n)` lies in `[0, n)` |
| Common.ScaledBelow | src/modules/x-api-keys/service/api-key.service.ts:181 | a draw in `[0, 1)` scaled by `n` lies in `[0, n)` |
| MoodleUserDto.ToLower | src/modules/moodle/dtos/moodleUser.dto.ts:19 | the lowercased text has the same length, each character lowered |
| MoodleUserDto.ToLowerIdempotent | src/modules/moodle/dtos/moodleUser.dto.ts:28 | lowercasing twice is lowercasing once, and leaves no upper-case letter |
| MoodleUserDto.Transformed | src/modules/moodle/dtos/moodleUser.dto.ts:17-29 | a present `username` and `email` are lowercased; absent ones stay absent; the other properties are untouched |
| MoodleUserDto.PasswordRegexIsRule | src/modules/moodle/dtos/moodleUser.dto.ts:51-58 | the password regular expression accepts exactly the passwords of at least 8 characters on one line with a lower-case letter, an upper-case letter, a digit and a character of `[\W_]`; `@MinLength(8)` adds nothing when length is counted in characters as the regular expression counts them |
| MoodleUserDto.LineBreakRefused | src/modules/moodle/dtos/moodleUser.dto.ts:53 | a password holding a line break is refused although it has all four kinds of character |
| MoodleUserDto.FailuresWith | src/modules/moodle/dtos/moodleUser.dto.ts:17-66 | each property is reported exactly when its validators fail: username and firstname missing or empty, email missing, empty or not an e-mail once lowercased, lastname missing, a present password failing the regex, and auth missing when required |
| MoodleUserDto.Pipe | src/modules/moodle/dtos/moodleUser.dto.ts:17-66 | a body passes exactly when no validator fails on its lowercased copy, and the handler then gets the body as sent; otherwise the pipe's 400 |
| MoodleUserDto.PipeAccepts | src/modules/moodle/dtos/moodleUser.dto.ts:17-66 | an accepted body has a non-empty username and firstname, an e-mail the check accepts once lowercased, a lastname, a password (if any) obeying the rule, and an `auth` |
| MoodleUserDto.HandlerSeesBodyAsSent | src/modules/moodle/dtos/moodleUser.dto.ts:17-29 | an accepted body reaches the handler as sent, while the copy the validators judged has no upper-case letter in its username and e-mail and passes the pipe itself |
| MoodleUserDto.ToLowerKeepsLower | src/modules/moodle/dtos/moodleUser.dto.ts:28 | lowercasing leaves a text without upper-case letters as it is |
| MoodleUserDto.UpperCaseReachesHandler | src/modules/moodle/dtos/moodleUser.dto.ts:17-29 | a body with username `Ann` passes and the handler gets `Ann`, not `ann` |
| MoodleUserDto.MissingAuthRefused | src/modules/moodle/dtos/moodleUser.dto.ts:65-66 | a body without `auth` is refused, although `auth` is declared optional |
| MoodleUserDto.PipeIntended | src/modules/moodle/dtos/moodleUser.dto.ts:60-66 | with `auth` optional: a body passes exactly when the other validators pass, and the handler gets the body as sent |
| MoodleUserDto.IntendedIgnoresAuth | src/modules/moodle/dtos/moodleUser.dto.ts:60-66 | the corrected pipe accepts a body exactly when the written one accepts it with some `auth` added |
| AllExceptionsFilter.Classify | src/Libs/common/filters/all-exceptions.filter.ts:24-33 | an HTTP exception keeps its own status and response (a `NotFoundException` its object form); an expired token gets 406 with the fixed expiry text; anything else gets 500 'Internal server error' |
| AllExceptionsFilter.NonHttpErrorsMasked | src/Libs/common/filters/all-exceptions.filter.ts:27-33 | no message of a library or runtime error reaches the client: it gets one of two fixed texts, and a 406 exactly for an expired token |
| AllExceptionsFilter.StatusAgrees | src/Libs/common/filters/all-exceptions.filter.ts:24-33 | the reply status is the exception's own when it has one, else 406 or 500 |
| AllExceptionsFilter.HttpResponse.Catch | src/Libs/common/filters/all-exceptions.filter.ts:16-45 | the reply sent carries the classified status, the timestamp, the request URL as `path` and the classified message as `error` |
| MoodleUserDto.LookaheadIsContains | src/modules/moodle/dtos/moodleUser.dto.ts:53 | on a single-line password, a lookahead `(?=.*[…])` holds exactly when some character of the class occurs |
| MoodleUserDto.ValidOnTransformed | src/modules/moodle/dtos/moodleUser.dto.ts:17-37 | lowercasing keeps a username or e-mail empty exactly when it was, so the validators on the transformed body judge the sent values |

## Left out

- HTTP controllers, module wiring, Swagger decorators and bootstrap are not modelled. Neither is `persistence.module.ts` or the Firebase app set-up. They only route requests to the services.
- The all-exceptions filter is not registered with the application (src/main.ts:14). It is modelled as written, as a component the application does not use.
- The filter's own `catch` of a failed `response.json` (src/Libs/common/filters/all-exceptions.filter.ts:46-51) is response I/O and is not modelled. The same goes for its logger.
- Logging, the audit log service and interceptor, the cron job and the e-mail delivery are left out. The mail service catches its own failures and answers `{ success: false }` (src/Libs/email/services/email.service.ts:32-48), so `createOtpCode` cannot fail after the code is saved and the model only records the mail request.
- The libraries for JWT, Firebase Admin, bcrypt and the Moodle REST API are opaque functions. Their internals, and the format of the tokens and hashes, are not modelled.
- Concurrency is not modelled. Each operation is one sequential step, so the read-modify-write races on `usageCount` and whitelist `status` are out of scope.
- A failing Mongo `save` is modelled only where the schema's `required` validators refuse a document. Failures of the database itself are not modelled, so the 500 of `generateOtpCode` (src/Libs/otp/utils/services/generateOtp.service.ts:27-32) cannot arise in the model.
- Mongo `sort` by `createdAt` is not modelled.
- Two query rules follow Mongoose and are not derived from its code. A filter key whose value is undefined is dropped. A filter on a path the schema does not declare is stripped under `strictQuery` (the Mongoose 6 default) and kept otherwise (the default from Mongoose 7 on). The Moodle login takes `strictQuery` as a parameter.
- The required `roles` array of a user accepts its default empty list, as Mongoose 5 and later do.
- UserService.NewUser: does not model request properties outside the DTO. `...userData` (src/modules/user/service/user.service.ts:73) can carry any property, such as `firebaseId` or `deletedAt`, because the pipe has no `whitelist` (src/main.ts:13). The model takes the DTO's declared properties only.
- ApiKeyService.CreateSpec: does not model request properties outside the DTO. `...createApiKeyDto` (src/modules/x-api-keys/service/api-key.service.ts:38) can set `isActive`, `usageCount` or `lastUsedAt` for the same reason, while the model gives every new key the schema defaults.
- RolesService.UpdateKeepsIdentity: holds only for requests limited to the DTO's fields. `...updateRoleDto` (src/Libs/roles/services/roles.service.ts:76) can also overwrite `restricted` or `createdAt` for the same reason.
- The `$regex` name and e-mail filters of the listings are an abstract predicate `matches`.
- An id is taken to be an ObjectId exactly when it has 24 hexadecimal characters. A document's `_id` is compared as the string the caller gives, with no normalisation of letter case.
- A few branches cannot be reached with the libraries the code uses, and the model does not reproduce them: `!userRecord` after `getUser` (src/modules/user/service/user.service.ts:38 and src/Libs/auth/services/auth.service.ts:28), `!payload` and `!decoded` after a successful verify, `!moodleUsers` after the HTTP call, `!key` after hashing, and `!user` in the refresh fallback.
- `ExpiryDefault`'s fallback to `Date.now()` when `createdAt` is missing is not modelled. Every record is created with `createdAt`.
- `updateUser`, `findOneByEmail`, `getAllRoles`, `createRole`, `getApiKey`, `updateApiKey`, Moodle `registerUser` and `validateEmailForSignUp` are not modelled. They are plain store or library calls outside the modelled decision and table logic.
- Strings are sequences of `char`. UTF-16 surrogate pairs are not modelled.
- MoodleUserDto.PasswordRegexIsRule: how the validator library's `isLength` counts length behind `@MinLength(8)` (surrogate pairs, variation selectors) is not modelled; `@MinLength(8)` is taken to count characters as the regular expression does.
- MoodleUserDto.ToLower: lowercases ASCII letters only, while JavaScript's `toLowerCase` also folds other letters.
- A DTO property that is present but `null` or not a string is not modelled. Either would make the lowercasing transform throw.
- MoodleUserDto.EmailValid: whether a text is an e-mail address (`@IsEmail`) is a parameter `isEmail`. The rules of the validator library are not modelled.
- ApiKeyService.KeyChar: reads `(x * 36) | 0` as `Math.floor(x * 36)`. The two agree for every draw of `Math.random()`.
- The API-key records are assumed to carry their schema defaults (`usageCount` 0, `isActive` true, `maxUsage` null when absent).
- `parseInt` of the joined digits is modelled for exactly six digits. The draws are given, so no empty list arises.
- The `TOO_MANY_REQUESTS` answer of `createOtpCode` reaches the caller wrapped in a 406, as the code's `catch` does. The model states that wrapping rather than a plain 429.
- RefreshService.RefreshTokens: does not record the refreshed tokens in the whitelist, because the code does not. The model has no whitelist input there.
- ApiKeyService.ApiKeyStore.ValidateApiKey: scans store indices and skips inactive records. This is the same order as the `find({ isActive: true })` result, without building that list.

## Findings

| source | as written | input that shows it | evidently intended | confidence | as-written member | corrected member |
|---|---|---|---|---|---|---|
| src/Libs/Guards/guard-roles/roles.guard.ts:46-58 | on a route without required roles but with an admin key, a caller whose roles do not include the key leaves the loop and reaches `roles.some` with `roles` undefined, which throws a TypeError | admin key `ADMIN`, no required roles, caller roles `["BASIC"]` | refuse with the 401 'You do not have permissions for this operation' | not executed | RolesGuard.AdminFallThroughExample | RolesGuard.IntendedDiffersOnlyOnFallThrough |
| src/Libs/auth/utils/services/refresh.service.ts:32-57 | when Firebase knows the user, `userRecord` is a Firebase `UserRecord`, which has `uid` and no `id`, so the new claim's `id` is undefined | a valid refresh token whose `sub.id` is a Firebase uid that `getUser` finds | `id: userRecord.uid` | not executed | RefreshService.FirebaseRefreshDropsId | RefreshService.IntendedRefreshKeepsSubject |
| src/Libs/auth/utils/services/refresh.service.ts:19-64 | `verifyAsync` runs before the `try`, so an expired refresh token escapes as a raw `TokenExpiredError` and the 406 'Refresh token has expired' branch is never taken | any refresh token whose `exp` has passed | the 406 'Refresh token has expired' | not executed | RefreshService.NeverReportsExpiry | RefreshService.RefreshTokensIntended |
| src/modules/moodle/dtos/moodleUser.dto.ts:60-66 | `auth` has `@IsString()` without `@IsOptional()`, so a body without `auth` is refused with a 400 | any Moodle user body that omits `auth` | `auth` optional, as its `?`, its `required: false` and the default at src/modules/moodle/service/moodle.service.ts:43 say | not executed | MoodleUserDto.MissingAuthRefused | MoodleUserDto.IntendedIgnoresAuth |
| src/Libs/auth/utils/services/validateTokens.service.ts:20 | `findOne({ id: isValid.id })` reads a top-level `id`, which the service's tokens never carry (they hold `{ sub }`). The undefined key is dropped, so the lookup is `findOne({})`, and a live token is accepted while the first stored user is undeleted, whoever it names | one stored user `a`, and a live token whose `sub.id` is `b` | look the user up by `sub.id` | not executed | ValidateTokenService.UnboundTokenExample | ValidateTokenService.ValidateTokensIntended |
| src/modules/moodle/service/moodle.service.ts:67 | `findOne({ username })` names a path the schema does not declare (its field is `user`). Under `strictQuery` the path is stripped and the first document answers every login; without it no document matches and every login is a 404 | `alice` stored before `bob`, and a login as `bob` with his e-mail | filter on `{ user: username }` | not executed | MoodleService.LoginByUsernameExample | MoodleService.LoginIntended |
| src/modules/user/service/user.service.ts:65-148 | `register` and `updateRole` write `role`, while the schema declares `roles`. The strict schema drops the path, so no role is stored, `user.role` is undefined in the claim, and `updateRole` saves nothing | a registration with `role: "ADMIN"`, or `updateRole` of an existing user to `"ADMIN"` | write the role to `roles` | not executed | UserService.RoleNeverStored | UserService.IntendedRoleReadsBack |
