/** The Firebase Admin calls the core makes, as opaque functions. */
module Identity {
  import opened Common
  import opened Jwt

  /** A Firebase `UserRecord`: it has `uid` and no `id` property; `email`
      is absent for accounts without one; `metadata` is its JSON text. */
  datatype FirebaseUser = FirebaseUser(uid: string, email: Option<string>, providerIds: seq<string>, metadata: string)

  /** `verifyIdToken(token)` gives the decoded token's `uid`; `getUser` is
      applied to whatever JavaScript value the caller passes; `deleteUser`
      gives the error it throws, if any. */
  datatype Firebase = Firebase(verifyIdToken: string -> Result<string>,
                               getUser: Option<Id> -> Result<FirebaseUser>,
                               deleteUser: string -> Option<Exception>)

  const USER_NOT_FOUND := "auth/user-not-found"

  /** `getUser` fails only with a Firebase error code. */
  ghost predicate FirebaseErrors(fb: Firebase) {
    forall id :: fb.getUser(id).Err? ==> fb.getUser(id).error.FirebaseError?
  }
}
