/** The `User` document. */
module UserEntity {
  import opened Common
  import opened Store

  /** `oid` is the Mongo `_id`; `id` is the separate uuid field. The schema
      is strict and declares `roles` (a list) and no `role`: a `role` the
      services write is dropped on save and reads back as undefined. */
  datatype User = User(oid: string, id: string, firebaseId: string, name: Option<string>,
                       email: string, accessMethod: string, metadata: Option<string>,
                       documentUser: Option<string>, typeDocument: Option<string>,
                       termsVersion: string, metadataTerms: string, roles: seq<string>,
                       createdAt: int, deletedAt: Option<int>, deletedBy: Option<string>)

  function UserOid(u: User): string { u.oid }

  /** Mongoose's `required` validators on save: the first required path
      that is empty. */
  function MissingRequired(u: User): (r: Option<string>)
    ensures r.None? <==> u.firebaseId != "" && u.email != "" && u.accessMethod != ""
                         && u.termsVersion != "" && u.metadataTerms != ""
  {
    if u.firebaseId == "" then Some("firebaseId")
    else if u.email == "" then Some("email")
    else if u.accessMethod == "" then Some("accessMethod")
    else if u.termsVersion == "" then Some("termsVersion")
    else if u.metadataTerms == "" then Some("metadataTerms")
    else None
  }

  /** The filter `{ email }`. Mongoose drops a key whose value is
      undefined, so an undefined email is the empty filter `{}`, which every
      document matches. */
  function HasEmail(email: Option<string>): User -> bool {
    (u: User) => email.None? || u.email == email.value
  }

  /** The filter `{ id }`; an undefined id is again `{}`. */
  function HasId(id: Option<string>): User -> bool {
    (u: User) => id.None? || u.id == id.value
  }

  /** The empty filter finds the first document, if there is one. */
  lemma UndefinedMatchesFirst(users: seq<User>, email: Option<string>, id: Option<string>)
    ensures email.None? ==> FindFirst(users, HasEmail(email)) == (if |users| == 0 then None else Some(0))
    ensures id.None? ==> FindFirst(users, HasId(id)) == (if |users| == 0 then None else Some(0))
  {
  }
}
