/** `RolesGuard.canActivate`: the route authorization decision, a pure
    function of the handler's metadata (public flag, required roles, admin
    key) and the caller's roles that the token guard put on the request
    body. */
module RolesGuard {
  import opened Common

  const DENIED := HttpException(UNAUTHORIZED, Text("You do not have permissions for this operation"))

  /** Whether the caller holds the admin key (the `for` loop's early return). */
  predicate HoldsAdmin(rolesUser: seq<string>, admin: string) {
    exists i :: 0 <= i < |rolesUser| && rolesUser[i] == admin
  }

  /** `roles.some((role) => rolesUser.includes(role))` */
  predicate SharesRole(required: seq<string>, rolesUser: seq<string>) {
    exists i :: 0 <= i < |required| && required[i] in rolesUser
  }

  /** The decision as written. `None` is an undefined value: no `@Roles`,
      no `@Admin`, or no `rolesUser` on the body. Reading a property of an
      undefined value is a `TypeError`. */
  function CanActivate(isPublic: bool, roles: Option<seq<string>>, admin: Option<string>,
                       rolesUser: Option<seq<string>>): (r: Result<bool>)
    ensures isPublic ==> r == Ok(true)
    ensures r.Ok? ==> r.value
    ensures r.Err? ==> r.error == DENIED || r.error.TypeError?
    ensures !isPublic && roles.None? && !Truthy(admin) ==> r == Ok(true)
    ensures !isPublic && roles.None? && Truthy(admin) && rolesUser.Some? ==>
      (r.Ok? <==> HoldsAdmin(rolesUser.value, admin.value))
    ensures !isPublic && roles.None? && Truthy(admin) && rolesUser == Some([]) ==> r == Err(DENIED)
    ensures !isPublic && roles.Some? && rolesUser.Some? ==>
      r == (if SharesRole(roles.value, rolesUser.value) then Ok(true) else Err(DENIED))
  {
    if isPublic then Ok(true)
    else if roles.None? then
      if !Truthy(admin) then Ok(true)
      else if rolesUser.None? then Err(TypeError("length"))
      else if |rolesUser.value| > 0 then
        if HoldsAdmin(rolesUser.value, admin.value) then Ok(true)
        else Err(TypeError("some"))   // falls through to `roles.some` with `roles` undefined
      else Err(DENIED)
    else if |roles.value| == 0 then Err(DENIED)   // `some` on [] never reads `rolesUser`
    else if rolesUser.None? then Err(TypeError("includes"))
    else if SharesRole(roles.value, rolesUser.value) then Ok(true)
    else Err(DENIED)
  }

  /** With required roles present the admin key plays no part. */
  lemma AdminIgnoredWithRoles(isPublic: bool, roles: seq<string>, a1: Option<string>, a2: Option<string>,
                              rolesUser: Option<seq<string>>)
    ensures CanActivate(isPublic, Some(roles), a1, rolesUser) == CanActivate(isPublic, Some(roles), a2, rolesUser)
  {
  }

  /** A caller without the admin key on an admin-only route reaches the
      `roles.some` call on an undefined `roles`: a runtime error, neither
      allow nor 401. */
  lemma AdminFallThrough(rolesUser: seq<string>, admin: string)
    requires admin != "" && |rolesUser| > 0 && !HoldsAdmin(rolesUser, admin)
    ensures CanActivate(false, None, Some(admin), Some(rolesUser)) == Err(TypeError("some"))
  {
  }

  lemma AdminFallThroughExample()
    ensures CanActivate(false, None, Some("ADMIN"), Some(["BASIC"])) == Err(TypeError("some"))
  {
    AdminFallThrough(["BASIC"], "ADMIN");
  }

  /** The decision with the admin branch closed by a 401, as the branch's
      own `else` does for an empty role list. */
  function CanActivateIntended(isPublic: bool, roles: Option<seq<string>>, admin: Option<string>,
                               rolesUser: Option<seq<string>>): (r: Result<bool>)
    ensures rolesUser.Some? ==> r == Ok(true) || r == Err(DENIED)
    ensures !isPublic && roles.None? && Truthy(admin) && rolesUser.Some? ==>
      (r == Ok(true) <==> HoldsAdmin(rolesUser.value, admin.value))
  {
    if isPublic then Ok(true)
    else if roles.None? then
      if !Truthy(admin) then Ok(true)
      else if rolesUser.None? then Err(TypeError("length"))
      else if HoldsAdmin(rolesUser.value, admin.value) then Ok(true)
      else Err(DENIED)
    else if |roles.value| == 0 then Err(DENIED)
    else if rolesUser.None? then Err(TypeError("includes"))
    else if SharesRole(roles.value, rolesUser.value) then Ok(true)
    else Err(DENIED)
  }

  /** The two decisions differ exactly on the fall-through case. */
  lemma IntendedDiffersOnlyOnFallThrough(isPublic: bool, roles: Option<seq<string>>, admin: Option<string>,
                                         rolesUser: Option<seq<string>>)
    ensures CanActivate(isPublic, roles, admin, rolesUser) != CanActivateIntended(isPublic, roles, admin, rolesUser)
      <==> !isPublic && roles.None? && Truthy(admin) && rolesUser.Some? && |rolesUser.value| > 0
           && !HoldsAdmin(rolesUser.value, admin.value)
  {
  }
}
