/** `RolesService`: lookups by id, updates, the `restricted` toggle,
    deletion, and the scan that tells whether any listed role code exists. */
module RolesService {
  import opened Common
  import opened Store

  /** A `Role` document. */
  datatype Role = Role(oid: string, name: string, code: string, description: string,
                       associatedPlatform: string, xApiKey: string, restricted: bool,
                       createdAt: int, updatedAt: Option<int>)

  function RoleOid(r: Role): string { r.oid }

  /** `UpdateRoleDto` */
  datatype RoleUpdate = RoleUpdate(name: string, code: string, description: string,
                                   associatedPlatform: string, xApiKey: string)

  /** `ValidateRoleResponse`: `data` is null (`None`) or a role. */
  datatype RoleCheck = RoleCheck(data: Option<Role>, isValidRole: bool)

  const PREFIX := "Ups... error: "
  const INVALID_ID := HttpException(BAD_REQUEST, Text("Invalid id"))
  const ROLE_NOT_FOUND := HttpException(NOT_FOUND, Text("Role not found"))
  const ROLE_DELETED := "Role deleted successfully!"

  /** The `catch` every operation has: `Ups... error: ${err}`, 500. */
  function Wrapped(e: Exception): Exception {
    HttpException(INTERNAL_SERVER_ERROR, Quoted(PREFIX, e))
  }

  /** The id check and `findById`, with the `Result` the body sees: the
      index of the role, or the error it throws (`Invalid id`, `Role not found`). */
  function Locate(roles: seq<Role>, id: string): (r: Result<nat>)
    ensures r.Err? <==> !IsMongoId(id) || forall j :: 0 <= j < |roles| ==> roles[j].oid != id
    ensures !IsMongoId(id) ==> r == Err(INVALID_ID)
    ensures IsMongoId(id) && r.Err? ==> r == Err(ROLE_NOT_FOUND)
    ensures r.Ok? ==> r.value < |roles| && roles[r.value].oid == id
                      && forall j :: 0 <= j < r.value ==> roles[j].oid != id
  {
    if !IsMongoId(id) then Err(INVALID_ID)
    else
      match FindById(roles, RoleOid, id)
      case Ok(Some(i)) => Ok(i)
      case _ => Err(ROLE_NOT_FOUND)
  }

  /** `getRoleById`: both refusals are re-thrown as 500. */
  function GetRoleById(roles: seq<Role>, id: string): (r: Result<Role>)
    ensures !IsMongoId(id) ==> r == Err(Wrapped(INVALID_ID))
    ensures IsMongoId(id) && (forall j :: 0 <= j < |roles| ==> roles[j].oid != id) ==> r == Err(Wrapped(ROLE_NOT_FOUND))
    ensures r.Ok? ==> r.value in roles && r.value.oid == id
  {
    match Locate(roles, id)
    case Err(e) => Err(Wrapped(e))
    case Ok(i) => Ok(roles[i])
  }

  /** `updateRole`: `findByIdAndUpdate` writes the five DTO fields and
      `updatedAt` on the role with that id and returns the new version. */
  function UpdateRoleSpec(roles: seq<Role>, id: string, dto: RoleUpdate, now: int): (r: (Result<Role>, seq<Role>))
    ensures r.0.Err? <==> Locate(roles, id).Err?
    ensures r.0.Err? ==> r.0.error == Wrapped(Locate(roles, id).error) && r.1 == roles
    ensures r.0.Ok? ==> var i := Locate(roles, id).value;
      r.1 == roles[i := r.0.value]
      && r.0.value == roles[i].(name := dto.name, code := dto.code, description := dto.description,
                                associatedPlatform := dto.associatedPlatform, xApiKey := dto.xApiKey,
                                updatedAt := Some(now))
  {
    match Locate(roles, id)
    case Err(e) => (Err(Wrapped(e)), roles)
    case Ok(i) =>
      var updated := roles[i].(name := dto.name, code := dto.code, description := dto.description,
                               associatedPlatform := dto.associatedPlatform, xApiKey := dto.xApiKey,
                               updatedAt := Some(now));
      (Ok(updated), roles[i := updated])
  }

  /** An update keeps the role's identity, its restriction and its
      creation time. */
  lemma UpdateKeepsIdentity(roles: seq<Role>, id: string, dto: RoleUpdate, now: int)
    requires UpdateRoleSpec(roles, id, dto, now).0.Ok?
    ensures var r := UpdateRoleSpec(roles, id, dto, now).0.value;
            var i := Locate(roles, id).value;
            r.oid == id && r.restricted == roles[i].restricted && r.createdAt == roles[i].createdAt
  {
  }

  /** `changeRestrictionRole`: the id check, then `getRoleById` (whose 500
      is wrapped a second time), then `restricted` negated and nothing else
      written. */
  function ChangeRestrictionSpec(roles: seq<Role>, id: string): (r: (Result<Role>, seq<Role>))
    ensures !IsMongoId(id) ==> r == (Err(Wrapped(INVALID_ID)), roles)
    ensures IsMongoId(id) && GetRoleById(roles, id).Err? ==> r == (Err(Wrapped(GetRoleById(roles, id).error)), roles)
    ensures r.0.Ok? <==> Locate(roles, id).Ok?
    ensures r.0.Ok? ==> var i := Locate(roles, id).value;
      r.0.value == roles[i].(restricted := !roles[i].restricted) && r.1 == roles[i := r.0.value]
  {
    if !IsMongoId(id) then (Err(Wrapped(INVALID_ID)), roles)
    else
      match GetRoleById(roles, id)
      case Err(e) => (Err(Wrapped(e)), roles)
      case Ok(role) =>
        var i := Locate(roles, id).value;
        var toggled := roles[i].(restricted := if role.restricted then false else true);
        (Ok(toggled), roles[i := toggled])
  }

  /** A role that does not exist is reported wrapped twice: 500 around the
      500 of `getRoleById` around the 404. */
  lemma MissingRoleWrappedTwice(roles: seq<Role>, id: string)
    requires IsMongoId(id) && forall j :: 0 <= j < |roles| ==> roles[j].oid != id
    ensures ChangeRestrictionSpec(roles, id).0 == Err(Wrapped(Wrapped(ROLE_NOT_FOUND)))
  {
  }

  /** Toggling twice gives back the original store. */
  lemma {:induction false} ToggleTwiceRestores(roles: seq<Role>, id: string)
    requires ChangeRestrictionSpec(roles, id).0.Ok?
    ensures var once := ChangeRestrictionSpec(roles, id).1;
            ChangeRestrictionSpec(once, id).0.Ok? && ChangeRestrictionSpec(once, id).1 == roles
  {
    var i := Locate(roles, id).value;
    var once := ChangeRestrictionSpec(roles, id).1;
    assert RoleOid(once[i]) == id;
    assert forall j :: 0 <= j < i ==> once[j] == roles[j];
    assert Locate(once, id) == Ok(i) by {
      FindFirstIs(once, OidIs(RoleOid, id), i);
    }
    var twice := ChangeRestrictionSpec(once, id).1;
    assert twice == roles[i := once[i].(restricted := !once[i].restricted)];
    assert once[i].(restricted := !once[i].restricted) == roles[i];
  }

  /** `deleteRole`: the id check sits before the `try`, so a malformed id
      is a plain 400; a missing role is a `NotFoundException` re-thrown as
      500; otherwise `findByIdAndDelete` removes the first role with the id. */
  function DeleteRoleSpec(roles: seq<Role>, id: string): (r: (Result<string>, seq<Role>))
    ensures !IsMongoId(id) ==> r == (Err(INVALID_ID), roles)
    ensures IsMongoId(id) && Locate(roles, id).Err? ==>
              r == (Err(Wrapped(NotFoundException(Text("Role not exist")))), roles)
    ensures r.0.Ok? <==> Locate(roles, id).Ok?
    ensures r.0.Ok? ==> r.0.value == ROLE_DELETED && r.1 == RemoveAt(roles, Locate(roles, id).value)
  {
    if !IsMongoId(id) then (Err(INVALID_ID), roles)
    else
      match Locate(roles, id)
      case Err(_) => (Err(Wrapped(NotFoundException(Text("Role not exist")))), roles)
      case Ok(i) => (Ok(ROLE_DELETED), RemoveAt(roles, i))
  }

  ghost predicate UniqueOids(roles: seq<Role>) {
    forall i, j :: 0 <= i < j < |roles| ==> roles[i].oid != roles[j].oid
  }

  /** With unique ids, a deleted role is gone and every other role stays. */
  lemma DeleteRemovesRole(roles: seq<Role>, id: string)
    requires UniqueOids(roles) && DeleteRoleSpec(roles, id).0.Ok?
    ensures var after := DeleteRoleSpec(roles, id).1;
            (forall j :: 0 <= j < |after| ==> after[j].oid != id)
            && forall j :: 0 <= j < |roles| && roles[j].oid != id ==> roles[j] in after
  {
    var i := Locate(roles, id).value;
    var after := RemoveAt(roles, i);
    forall j | 0 <= j < |roles| && roles[j].oid != id
      ensures roles[j] in after
    {
      if j < i { assert after[j] == roles[j]; } else { assert after[j - 1] == roles[j]; }
    }
  }

  // ---------------------------------------------------- role existence

  /** The filter `{ code }`. */
  function HasCode(code: string): Role -> bool {
    (r: Role) => r.code == code
  }

  /** The role `findOne({ code })` gives for the last listed code that
      exists: the value `data` holds after the loop. */
  function LastFound(roles: seq<Role>, codes: seq<string>): (r: Option<Role>)
    ensures r.None? <==> forall k, j :: 0 <= k < |codes| && 0 <= j < |roles| ==> roles[j].code != codes[k]
    ensures r.Some? ==> r.value in roles
    ensures r.Some? ==> exists k :: (0 <= k < |codes| && r.value.code == codes[k]
                        && forall m, j :: k < m < |codes| && 0 <= j < |roles| ==> roles[j].code != codes[m])
  {
    if |codes| == 0 then None
    else
      var last := codes[|codes| - 1];
      match FindFirst(roles, HasCode(last))
      case Some(i) => Some(roles[i])
      case None =>
        var r := LastFound(roles, codes[..|codes| - 1]);
        assert forall k :: 0 <= k < |codes| - 1 ==> codes[..|codes| - 1][k] == codes[k];
        r
  }

  /** The role found is the first stored role with the last listed code
      that has one. */
  lemma {:induction false} LastFoundFirstRole(roles: seq<Role>, codes: seq<string>)
    requires LastFound(roles, codes).Some?
    ensures exists k :: 0 <= k < |codes| && FindFirst(roles, HasCode(codes[k])).Some?
                        && LastFound(roles, codes).value == roles[FindFirst(roles, HasCode(codes[k])).value]
                        && forall m :: k < m < |codes| ==> FindFirst(roles, HasCode(codes[m])).None?
  {
    var n := |codes| - 1;
    if FindFirst(roles, HasCode(codes[n])).None? {
      var init := codes[..n];
      LastFoundFirstRole(roles, init);
      var k :| 0 <= k < |init| && FindFirst(roles, HasCode(init[k])).Some?
               && LastFound(roles, init).value == roles[FindFirst(roles, HasCode(init[k])).value]
               && forall m :: k < m < |init| ==> FindFirst(roles, HasCode(init[m])).None?;
      assert init[k] == codes[k];
      assert forall m :: k < m < n ==> init[m] == codes[m];
    }
  }

  /** `validateRoleExistence`: a missing list fails on `roles.length`,
      re-thrown as 500. */
  function ValidateRoleExistenceSpec(roles: seq<Role>, codes: Option<seq<string>>): (r: Result<RoleCheck>)
    ensures codes.None? ==> r == Err(Wrapped(TypeError("length")))
    ensures codes.Some? ==> r.Ok? && r.value.data == LastFound(roles, codes.value)
    ensures codes.Some? ==> (r.value.isValidRole <==>
              exists k, j :: 0 <= k < |codes.value| && 0 <= j < |roles| && roles[j].code == codes.value[k])
  {
    match codes
    case None => Err(Wrapped(TypeError("length")))
    case Some(cs) => var d := LastFound(roles, cs); Ok(RoleCheck(d, d.Some?))
  }

  /** An empty list finds nothing. */
  lemma EmptyListInvalid(roles: seq<Role>)
    ensures ValidateRoleExistenceSpec(roles, Some([])) == Ok(RoleCheck(None, false))
  {
  }

  // -------------------------------------------------------------- store

  class RoleStore {
    var roles: seq<Role>

    constructor(initial: seq<Role>)
      ensures roles == initial
    {
      roles := initial;
    }

    method UpdateRole(id: string, dto: RoleUpdate, now: int) returns (r: Result<Role>)
      modifies this
      ensures (r, roles) == UpdateRoleSpec(old(roles), id, dto, now)
    {
      var at := Locate(roles, id);
      if at.Err? {
        return Err(Wrapped(at.error));
      }
      var i := at.value;
      var updated := roles[i].(name := dto.name, code := dto.code, description := dto.description,
                               associatedPlatform := dto.associatedPlatform, xApiKey := dto.xApiKey,
                               updatedAt := Some(now));
      roles := roles[i := updated];
      r := Ok(updated);
    }

    method ChangeRestrictionRole(id: string) returns (r: Result<Role>)
      modifies this
      ensures (r, roles) == ChangeRestrictionSpec(old(roles), id)
    {
      if !IsMongoId(id) {
        return Err(Wrapped(INVALID_ID));
      }
      var role := GetRoleById(roles, id);
      if role.Err? {
        return Err(Wrapped(role.error));
      }
      var i := Locate(roles, id).value;
      var toggled := roles[i].(restricted := if role.value.restricted then false else true);
      roles := roles[i := toggled];
      r := Ok(toggled);
    }

    method DeleteRole(id: string) returns (r: Result<string>)
      modifies this
      ensures (r, roles) == DeleteRoleSpec(old(roles), id)
    {
      if !IsMongoId(id) {
        return Err(INVALID_ID);
      }
      var at := Locate(roles, id);
      if at.Err? {
        return Err(Wrapped(NotFoundException(Text("Role not exist"))));
      }
      roles := RemoveAt(roles, at.value);
      r := Ok(ROLE_DELETED);
    }

    /** The loop over the listed codes: each code found overwrites `data`. */
    method ValidateRoleExistence(codes: Option<seq<string>>) returns (r: Result<RoleCheck>)
      ensures r == ValidateRoleExistenceSpec(roles, codes)
    {
      if codes.None? {
        return Err(Wrapped(TypeError("length")));
      }
      var cs := codes.value;
      var data: Option<Role> := None;
      var isValidRole := false;
      var i := 0;
      while i < |cs|
        invariant 0 <= i <= |cs|
        invariant data == LastFound(roles, cs[..i]) && isValidRole == data.Some?
      {
        var found := FindFirst(roles, HasCode(cs[i]));
        assert cs[..i + 1][..i] == cs[..i];
        if found.Some? {
          data := Some(roles[found.value]);
          isValidRole := true;
        }
        i := i + 1;
      }
      assert cs[..|cs|] == cs;
      r := Ok(RoleCheck(data, isValidRole));
    }
  }
}
