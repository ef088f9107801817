/** The role guards placed in front of the user and order routes. Each is a
    total decision: let the request through, or answer with a status. */
module Rbac {

  import opened Wrappers
  import opened Text
  import opened Accounts

  datatype Decision = Allow | Deny(failure: Failure)

  /** `isSuperAdmin`. */
  function IsSuperAdmin(p: Principal): (d: Decision)
    ensures d == Allow <==> p.role == SuperAdmin
    ensures d != Allow ==> d == Deny(Forbidden)
  {
    if p.role != SuperAdmin then Deny(Forbidden) else Allow
  }

  /** `isAdminOrSuperAdmin`. */
  function IsAdminOrSuperAdmin(p: Principal): (d: Decision)
    ensures d == Allow <==> p.role == Admin || p.role == SuperAdmin
    ensures d != Allow ==> d == Deny(Forbidden)
  {
    if p.role != Admin && p.role != SuperAdmin then Deny(Forbidden) else Allow
  }

  /** The superadmin guard is the stricter of the two. */
  lemma {:induction false} SuperAdminGuardStricter(p: Principal)
    ensures IsSuperAdmin(p) == Allow ==> IsAdminOrSuperAdmin(p) == Allow
    ensures IsAdminOrSuperAdmin(p) != Allow ==> IsSuperAdmin(p) != Allow
  {
  }

  /** The id a request is about: the route parameter, or the caller's own id
      when the parameter is missing or empty. */
  function TargetId(p: Principal, param: Option<string>): (id: UserId)
    ensures Truthy(param) ==> id == param.value
    ensures !Truthy(param) ==> id == p.id
  {
    if Truthy(param) then param.value else p.id
  }

  /** The target's role counts as the plain user role, compared lower-cased. */
  predicate ManagedRole(role: string)
  {
    role != "" && ToLower(role) == Customer
  }

  /** `canManageUser`: malformed ids are refused first; a superadmin manages
      anyone; an admin manages themselves and accounts whose role is "user";
      a user manages only themselves; any other role is refused. */
  function CanManageUser(p: Principal, param: Option<string>, users: Users): (d: Decision)
    ensures d == Deny(BadRequest) <==> !ValidObjectId(TargetId(p, param))
    ensures d.Deny? ==> d.failure in {BadRequest, Forbidden, NotFound}
    ensures ValidObjectId(TargetId(p, param)) && p.role == SuperAdmin ==> d == Allow
    ensures ValidObjectId(TargetId(p, param)) && p.role == Customer ==>
              (d == Allow <==> p.id == TargetId(p, param))
    ensures ValidObjectId(TargetId(p, param)) && p.role == Admin ==>
              && (d == Allow <==>
                    p.id == TargetId(p, param)
                    || exists k :: 0 <= k < |users| && users[k].id == TargetId(p, param)
                                   && FindById(users, TargetId(p, param)) == Some(users[k])
                                   && ManagedRole(users[k].role))
              && (d == Deny(NotFound) <==>
                    p.id != TargetId(p, param) && forall k :: 0 <= k < |users| ==> users[k].id != TargetId(p, param))
    ensures p.role != SuperAdmin && p.role != Admin && p.role != Customer ==> d != Allow
    ensures d == Deny(NotFound) ==> p.role == Admin
  {
    var id := TargetId(p, param);
    if !ValidObjectId(id) then Deny(BadRequest)
    else if p.role == SuperAdmin then Allow
    else if p.role == Admin then
      if p.id == id then Allow
      else match FindById(users, id)
        case None => Deny(NotFound)
        case Some(t) => if ManagedRole(t.role) then Allow else Deny(Forbidden)
    else if p.role == Customer then
      if p.id == id then Allow else Deny(Forbidden)
    else Deny(Forbidden)
  }

  /** Whatever the role, a request about one's own well-formed id is let
      through exactly when the role is one of the three known roles. */
  lemma {:induction false} OwnProfileAllowed(p: Principal, users: Users)
    requires ValidObjectId(p.id)
    ensures CanManageUser(p, None, users) == Allow <==> p.role in {SuperAdmin, Admin, Customer}
    ensures CanManageUser(p, Some(p.id), users) == CanManageUser(p, None, users)
  {
  }

  /** An admin never manages another admin or a superadmin: apart from their
      own profile, every account an admin is let through to has the user role. */
  lemma {:induction false} AdminCannotEscalate(p: Principal, param: Option<string>, users: Users)
    requires p.role == Admin
    requires CanManageUser(p, param, users) == Allow
    requires TargetId(p, param) != p.id
    ensures exists u :: u in users && u.id == TargetId(p, param) && ToLower(u.role) == Customer
  {
    var k :| 0 <= k < |users| && users[k].id == TargetId(p, param)
             && FindById(users, TargetId(p, param)) == Some(users[k]) && ManagedRole(users[k].role);
    assert users[k] in users;
  }

  /** Access only grows with the role: whatever a user may manage, an admin
      with the same id may, and whatever an admin may manage, a superadmin
      may. */
  lemma {:induction false} RoleMonotone(id: UserId, param: Option<string>, users: Users)
    ensures CanManageUser(Principal(id, Customer), param, users) == Allow ==>
              CanManageUser(Principal(id, Admin), param, users) == Allow
    ensures CanManageUser(Principal(id, Admin), param, users) == Allow ==>
              CanManageUser(Principal(id, SuperAdmin), param, users) == Allow
  {
  }

  /** A malformed id is refused with 400 before any role is looked at. */
  lemma {:induction false} MalformedIdRefusedForEveryRole(p: Principal, q: Principal, param: Option<string>, users: Users, others: Users)
    requires Truthy(param) && !ValidObjectId(param.value)
    ensures CanManageUser(p, param, users) == CanManageUser(q, param, others) == Deny(BadRequest)
  {
  }
}
