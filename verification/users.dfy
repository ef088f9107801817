/** The user-administration handlers: role-scoped listing, lookup, update
    with sanitisation, and deletion. Each runs after the guard its route puts
    in front of it (see `ManagedUpdate`). */
module Users {

  import opened Wrappers
  import opened Seqs
  import opened Text
  import opened Accounts
  import Rbac

  function RoleIs(role: string): User -> bool
  {
    (u: User) => u.role == role
  }

  function Views(users: Users): (r: seq<UserView>)
    ensures |r| == |users|
    ensures forall k :: 0 <= k < |r| ==> r[k] == View(users[k])
  {
    seq(|users|, k requires 0 <= k < |users| => View(users[k]))
  }

  /** `getAllUsers`: a superadmin sees every account, an admin exactly the
      accounts whose role is "user" (in store order), anyone else is refused. */
  function GetAllUsers(users: Users, p: Principal): (r: Result<seq<UserView>>)
    ensures r.Err? <==> p.role != SuperAdmin && p.role != Admin
    ensures r.Err? ==> r.failure == Forbidden
    ensures p.role == SuperAdmin ==> r == Ok(Views(users))
    ensures p.role == Admin ==>
              && r.Ok?
              && (forall v | v in r.value :: v.role == Customer && exists u :: u in users && View(u) == v)
              && (forall u | u in users && u.role == Customer :: View(u) in r.value)
              && |r.value| <= |users|
  {
    if p.role == SuperAdmin then Ok(Views(users))
    else if p.role == Admin then
      var picked := Filter(users, RoleIs(Customer));
      var r := Views(picked);
      assert forall v | v in r :: v.role == Customer && exists u :: u in users && View(u) == v by {
        forall v | v in r ensures v.role == Customer && exists u :: u in users && View(u) == v {
          var k :| 0 <= k < |r| && r[k] == v;
          assert picked[k] in picked;
        }
      }
      assert forall u | u in users && u.role == Customer :: View(u) in r by {
        forall u | u in users && u.role == Customer ensures View(u) in r {
          assert u in picked;
          var k :| 0 <= k < |picked| && picked[k] == u;
          assert r[k] == View(u);
        }
      }
      Ok(r)
    else Err(Forbidden)
  }

  /** An admin's listing is the superadmin's listing with every non-"user"
      account left out, order kept. */
  lemma {:induction false} AdminListingIsSubsequence(users: Users)
    ensures IsSubseq(GetAllUsers(users, Principal("", Admin)).value, GetAllUsers(users, Principal("", SuperAdmin)).value)
  {
    FilterIsSubseq(users, RoleIs(Customer));
    ViewsSubseq(Filter(users, RoleIs(Customer)), users);
  }

  lemma {:induction false} ViewsSubseq(a: Users, b: Users)
    requires IsSubseq(a, b)
    ensures IsSubseq(Views(a), Views(b))
    decreases |b|
  {
    if |a| > 0 {
      assert Views(a)[1..] == Views(a[1..]);
      assert Views(b)[1..] == Views(b[1..]);
      if a[0] == b[0] && IsSubseq(a[1..], b[1..]) {
        ViewsSubseq(a[1..], b[1..]);
      } else {
        ViewsSubseq(a, b[1..]);
      }
    }
  }

  /** `getUserById`: the account without its password, or 404. */
  function GetUserById(users: Users, id: UserId): (r: Result<UserView>)
    ensures r == Err(NotFound) <==> forall k :: 0 <= k < |users| ==> users[k].id != id
    ensures r.Ok? ==> exists u :: u in users && u.id == id && r.value == View(u)
  {
    match FindById(users, id)
    case None => Err(NotFound)
    case Some(u) => Ok(View(u))
  }

  /** The fields an update request may carry. */
  datatype UpdateBody = UpdateBody(
    name: Option<string>,
    email: Option<string>,
    password: Option<string>,
    role: Option<string>,
    address: Option<Address>,
    contact: Option<string>)

  /** The update as it reaches the store: a role is dropped unless the caller
      is a superadmin; a non-empty password is replaced by its hash (the
      `hashed` oracle value), an empty or missing one is dropped. */
  function Sanitised(body: UpdateBody, p: Principal, hashed: string): (b: UpdateBody)
    ensures b.name == body.name && b.email == body.email
    ensures b.address == body.address && b.contact == body.contact
    ensures p.role == SuperAdmin ==> b.role == body.role
    ensures p.role != SuperAdmin ==> !Truthy(b.role)
    ensures Truthy(body.password) ==> b.password == Some(hashed)
    ensures !Truthy(body.password) ==> b.password.None?
  {
    var role := if p.role != SuperAdmin && Truthy(body.role) then None else body.role;
    var password := if Truthy(body.password) then Some(hashed) else None;
    body.(role := role, password := password)
  }

  /** The stored user after writing the fields the update carries. */
  function Patched(u: User, b: UpdateBody): User
  {
    User(u.id, b.name.GetOr(u.name), b.email.GetOr(u.email), b.password.GetOr(u.password),
         b.role.GetOr(u.role), if b.address.Some? then b.address else u.address,
         if b.contact.Some? then b.contact else u.contact)
  }

  /** The update response: id, name, email and role, nothing else. */
  datatype UpdatedUser = UpdatedUser(id: UserId, name: string, email: string, role: string)

  datatype UpdateOutcome = UpdateOutcome(users: Users, result: Result<UpdatedUser>)

  /** `updateUserById`. */
  function UpdateUserById(users: Users, p: Principal, id: UserId, body: UpdateBody, hashed: string): (o: UpdateOutcome)
    ensures o.result.Err? <==> forall k :: 0 <= k < |users| ==> users[k].id != id
    ensures o.result.Err? ==> o.result.failure == NotFound && o.users == users
    ensures o.result.Ok? ==>
              exists i :: 0 <= i < |users| && users[i].id == id
                && (forall k :: 0 <= k < i ==> users[k].id != id)
                && o.users == users[i := Patched(users[i], Sanitised(body, p, hashed))]
                && var u := o.users[i];
                   o.result.value == UpdatedUser(u.id, u.name, u.email, u.role)
  {
    match FindFirst(users, HasId(id))
    case None => UpdateOutcome(users, Err(NotFound))
    case Some(i) =>
      var u := Patched(users[i], Sanitised(body, p, hashed));
      UpdateOutcome(users[i := u], Ok(UpdatedUser(u.id, u.name, u.email, u.role)))
  }

  /** What an update does to the stored account: only it changes; its id is
      kept; a non-superadmin cannot give it a (non-empty) new role; an empty
      or missing password leaves the stored hash alone, a non-empty one
      stores the new hash. */
  lemma {:induction false} UpdateEffect(users: Users, p: Principal, id: UserId, body: UpdateBody, hashed: string)
    requires UpdateUserById(users, p, id, body, hashed).result.Ok?
    ensures var o := UpdateUserById(users, p, id, body, hashed);
            exists i :: 0 <= i < |users| && users[i].id == id && |o.users| == |users|
              && (forall k :: 0 <= k < |users| && k != i ==> o.users[k] == users[k])
              && o.users[i].id == id
              && (p.role != SuperAdmin ==> o.users[i].role == users[i].role || o.users[i].role == "")
              && (!Truthy(body.password) ==> o.users[i].password == users[i].password)
              && (Truthy(body.password) ==> o.users[i].password == hashed)
  {
  }

  datatype DeleteOutcome = DeleteOutcome(users: Users, result: Result<UserId>)

  /** `deleteUserById`. */
  function DeleteUserById(users: Users, id: UserId): (o: DeleteOutcome)
    ensures o.result.Err? <==> forall k :: 0 <= k < |users| ==> users[k].id != id
    ensures o.result.Err? ==> o.result.failure == NotFound && o.users == users
    ensures o.result.Ok? ==>
              exists i :: 0 <= i < |users| && users[i].id == id
                && (forall k :: 0 <= k < i ==> users[k].id != id)
                && o.users == RemoveAt(users, i)
  {
    match FindFirst(users, HasId(id))
    case None => DeleteOutcome(users, Err(NotFound))
    case Some(i) => DeleteOutcome(RemoveAt(users, i), Ok(id))
  }

  /** Deleting keeps the ids unique and removes the account for good. */
  lemma {:induction false} DeleteRemoves(users: Users, id: UserId)
    requires UniqueIds(users)
    ensures var o := DeleteUserById(users, id);
            UniqueIds(o.users) && forall k :: 0 <= k < |o.users| ==> o.users[k].id != id
  {
  }

  /** The update route: the `canManageUser` guard, then the handler. */
  function ManagedUpdate(users: Users, p: Principal, param: Option<string>, body: UpdateBody, hashed: string): (o: UpdateOutcome)
    ensures Rbac.CanManageUser(p, param, users).Deny? ==>
              o == UpdateOutcome(users, Err(Rbac.CanManageUser(p, param, users).failure))
    ensures Rbac.CanManageUser(p, param, users) == Rbac.Allow ==>
              o == UpdateUserById(users, p, Rbac.TargetId(p, param), body, hashed)
  {
    match Rbac.CanManageUser(p, param, users)
    case Deny(f) => UpdateOutcome(users, Err(f))
    case Allow => UpdateUserById(users, p, Rbac.TargetId(p, param), body, hashed)
  }

  /** Through the update route, an admin leaves every other account whose
      role is not "user" untouched, and a user leaves every other account
      untouched. */
  lemma {:induction false} ManagedUpdateProtectsOthers(users: Users, p: Principal, param: Option<string>, body: UpdateBody, hashed: string)
    requires UniqueIds(users)
    requires p.role == Admin || p.role == Customer
    ensures var o := ManagedUpdate(users, p, param, body, hashed);
            forall k :: 0 <= k < |users| && users[k].id != p.id && !(p.role == Admin && Rbac.ManagedRole(users[k].role)) ==>
              k < |o.users| && o.users[k] == users[k]
  {
    var o := ManagedUpdate(users, p, param, body, hashed);
    if Rbac.CanManageUser(p, param, users) == Rbac.Allow {
      var id := Rbac.TargetId(p, param);
      if p.role == Admin && id != p.id {
        Rbac.AdminCannotEscalate(p, param, users);
      }
    }
  }
}
