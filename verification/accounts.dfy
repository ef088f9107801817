/** The user records of the role-based shop backend, as the authorisation
    middleware and the user, auth and order controllers see them. */
module Accounts {

  import opened Wrappers
  import opened Seqs

  type UserId = string

  const SuperAdmin: string := "superadmin"
  const Admin: string := "admin"
  const Customer: string := "user"

  /** A postal address; either part may be missing. */
  datatype Address = Address(street: Option<string>, city: Option<string>)

  /** A stored user. The password is whatever the store holds (a hash). */
  datatype User = User(
    id: UserId,
    name: string,
    email: string,
    password: string,
    role: string,
    address: Option<Address>,
    contact: Option<string>)

  /** The user collection, in natural (insertion) order. */
  type Users = seq<User>

  /** The authenticated caller, as the token middleware resolved it. */
  datatype Principal = Principal(id: UserId, role: string)

  /** A user as listing and lookup responses show it: every stored field but
      the password. */
  datatype UserView = UserView(
    id: UserId,
    name: string,
    email: string,
    role: string,
    address: Option<Address>,
    contact: Option<string>)

  function View(u: User): UserView
  {
    UserView(u.id, u.name, u.email, u.role, u.address, u.contact)
  }

  predicate UniqueIds(users: Users)
  {
    forall i, j :: 0 <= i < j < |users| ==> users[i].id != users[j].id
  }

  predicate UniqueEmails(users: Users)
  {
    forall i, j :: 0 <= i < j < |users| ==> users[i].email != users[j].email
  }

  function HasId(id: UserId): User -> bool
  {
    (u: User) => u.id == id
  }

  function HasEmail(email: string): User -> bool
  {
    (u: User) => u.email == email
  }

  /** The user with this id, if any (`findById`). */
  function FindById(users: Users, id: UserId): (r: Option<User>)
    ensures r.Some? ==> r.value in users && r.value.id == id
    ensures r.None? <==> forall k :: 0 <= k < |users| ==> users[k].id != id
  {
    match FindFirst(users, HasId(id))
    case None => None
    case Some(i) => Some(users[i])
  }
}
