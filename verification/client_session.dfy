/** What the shop's pages read from the stored login: the signed-in user's
    role, which may be missing when nobody is signed in. */
module ClientSession {

  import opened Wrappers
  import opened Accounts
  import Rbac

  /** `user?.role === "admin" || user?.role === "superadmin"`: whether the
      page shows its admin controls. */
  function IsAdmin(role: Option<string>): (b: bool)
    ensures b <==> role == Some(Admin) || role == Some(SuperAdmin)
  {
    match role
    case None => false
    case Some(r) => r == Admin || r == SuperAdmin
  }

  /** The pages show admin controls to exactly the roles the server's
      admin-or-superadmin guard lets through, and to nobody signed out. */
  lemma {:induction false} IsAdminMatchesServerGuard(id: UserId, role: Option<string>)
    ensures IsAdmin(role) <==> role.Some? && Rbac.IsAdminOrSuperAdmin(Principal(id, role.value)) == Rbac.Allow
  {
  }
}
