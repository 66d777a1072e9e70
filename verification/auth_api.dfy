/** The role derivation of src/lib/AuthApi.js. */
module AuthApi {
  import opened Wrappers

  datatype Role = Admin | Viewer

  /** `user.user_metadata`: only the `role` entry matters here. */
  datatype Metadata = Metadata(role: Option<string>)

  /** The signed-in user; `None` metadata is a user without `user_metadata`. */
  datatype User = User(userMetadata: Option<Metadata>)

  /** The role text at `user?.user_metadata?.role`, when there is one. */
  function MetaRole(user: Option<User>): Option<string>
  {
    match user
    case None => None
    case Some(u) =>
      match u.userMetadata
      case None => None
      case Some(md) => md.role
  }

  /** `getUserRole(user)`: 'Admin' exactly for the metadata role 'admin-dashboard', 'Viewer' for everything else. */
  function GetUserRole(user: Option<User>): (r: Role)
    ensures r == Admin <==> MetaRole(user) == Some("admin-dashboard")
  {
    if MetaRole(user) == Some("admin-dashboard") then Admin else Viewer
  }

  /** No user, no metadata or no role entry all give 'Viewer'. */
  lemma MissingRoleIsViewer(user: Option<User>)
    requires user.None? || user.value.userMetadata.None? || user.value.userMetadata.value.role.None?
    ensures GetUserRole(user) == Viewer
  {
  }

  /** The comparison is case-sensitive: another spelling of the admin role is a 'Viewer'. */
  lemma RoleIsCaseSensitive()
    ensures GetUserRole(Some(User(Some(Metadata(Some("Admin-Dashboard")))))) == Viewer
    ensures GetUserRole(Some(User(Some(Metadata(Some("admin-dashboard")))))) == Admin
  {
    assert "Admin-Dashboard"[0] != "admin-dashboard"[0];
  }
}
