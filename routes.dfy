/** The route table and the guard that protects the dashboards. */
module Routes {
  import opened Basics
  import opened Types

  const LoginPath := "/login"
  const AdminHome := "/admin/dashboard"
  const FacultyHome := "/faculty/dashboard"

  /** Each role's dashboard, where a user sent away from another role's page lands. */
  function Home(role: Role): string
  {
    match role
    case Admin => AdminHome
    case Faculty => FacultyHome
  }

  /** The route table: `None` for a page anyone may open (home, login, sign-up, not found),
      otherwise the role the page's guard demands. */
  function RequiredRole(path: string): Option<Role>
  {
    if path == FacultyHome then Some(Faculty)
    else if path in [AdminHome, "/admin/timetables", "/admin/messages", "/admin/conflicts"] then Some(Admin)
    else None
  }

  datatype Outcome = Render | Redirect(to: string)

  /** `ProtectedRoute`: no signed-in user goes to the login page; a user of the wrong role
      goes to the dashboard of their own role; anyone else sees the page. */
  function Guard(isAuthenticated: bool, user: Option<User>, requiredRole: Option<Role>): (o: Outcome)
    ensures o == Render <==>
              isAuthenticated && user.Some? && (requiredRole.None? || user.value.role == requiredRole.value)
    ensures !isAuthenticated || user.None? ==> o == Redirect(LoginPath)
    ensures isAuthenticated && user.Some? && o.Redirect? ==> o.to == Home(user.value.role)
  {
    if !isAuthenticated || user.None? then Redirect(LoginPath)
    else if requiredRole.Some? && user.value.role != requiredRole.value then Redirect(Home(user.value.role))
    else Render
  }

  /** What visiting `path` does: public pages always render, guarded ones go through the guard. */
  function Visit(path: string, isAuthenticated: bool, user: Option<User>): Outcome
  {
    if RequiredRole(path).None? then Render else Guard(isAuthenticated, user, RequiredRole(path))
  }

  /** Every signed-in user's own dashboard renders for them. */
  lemma HomeRenders(u: User)
    ensures RequiredRole(Home(u.role)) == Some(u.role)
    ensures Visit(Home(u.role), true, Some(u)) == Render
  {
  }

  /** A redirect never leads to another redirect: the page it names renders at once, so the
      guard cannot send a browser round in a loop. */
  lemma RedirectSettles(path: string, isAuthenticated: bool, user: Option<User>)
    requires Visit(path, isAuthenticated, user).Redirect?
    ensures Visit(Visit(path, isAuthenticated, user).to, isAuthenticated, user) == Render
  {
    if isAuthenticated && user.Some? {
      HomeRenders(user.value);
    }
  }

  /** The administrator's pages are closed to faculty members, and the faculty dashboard to
      the administrator. */
  lemma RolesSeparated(path: string, u: User)
    requires RequiredRole(path).Some? && RequiredRole(path).value != u.role
    ensures Visit(path, true, Some(u)) == Redirect(Home(u.role))
  {
  }
}
