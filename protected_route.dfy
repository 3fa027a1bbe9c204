/** The route guard: from the hook's state and the roles a page allows, where
    to navigate (if anywhere) and whether to show the page or a loading line. */
module ProtectedRoute {
  import opened Wrappers
  import opened Http
  import opened Auth

  datatype View = Loading | Children

  datatype Decision = Decision(navigate: Option<string>, view: View)

  const HomePath := "/"
  const AdminPagePath := "/admin-page"
  const UserPagePath := "/user-page"

  /** The guard's decision, with `home` choosing where a signed-in user whose
      role the page does not allow is sent. */
  function Route(authenticated: bool, role: Option<RoleValue>, allowedRoles: seq<RoleValue>,
                 home: RoleValue -> string): (d: Decision)
    ensures !authenticated ==> d.navigate == Some(HomePath)
    ensures authenticated && role.Some? && role.value !in allowedRoles ==> d.navigate == Some(home(role.value))
    ensures authenticated && (role.None? || role.value in allowedRoles) ==> d.navigate.None?
    ensures d.view == Children <==> authenticated && role.Some?
  {
    var navigate :=
      if !authenticated then Some(HomePath)
      else if role.Some? && role.value !in allowedRoles then Some(home(role.value))
      else None;
    Decision(navigate, if !authenticated || role.None? then Loading else Children)
  }

  /** Where the guard sends a disallowed role, as written: the admin page only
      for the number 0. */
  function RedirectAsWritten(role: RoleValue): (page: string)
    ensures page == AdminPagePath <==> role == Num(0)
    ensures role.Flag? ==> page == UserPagePath
  {
    if role == Num(0) then AdminPagePath else UserPagePath
  }

  function Decide(authenticated: bool, role: Option<RoleValue>, allowedRoles: seq<RoleValue>): Decision {
    Route(authenticated, role, allowedRoles, RedirectAsWritten)
  }

  /** The guard fails closed: whenever the verify answer is a failure or a
      rejected request, the guard sends the visitor to the start page and
      never shows the protected page. */
  lemma FailClosed(reply: Reply<RoleValue>, allowedRoles: seq<RoleValue>)
    requires !reply.Success?
    ensures var s := AuthAfter(reply);
      Decide(s.authenticated, s.role, allowedRoles) == Decision(Some(HomePath), Loading)
  {
  }

  /** A signed-in user whose role a page allows sees the page, with no navigation. */
  lemma AllowedSeesPage(role: RoleValue, allowedRoles: seq<RoleValue>)
    requires role in allowedRoles
    ensures Decide(true, Some(role), allowedRoles) == Decision(None, Children)
  {
  }

  /** The role lists the pages pass to the guard, by path; None for a page
      without a guard. */
  function Guard(path: string): Option<seq<RoleValue>> {
    if path in {"/user-page", "/bookmarks", "/generate-recipe"} then Some([Flag(true)])
    else if path in {"/admin", "/edit-recipe-page"} then Some([Flag(false)])
    else None
  }

  /** A page a redirected visitor lands on settles: it has no guard, or its
      guard allows the visitor's role. */
  predicate Settles(path: string, role: RoleValue) {
    Guard(path).None? || role in Guard(path).value
  }

  /** As written, an admin (role false, as the backend answers) opening a user
      page is sent to the user page, whose guard sends them to the user page
      again: the redirect never settles. */
  lemma AdminRedirectLoops()
    ensures Decide(true, Some(Flag(false)), [Flag(true)]).navigate == Some(UserPagePath)
    ensures Guard(UserPagePath) == Some([Flag(true)])
    ensures !Settles(UserPagePath, Flag(false))
    ensures Decide(true, Some(Flag(false)), Guard(UserPagePath).value).navigate == Some(UserPagePath)
  {
    assert Flag(false) !in [Flag(true)];
  }

  /** Where a disallowed role should be sent: the admin page for the admin
      role in either encoding, the user page otherwise. */
  function RedirectIntended(role: RoleValue): string {
    if role == Num(0) || role == Flag(false) then AdminPagePath else UserPagePath
  }

  function DecideIntended(authenticated: bool, role: Option<RoleValue>, allowedRoles: seq<RoleValue>): Decision {
    Route(authenticated, role, allowedRoles, RedirectIntended)
  }

  /** With the intended redirect, a signed-in user with a Boolean role who is
      sent away from a page lands on a page that lets them stay. */
  lemma IntendedRedirectSettles(b: bool, allowedRoles: seq<RoleValue>)
    ensures var d := DecideIntended(true, Some(Flag(b)), allowedRoles);
      d.navigate.Some? ==> Settles(d.navigate.value, Flag(b))
  {
    var d := DecideIntended(true, Some(Flag(b)), allowedRoles);
    if d.navigate.Some? {
      if b {
        assert d.navigate.value == UserPagePath;
        assert Guard(UserPagePath) == Some([Flag(true)]);
      } else {
        assert d.navigate.value == AdminPagePath;
        assert Guard(AdminPagePath).None?;
      }
    }
  }
}
