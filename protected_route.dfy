/** frontend/src/components/common/ProtectedRoute.jsx: what a guarded route renders for the
    auth context and the route's `allowedRoles`. */
module ProtectedRoute {
  import opened Common
  import opened Permissions

  /** The spinner, a redirect to `/login` or to `/`, or the guarded page. */
  datatype Outcome = Spinner | ToLogin | ToHome | Children

  /** The chain of early returns. `user.role` is read only once authentication has put a
      user in the context. */
  function Decide(s: AuthState, allowedRoles: seq<string>): (r: Outcome) {
    if s.loading then Spinner
    else if !IsAuthenticated(s) then ToLogin
    else if |allowedRoles| > 0 && s.user.value.role !in allowedRoles then ToHome
    else Children
  }

  /** Loading wins over everything; then the unauthenticated go to the login page; a route
      with roles sends the other roles home; and the page renders exactly when nothing is
      loading and `useAuthGuard` grants access. */
  lemma DecideCorrect(s: AuthState, allowedRoles: seq<string>)
    ensures var r := Decide(s, allowedRoles);
      && (s.loading ==> r == Spinner)
      && (!s.loading && !IsAuthenticated(s) ==> r == ToLogin)
      && (r == ToHome <==> !s.loading && IsAuthenticated(s) && !AuthGuard(allowedRoles, s).hasRequiredRole)
      && (r == Children <==> !s.loading && AuthGuard(allowedRoles, s).canAccess)
  {
  }

  /** The admin dashboard route (`allowedRoles={['admin']}`) renders only for an administrator. */
  lemma AdminRoute(s: AuthState)
    ensures Decide(s, ["admin"]) == Children <==> !s.loading && IsAuthenticated(s) && s.user.value.role == "admin"
  {
  }
}
