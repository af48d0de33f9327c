/** frontend/src/hooks/useAuth.js: `useAuthGuard(allowedRoles)` and the `usePermissions`
    predicates, over the signed-in user the auth context holds (`null` when nobody is). */
module Permissions {
  import opened Common
  import opened JsValues

  /** The user object the client keeps: its `id` and its `role` string. */
  datatype ClientUser = ClientUser(id: int, role: string)

  /** The auth context: the user, whether a token is stored, and whether a request is under way. */
  datatype AuthState = AuthState(user: Option<ClientUser>, hasToken: bool, loading: bool)

  /** `isAuthenticated: !!user && !!token` */
  predicate IsAuthenticated(s: AuthState) {
    s.user.Some? && s.hasToken
  }

  /** `user?.role === r`: false without a user. */
  predicate RoleIs(user: Option<ClientUser>, r: string) {
    user.Some? && user.value.role == r
  }

  /** `user?.id === v`: without a user, `user?.id` is `undefined`, which is strictly equal
      only to `undefined`. */
  predicate IdIs(user: Option<ClientUser>, v: JsValue) {
    if user.None? then v == Undefined else v == Number(Int(user.value.id))
  }

  /** What `useAuthGuard` returns besides the user and `loading`. */
  datatype Guard = Guard(canAccess: bool, isAuthenticated: bool, hasRequiredRole: bool)

  /** `hasRequiredRole = !allowedRoles.length || (user && allowedRoles.includes(user.role))`,
      `canAccess = isAuthenticated && hasRequiredRole` */
  function AuthGuard(allowedRoles: seq<string>, s: AuthState): Guard {
    var hasRequiredRole := |allowedRoles| == 0 || (s.user.Some? && s.user.value.role in allowedRoles);
    Guard(IsAuthenticated(s) && hasRequiredRole, IsAuthenticated(s), hasRequiredRole)
  }

  /** The checks of `usePermissions`; the two that take an id carry it as the JavaScript
      value the page passes (`store.owner_id`, `rating.user_id`). */
  datatype Permission =
    | ViewUsers | CreateUsers | EditUsers | DeleteUsers
    | ViewStores | CreateStores | EditStores(storeOwnerId: JsValue) | DeleteStores
    | CreateRatings | EditRatings(ratingUserId: JsValue) | DeleteRatings(ratingUserId: JsValue)
    | ViewAdminDashboard | ViewStoreOwnerDashboard | ViewUserDashboard
    | IsAdmin | IsStoreOwner | IsRegularUser

  /** `can.<permission>(...)` for the signed-in user. */
  predicate Can(user: Option<ClientUser>, p: Permission) {
    match p
    case ViewUsers => RoleIs(user, "admin")
    case CreateUsers => RoleIs(user, "admin")
    case EditUsers => RoleIs(user, "admin")
    case DeleteUsers => RoleIs(user, "admin")
    case ViewStores => true
    case CreateStores => RoleIs(user, "admin") || RoleIs(user, "store_owner")
    case EditStores(o) => RoleIs(user, "admin") || (RoleIs(user, "store_owner") && IdIs(user, o))
    case DeleteStores => RoleIs(user, "admin")
    case CreateRatings => RoleIs(user, "user") || RoleIs(user, "admin")
    case EditRatings(u) => RoleIs(user, "admin") || IdIs(user, u)
    case DeleteRatings(u) => RoleIs(user, "admin") || IdIs(user, u)
    case ViewAdminDashboard => RoleIs(user, "admin")
    case ViewStoreOwnerDashboard => RoleIs(user, "store_owner")
    case ViewUserDashboard => true
    case IsAdmin => RoleIs(user, "admin")
    case IsStoreOwner => RoleIs(user, "store_owner")
    case IsRegularUser => RoleIs(user, "user")
  }

  /** The checks reserved to administrators. */
  predicate AdminOnly(p: Permission) {
    p.ViewUsers? || p.CreateUsers? || p.EditUsers? || p.DeleteUsers? || p.DeleteStores?
    || p.ViewAdminDashboard? || p.IsAdmin?
  }

  /* ----------------------------------------------------------------- lemmas */

  /** Signed in means a user and a token. With no roles listed every user has the required
      role, so access is exactly being signed in; otherwise the required role is a signed-in
      user's role among them, and access needs both. */
  lemma AuthGuardCorrect(allowedRoles: seq<string>, s: AuthState)
    ensures AuthGuard(allowedRoles, s).isAuthenticated <==> s.user.Some? && s.hasToken
    ensures AuthGuard([], s).hasRequiredRole
    ensures AuthGuard([], s).canAccess <==> IsAuthenticated(s)
    ensures |allowedRoles| > 0 ==>
      (AuthGuard(allowedRoles, s).hasRequiredRole <==> s.user.Some? && s.user.value.role in allowedRoles)
    ensures |allowedRoles| > 0 ==>
      (AuthGuard(allowedRoles, s).canAccess <==> IsAuthenticated(s) && s.user.value.role in allowedRoles)
  {
  }

  /** Managing users, deleting stores and the admin dashboard are allowed exactly to an
      administrator. */
  lemma AdminOnlyCorrect(user: Option<ClientUser>, p: Permission)
    requires AdminOnly(p)
    ensures Can(user, p) <==> user.Some? && user.value.role == "admin"
  {
  }

  /** An administrator may do everything except the checks that name another role. */
  lemma AdminMayDoAll(user: Option<ClientUser>, p: Permission)
    requires RoleIs(user, "admin")
    ensures Can(user, p) <==> !(p.ViewStoreOwnerDashboard? || p.IsStoreOwner? || p.IsRegularUser?)
  {
  }

  /** `editStores(o)`: an administrator, or the store owner whose id is `o`. */
  lemma EditStoresCorrect(user: ClientUser, o: int)
    ensures Can(Some(user), EditStores(Number(Int(o)))) <==>
      user.role == "admin" || (user.role == "store_owner" && user.id == o)
    ensures user.role != "admin" ==> !Can(Some(user), EditStores(Null))
  {
  }

  /** `createRatings` for users and administrators; `editRatings(u)` and `deleteRatings(u)`
      for an administrator or the author `u`; viewing stores for anyone. */
  lemma RatingPermissions(user: ClientUser, u: int)
    ensures Can(Some(user), CreateRatings) <==> user.role == "user" || user.role == "admin"
    ensures Can(Some(user), EditRatings(Number(Int(u)))) <==> user.role == "admin" || user.id == u
    ensures Can(Some(user), DeleteRatings(Number(Int(u)))) == Can(Some(user), EditRatings(Number(Int(u))))
    ensures Can(Some(user), ViewStores) && Can(None, ViewStores)
  {
  }

  /** Without a user only the open views pass, and the two author checks with an author id
      that is `undefined` too: `undefined === undefined`. */
  lemma SignedOut(p: Permission)
    ensures Can(None, p) <==>
      || p.ViewStores? || p.ViewUserDashboard?
      || (p.EditRatings? && p.ratingUserId == Undefined) || (p.DeleteRatings? && p.ratingUserId == Undefined)
  {
  }
}
