/**
 * The application shell: the signed-in user, the record kept in persistent
 * storage, which of the two views a staff member is looking at, and the routing
 * from that state to the screen shown. Storage is modelled as an optional stored
 * `User`; serialisation is left out.
 */
module Session {
  import opened Types

  const DashboardTab := "dashboard"
  const TenantDashboardTab := "tenant-dashboard"
  const AdminLabel := "Super Admin"
  const ManagerLabel := "Property Manager"

  /** The shell's state: session user, selected admin tab, tenant-view flag, and the stored record. */
  datatype AppState = AppState(user: Option<User>, activeTab: string, isTenantView: bool, stored: Option<User>)

  /**
   * What is rendered: the sign-in screen, the tenant portal (with or without the
   * way back to the admin view), or the admin shell (with or without the portal
   * button, and the role label in its header).
   */
  datatype Screen =
    | AuthScreen
    | TenantPortal(backToAdmin: bool)
    | AdminShell(portalButton: bool, roleLabel: string)

  /** The tenant rule: a signed-in tenant is always in the tenant view. */
  predicate TenantConfined(s: AppState)
  {
    s.user.Some? && s.user.value.role == Tenant ==> s.isTenantView
  }

  /** The shell's invariant: storage holds exactly the session user, and the tenant rule holds. */
  predicate Inv(s: AppState)
  {
    s.stored == s.user && TenantConfined(s)
  }

  /** The shell before its mount effect: no user, dashboard tab, admin view, with whatever storage holds. */
  function Fresh(stored: Option<User>): (s: AppState)
    ensures s.user.None? && !s.isTenantView && s.stored == stored
  {
    AppState(None, DashboardTab, false, stored)
  }

  /** The mount effect: a stored user becomes the session user, and a stored tenant opens the tenant view. */
  function Restore(s: AppState): (r: AppState)
    ensures r.user == (if s.stored.Some? then s.stored else s.user)
    ensures r.stored == s.stored && r.activeTab == s.activeTab
    ensures Inv(s) ==> Inv(r)
    ensures s.stored.Some? ==> Inv(r)
  {
    match s.stored
    case None => s
    case Some(u) => s.(user := Some(u), isTenantView := if u.role == Tenant then true else s.isTenantView)
  }

  /** Starting the application with the given storage contents. */
  function Launch(stored: Option<User>): (s: AppState)
    ensures Inv(s)
    ensures s.user == stored
    ensures s.user.Some? ==> (s.isTenantView <==> s.user.value.role == Tenant)
  {
    Restore(Fresh(stored))
  }

  /**
   * Signing in `u` when the storage write succeeds: it becomes the session user and is
   * stored; tenants go to their portal, staff to the dashboard.
   */
  function Login(s: AppState, u: User): (r: AppState)
    ensures Inv(r)
    ensures r.user == Some(u) && r.stored == Some(u)
    ensures r.isTenantView <==> u.role == Tenant
    ensures u.role != Tenant ==> r.activeTab == DashboardTab
    ensures u.role == Tenant ==> r.activeTab == s.activeTab
  {
    if u.role == Tenant then s.(user := Some(u), stored := Some(u), isTenantView := true)
    else s.(user := Some(u), stored := Some(u), isTenantView := false, activeTab := DashboardTab)
  }

  /**
   * The log-in handler with the outcome of its storage write. The session user is set
   * first; a write that throws (a full storage quota, say) skips the view and tab updates
   * that follow it and leaves storage as it was.
   */
  function HandleLogin(s: AppState, u: User, written: bool): (r: AppState)
    ensures r.user == Some(u)
    ensures written ==> r == Login(s, u)
    ensures !written ==> r.stored == s.stored && r.isTenantView == s.isTenantView && r.activeTab == s.activeTab
  {
    if written then Login(s, u) else s.(user := Some(u))
  }

  /**
   * A failed storage write breaks the tenant rule: a tenant signing in from the admin view
   * is routed to the administrative shell, labelled for a property manager and without the
   * portal button.
   */
  lemma FailedWriteShowsTenantAdminShell(s: AppState, u: User)
    requires u.role == Tenant && !s.isTenantView
    ensures !TenantConfined(HandleLogin(s, u, false))
    ensures Route(HandleLogin(s, u, false)) == AdminShell(false, ManagerLabel)
  {
  }

  /** Signing out: no session user, nothing stored, admin view; the selected tab is kept. */
  function Logout(s: AppState): (r: AppState)
    ensures Inv(r)
    ensures r.user.None? && r.stored.None? && !r.isTenantView && r.activeTab == s.activeTab
  {
    s.(user := None, stored := None, isTenantView := false)
  }

  /** Signing out twice is signing out once. */
  lemma LogoutIdempotent(s: AppState)
    ensures Logout(Logout(s)) == Logout(s)
  {
  }

  /** The view switch: staff flip between the views, landing on the matching tab; for anyone else it does nothing. */
  function ToggleView(s: AppState): (r: AppState)
    ensures r.user == s.user && r.stored == s.stored
    ensures Inv(s) ==> Inv(r)
  {
    if s.user.Some? && IsStaff(s.user.value.role) then
      s.(isTenantView := !s.isTenantView, activeTab := if s.isTenantView then DashboardTab else TenantDashboardTab)
    else s
  }

  /** What the switch does: staff change view and tab; a tenant or a signed-out shell is left exactly as it was. */
  lemma ToggleViewEffect(s: AppState)
    ensures var r := ToggleView(s);
      && (s.user.Some? && IsStaff(s.user.value.role) ==>
            && r.isTenantView == !s.isTenantView
            && r.activeTab == (if r.isTenantView then TenantDashboardTab else DashboardTab))
      && (s.user.None? || s.user.value.role == Tenant ==> r == s)
  {
  }

  /** Switching twice returns a staff member to the view they started in. */
  lemma ToggleTwiceRestoresView(s: AppState)
    ensures ToggleView(ToggleView(s)).isTenantView == s.isTenantView
    ensures ToggleView(ToggleView(s)).user == s.user
  {
  }

  /** Picking an entry of the admin side bar. */
  function SelectTab(s: AppState, tab: string): (r: AppState)
    ensures r.activeTab == tab && r.(activeTab := s.activeTab) == s
    ensures Inv(s) ==> Inv(r)
  {
    s.(activeTab := tab)
  }

  /** The header label: `Super Admin` for the administrator, `Property Manager` for anyone else shown the shell. */
  function RoleLabel(r: Role): (text: string)
    ensures text == AdminLabel <==> r == Admin
  {
    if r == Admin then AdminLabel else ManagerLabel
  }

  /** The screen rendered for a state. */
  function Route(s: AppState): (screen: Screen)
    ensures screen == AuthScreen <==> s.user.None?
  {
    match s.user
    case None => AuthScreen
    case Some(u) =>
      if s.isTenantView then TenantPortal(u.role != Tenant)
      else AdminShell(IsStaff(u.role), RoleLabel(u.role))
  }

  /** Routing in full: sign-in without a user; the portal in tenant view, with the way back for staff only; otherwise the shell. */
  lemma RouteCases(s: AppState)
    ensures s.user.Some? && s.isTenantView ==> Route(s) == TenantPortal(s.user.value.role != Tenant)
    ensures s.user.Some? && !s.isTenantView ==> Route(s).AdminShell?
    ensures Route(s).TenantPortal? ==> (Route(s).backToAdmin <==> s.user.value.role != Tenant)
  {
  }

  /** Under the invariant a tenant always lands in the portal, without the way back, and never in the admin shell. */
  lemma TenantNeverSeesAdminShell(s: AppState)
    requires Inv(s) && s.user.Some? && s.user.value.role == Tenant
    ensures Route(s) == TenantPortal(false)
  {
  }

  /** Under the invariant the admin shell is shown only to staff, with the portal button and the label of their role. */
  lemma AdminShellIsForStaff(s: AppState)
    requires Inv(s) && Route(s).AdminShell?
    ensures s.user.Some? && IsStaff(s.user.value.role)
    ensures Route(s).portalButton
    ensures Route(s).roleLabel == (if s.user.value.role == Admin then AdminLabel else ManagerLabel)
  {
  }

  /** What signing in stores is what the next launch restores, in the same view; after signing out nothing is restored. */
  lemma StorageRoundTrip(s: AppState, u: User)
    ensures Launch(Login(s, u).stored).user == Some(u)
    ensures Launch(Login(s, u).stored).isTenantView == Login(s, u).isTenantView
    ensures Launch(Logout(s).stored).user.None?
  {
  }

  /**
   * The shell-only view of the application's event machine: the shell's own transitions,
   * with the sign-in screen abstracted to "some user signs in". `Portal.Step` is the full
   * machine; it routes its shell events through the same functions, so this view shows the
   * invariant is a property of the shell alone. These are the things that can happen to
   * the shell once it is running.
   */
  datatype AppEvent = SignIn(u: User) | SignOut | Toggle | Select(tab: string)

  function Apply(s: AppState, e: AppEvent): (r: AppState)
    ensures Inv(s) ==> Inv(r)
  {
    match e
    case SignIn(u) => Login(s, u)
    case SignOut => Logout(s)
    case Toggle => ToggleView(s)
    case Select(tab) => SelectTab(s, tab)
  }

  /** The shell after launching with `stored` and then the events in order. */
  function Run(stored: Option<User>, events: seq<AppEvent>): AppState
    decreases |events|
  {
    if events == [] then Launch(stored) else Apply(Run(stored, events[..|events| - 1]), events[|events| - 1])
  }

  /** Every state the shell can reach keeps the invariant, so no sequence of events shows a tenant the admin shell. */
  lemma {:induction false} ReachableStatesConfineTenants(stored: Option<User>, events: seq<AppEvent>)
    ensures Inv(Run(stored, events))
    ensures var s := Run(stored, events); s.user.Some? && s.user.value.role == Tenant ==> Route(s) == TenantPortal(false)
    decreases |events|
  {
    if events != [] {
      ReachableStatesConfineTenants(stored, events[..|events| - 1]);
    }
  }
}
