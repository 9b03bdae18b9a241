/** The application shell: logged-out and logged-in states, the role-dependent tabs and
    the page each tab renders. */
module App {
  import opened Types
  import LoginScreen

  datatype Tab = DashboardTab | HistoryTab | ProfileTab | ManagerDashboardTab | ManagerReportsTab

  function TabName(t: Tab): string {
    match t
    case DashboardTab => "dashboard"
    case HistoryTab => "history"
    case ProfileTab => "profile"
    case ManagerDashboardTab => "manager-dashboard"
    case ManagerReportsTab => "manager-reports"
  }

  function ParseTab(s: string): (r: Option<Tab>)
    ensures r.Some? ==> TabName(r.value) == s
    ensures forall t :: TabName(t) == s ==> r == Some(t)
  {
    if s == "dashboard" then Some(DashboardTab)
    else if s == "history" then Some(HistoryTab)
    else if s == "profile" then Some(ProfileTab)
    else if s == "manager-dashboard" then Some(ManagerDashboardTab)
    else if s == "manager-reports" then Some(ManagerReportsTab)
    else None
  }

  /** The tabs the navigation bar offers a role, in display order. */
  function TabsFor(role: Role): (tabs: seq<Tab>)
    ensures |tabs| == 3 && tabs[2] == ProfileTab
    ensures role == Employee ==> tabs[0] == DashboardTab && HistoryTab in tabs
    ensures role == Manager ==> tabs[0] == ManagerDashboardTab && ManagerReportsTab in tabs
    ensures role == Employee ==> ManagerDashboardTab !in tabs && ManagerReportsTab !in tabs
    ensures role == Manager ==> DashboardTab !in tabs && HistoryTab !in tabs
  {
    match role
    case Manager => [ManagerDashboardTab, ManagerReportsTab, ProfileTab]
    case Employee => [DashboardTab, HistoryTab, ProfileTab]
  }

  /** `EmptyPage` is the logged-in shell with nothing in it, which `renderPage` shows when
      there is no current user. */
  datatype Page = LoginPage | EmptyPage | DashboardPage | HistoryPage | ProfilePage | ManagerDashboardPage | ManagerReportsPage

  datatype AppState = AppState(isLoggedIn: bool, currentUser: Option<User>, currentTab: Tab)

  const INITIAL_APP: AppState := AppState(false, None, DashboardTab)

  const MANAGER_ID: string := "manager-001"
  const MANAGER_NAME: string := "Sarah Manager"
  const EMPLOYEE_ID: string := "1"
  const EMPLOYEE_NAME: string := "Demo User"
  const DEPARTMENT: string := "Engineering"

  /** The user a login creates: a fixed identity per role with the e-mail as entered. */
  function MockUser(email: string, role: Role): (u: User)
    ensures u.email == email && u.role == role && u.department == Some(DEPARTMENT)
    ensures role == Manager ==> u.id == MANAGER_ID && u.displayName == MANAGER_NAME
    ensures role == Employee ==> u.id == EMPLOYEE_ID && u.displayName == EMPLOYEE_NAME
  {
    if role == Manager then User(MANAGER_ID, MANAGER_NAME, email, Some(DEPARTMENT), role)
    else User(EMPLOYEE_ID, EMPLOYEE_NAME, email, Some(DEPARTMENT), role)
  }

  /** The tab a freshly logged-in user starts on. */
  function HomeTab(role: Role): (t: Tab)
    ensures t in TabsFor(role) && t == TabsFor(role)[0]
  {
    if role == Manager then ManagerDashboardTab else DashboardTab
  }

  /** `handleLogin(email, role)` */
  function HandleLogin(a: AppState, email: string, role: Role): (a': AppState)
    ensures a'.isLoggedIn && a'.currentUser == Some(MockUser(email, role))
    ensures a'.currentTab == HomeTab(role)
  {
    AppState(true, Some(MockUser(email, role)), HomeTab(role))
  }

  /** `handleLogout()` */
  function HandleLogout(a: AppState): (a': AppState)
    ensures a' == INITIAL_APP
  {
    AppState(false, None, DashboardTab)
  }

  /** `onTabChange`: the navigation sets the tab it was given. */
  function SelectTab(a: AppState, t: Tab): (a': AppState)
    ensures a' == a.(currentTab := t)
  {
    a.(currentTab := t)
  }

  /** What `App` renders: the login screen when logged out, otherwise the shell around
      `renderPage()`, which is empty without a current user and falls back to the role's home
      page for a tab the role does not have. */
  function RenderPage(a: AppState): (p: Page)
    ensures p == LoginPage <==> !a.isLoggedIn
    ensures p == EmptyPage <==> a.isLoggedIn && a.currentUser.None?
    ensures a.isLoggedIn && a.currentUser.Some? && a.currentUser.value.role == Employee ==>
      p != ManagerDashboardPage && p != ManagerReportsPage
    ensures a.isLoggedIn && a.currentUser.Some? && a.currentUser.value.role == Manager ==>
      p != DashboardPage && p != HistoryPage
  {
    if !a.isLoggedIn then LoginPage
    else if a.currentUser.None? then EmptyPage
    else if a.currentUser.value.role == Manager then
      match a.currentTab
      case ManagerDashboardTab => ManagerDashboardPage
      case ManagerReportsTab => ManagerReportsPage
      case ProfileTab => ProfilePage
      case _ => ManagerDashboardPage
    else
      match a.currentTab
      case DashboardTab => DashboardPage
      case HistoryTab => HistoryPage
      case ProfileTab => ProfilePage
      case _ => DashboardPage
  }

  /** The page a tab stands for. */
  function PageOf(t: Tab): Page {
    match t
    case DashboardTab => DashboardPage
    case HistoryTab => HistoryPage
    case ProfileTab => ProfilePage
    case ManagerDashboardTab => ManagerDashboardPage
    case ManagerReportsTab => ManagerReportsPage
  }

  /** Every tab the navigation offers the logged-in user renders its own page, and any other
      tab renders the role's home page. */
  lemma OfferedTabsRenderTheirPage(a: AppState, t: Tab)
    requires a.isLoggedIn && a.currentUser.Some?
    ensures t in TabsFor(a.currentUser.value.role) ==> RenderPage(SelectTab(a, t)) == PageOf(t)
    ensures t !in TabsFor(a.currentUser.value.role) ==>
      RenderPage(SelectTab(a, t)) == PageOf(HomeTab(a.currentUser.value.role))
  {
  }

  datatype Event = LoginEvent(email: string, role: Role) | LogoutEvent | TabEvent(tab: Tab)

  function Apply(a: AppState, e: Event): AppState {
    match e
    case LoginEvent(email, role) => HandleLogin(a, email, role)
    case LogoutEvent => HandleLogout(a)
    case TabEvent(t) => SelectTab(a, t)
  }

  function RunEvents(a: AppState, es: seq<Event>): AppState
    decreases |es|
  {
    if es == [] then a else RunEvents(Apply(a, es[0]), es[1..])
  }

  /** The shell is logged in exactly when it holds a user. */
  predicate Consistent(a: AppState) {
    a.isLoggedIn <==> a.currentUser.Some?
  }

  /** Whatever the sequence of logins, logouts and tab changes, the shell stays consistent, so
      the empty logged-in shell is never rendered. */
  lemma {:induction false} RunEventsConsistent(a: AppState, es: seq<Event>)
    requires Consistent(a)
    ensures Consistent(RunEvents(a, es))
    ensures RenderPage(RunEvents(a, es)) != EmptyPage
    decreases |es|
  {
    if es != [] {
      RunEventsConsistent(Apply(a, es[0]), es[1..]);
    }
  }

  /** A successful submit on the login form logs the shell in as that role, on its home page. */
  lemma LoginFormLogsIn(f: LoginScreen.LoginForm)
    requires LoginScreen.HandleSubmit(f).1.Some?
    ensures var l := LoginScreen.HandleSubmit(f).1.value;
      var a := HandleLogin(INITIAL_APP, l.email, l.role);
      a.currentUser.value.email == f.email && a.currentUser.value.role == f.role
      && RenderPage(a) == PageOf(HomeTab(f.role))
  {
  }
}
