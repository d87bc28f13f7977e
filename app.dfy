/** The route guards of the app: `ProtectedRoute` around every page but the login page, and
    `LoginCheck` on the login page itself. */
module AppRoutes {
  import opened Wrappers
  import opened Records
  import LoginPage

  /** The profile a guard has fetched: `undefined` while the request runs, then the user's profile or
      null. */
  datatype Fetched = Pending | Loaded(profile: Option<Profile>)

  /** What a guard renders. */
  datatype View = Redirect(to: Route) | LoadingScreen | Children | LoginForm

  /** `ProtectedRoute`: signed-out users go to the login page; while the profile loads a loading screen
      shows; a user without a profile goes to setup unless already there; otherwise the page renders. */
  function ProtectedRoute(isAuth: bool, profile: Fetched, hash: string): (v: View)
    ensures !isAuth <==> v == Redirect(Root)
    ensures v == LoadingScreen <==> isAuth && profile.Pending?
    ensures v == Redirect(Setup) <==> isAuth && profile == Loaded(None) && hash != HashOf(Setup)
    ensures v == Children <==> isAuth && profile.Loaded? && (profile.profile.Some? || hash == HashOf(Setup))
  {
    if !isAuth then Redirect(Root)
    else if profile.Pending? then LoadingScreen
    else if profile.profile.None? && hash != HashOf(Setup) then Redirect(Setup)
    else Children
  }

  /** `LoginCheck`: signed-in users are sent on, once their profile is known, to the dashboard or to
      setup; signed-out users see the login form. */
  function LoginCheck(isAuth: bool, profile: Fetched): (v: View)
    ensures !isAuth <==> v == LoginForm
    ensures v == LoadingScreen <==> isAuth && profile.Pending?
    ensures v == Redirect(DashboardRoute) <==> isAuth && profile.Loaded? && profile.profile.Some?
    ensures v == Redirect(Setup) <==> isAuth && profile == Loaded(None)
  {
    if isAuth then
      if profile.Pending? then LoadingScreen
      else if profile.profile.Some? then Redirect(DashboardRoute)
      else Redirect(Setup)
    else LoginForm
  }

  /** The guard a route is wrapped in, as the route table declares. */
  function Guard(r: Route, isAuth: bool, profile: Fetched): (v: View)
    ensures !isAuth <==> v == (if r == Root then LoginForm else Redirect(Root))
    ensures v == LoadingScreen <==> isAuth && profile.Pending?
    ensures v == Children ==> r != Root && isAuth
    ensures v == LoginForm ==> r == Root
  {
    if r == Root then LoginCheck(isAuth, profile) else ProtectedRoute(isAuth, profile, HashOf(r))
  }

  /** Redirects settle after one step: once the profile is known, the route a guard redirects to
      renders without redirecting again. */
  lemma RedirectsSettle(r: Route, isAuth: bool, p: Option<Profile>)
    requires Guard(r, isAuth, Loaded(p)).Redirect?
    ensures !Guard(Guard(r, isAuth, Loaded(p)).to, isAuth, Loaded(p)).Redirect?
  {
    assert HashOf(Setup) != HashOf(Root);
  }

  /** After signing in, the login page's own destination is the one `LoginCheck` would choose for the
      same user, and the page there renders. */
  lemma LoginDestinationAgrees(user: User)
    ensures LoginCheck(true, Loaded(user.profile)) == Redirect(LoginPage.Destination(user))
    ensures ProtectedRoute(true, Loaded(user.profile), HashOf(LoginPage.Destination(user))) == Children
  {
  }
}
