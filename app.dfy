/** `src/App.js`: one piece of component state, `isAuthenticated`, that the
    login page sets and the Logout button clears, and the routes it guards.
    This gate never looks at the stored token or at the clock. */
module App {
  import opened Router
  import opened Auth
  import PrivateRoute

  /** A page of the route table: the login form, the guarded `/` route, or
      no match (react-router then renders nothing). */
  datatype Page<T> = LoginPage | Home(view: View<T>) | NoMatch

  /** What the app shows: whether the AppBar (with its Logout button) is on
      screen, and the routed page under it. */
  datatype Screen<T> = Screen(appBar: bool, page: Page<T>)

  /** The two things that change `isAuthenticated`, and a visit to a page at
      time `now`, which changes nothing. */
  datatype AppEvent = Login | Logout | Visit(now: nat)

  /** The value of `isAuthenticated` after one event. */
  function Step(authenticated: bool, e: AppEvent): bool {
    match e
    case Login => true
    case Logout => false
    case Visit(_) => authenticated
  }

  /** The value of `isAuthenticated` after a run of events from a fresh app. */
  function Replay(events: seq<AppEvent>): bool {
    if events == [] then false else Step(Replay(events[..|events| - 1]), events[|events| - 1])
  }

  /** A login happened and no logout followed it. */
  predicate LoggedInSinceLastLogout(events: seq<AppEvent>) {
    exists i :: 0 <= i < |events| && events[i] == Login &&
      forall j :: i < j < |events| ==> events[j] != Logout
  }

  class AppState {
    var isAuthenticated: bool

    /** `useState(false)`: a fresh app is logged out. */
    constructor ()
      ensures !isAuthenticated
    {
      isAuthenticated := false;
    }

    /** `handleLogin`, the `onLogin` callback of the login page. */
    method HandleLogin()
      modifies this
      ensures isAuthenticated
      ensures isAuthenticated == Step(old(isAuthenticated), Login)
    {
      isAuthenticated := true;
    }

    /** `handleLogout`, the AppBar's Logout button. Its frame is this object
        alone: it does not touch `localStorage`. */
    method HandleLogout()
      modifies this
      ensures !isAuthenticated
      ensures isAuthenticated == Step(old(isAuthenticated), Logout)
    {
      isAuthenticated := false;
    }

    /** `ProtectedRoute`: a redirect to the login page (not replacing the
        history entry) while logged out, the children otherwise. */
    function ProtectedRoute<T>(children: T): (v: View<T>)
      reads this
      ensures v.Navigate? <==> !isAuthenticated
      ensures v.Navigate? ==> v == Navigate(LoginPath, false)
      ensures v.Children? ==> v.content == children
    {
      if !isAuthenticated then Navigate(LoginPath, false) else Children(children)
    }

    /** The rendered tree for the current `path`, with `productList` the
        element guarded on `/`. Both routes match up to ASCII case and
        trailing slashes; a path neither matches renders no page. */
    function Render<T>(path: string, productList: T): (s: Screen<T>)
      reads this
      ensures s.appBar <==> isAuthenticated
      ensures RouteMatches("/", path) ==> s.page == Home(ProtectedRoute(productList))
      ensures RouteMatches(LoginPath, path) ==> s.page == LoginPage
      ensures !RouteMatches("/", path) && !RouteMatches(LoginPath, path) ==> s.page == NoMatch
    {
      var page :=
        if RouteMatches(LoginPath, path) then LoginPage
        else if RouteMatches("/", path) then Home(ProtectedRoute(productList))
        else NoMatch;
      Screen(isAuthenticated, page)
    }
  }

  /** `/LOGIN/` reaches the login page and `//` the guarded route, while a
      longer path such as `/login/x` matches neither route. */
  lemma RouteExamples<T>(app: AppState, productList: T)
    ensures app.Render("/LOGIN/", productList).page == LoginPage
    ensures app.Render("//", productList).page == Home(app.ProtectedRoute(productList))
    ensures app.Render("/login/x", productList).page == NoMatch
  {
    assert StripTrailingSlashes("/LOGIN/") == "/LOGIN";
    assert Lower("/LOGIN") == "/login";
    assert StripTrailingSlashes("//") == "";
    assert StripTrailingSlashes("/login/x") == "/login/x";
    assert |Lower("/login/x")| == 8;
  }

  /** `isAuthenticated` holds after a run of events exactly when some login
      was not followed by a logout; visits, at whatever time, change nothing. */
  lemma {:induction false} ReplayIffLoggedIn(events: seq<AppEvent>)
    ensures Replay(events) <==> LoggedInSinceLastLogout(events)
  {
    if events != [] {
      var n := |events| - 1;
      var init := events[..n];
      ReplayIffLoggedIn(init);
      match events[n]
      case Login =>
        assert events[n] == Login;
      case Logout =>
        if LoggedInSinceLastLogout(events) {
          var i :| 0 <= i < |events| && events[i] == Login &&
            forall j :: i < j < |events| ==> events[j] != Logout;
          assert false;
        }
      case Visit(_) =>
        if LoggedInSinceLastLogout(events) {
          var i :| 0 <= i < |events| && events[i] == Login &&
            forall j :: i < j < |events| ==> events[j] != Logout;
          assert init[i] == Login;
          assert forall j :: i < j < |init| ==> init[j] == events[j];
        }
        if LoggedInSinceLastLogout(init) {
          var i :| 0 <= i < |init| && init[i] == Login &&
            forall j :: i < j < |init| ==> init[j] != Logout;
          assert events[i] == Login;
          assert forall j :: i < j < n ==> events[j] == init[j];
        }
    }
  }

  /** Once logged in, `/` shows the product list and the AppBar stays up
      through any number of visits, at any times, until a logout. */
  lemma StaysLoggedInUntilLogout(before: seq<AppEvent>, visits: seq<AppEvent>)
    requires forall j :: 0 <= j < |visits| ==> visits[j].Visit?
    ensures Replay(before + [Login] + visits)
  {
    var events := before + [Login] + visits;
    var i := |before|;
    assert LoggedInSinceLastLogout(events) by {
      assert events[i] == Login;
      forall j | i < j < |events|
        ensures events[j] != Logout
      {
        assert events[j] == visits[j - i - 1];
      }
    }
    ReplayIffLoggedIn(events);
  }

  /** The gap between the two guards: an app that is logged in still shows
      `/` after the stored session has expired, when `PrivateRoute` would
      redirect to the login page. */
  lemma StaleLoginStillShowsHome<T>(app: AppState, token: string, t: nat, productList: T)
    requires app.isAuthenticated
    requires token != ""
    ensures var items := AfterSetAuth(map[], token, t);
      var now := t + SessionLifetime + 1;
      app.Render("/", productList) == Screen(true, Home(Children(productList))) &&
      PrivateRoute.PrivateRoute(SessionValid(items, now), productList) == Navigate(LoginPath, true)
  {
    SetAuthThenCheck(map[], token, t, t + SessionLifetime + 1);
  }
}
