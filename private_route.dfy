/** `src/components/PrivateRoute.jsx`: a route element that shows its
    children only while `checkAuth()` holds. */
module PrivateRoute {
  import opened Router
  import opened Auth

  /** The element for a given `checkAuth()` result: a replacing redirect to
      the login page, whatever was asked for, or the children untouched. */
  function PrivateRoute<T>(authenticated: bool, children: T): (v: View<T>)
    ensures !authenticated <==> v == Navigate(LoginPath, true)
    ensures authenticated <==> v == Children(children)
  {
    if !authenticated then Navigate(LoginPath, true) else Children(children)
  }

  /** One evaluation of the element: `checkAuth()` runs exactly once, so an
      expired session is cleared from storage as a side effect of the guard. */
  method EvaluatePrivateRoute<T>(storage: LocalStorage, now: nat, children: T) returns (v: View<T>)
    modifies storage
    ensures v == PrivateRoute(SessionValid(old(storage.items), now), children)
    ensures storage.items == AfterCheck(old(storage.items), now)
  {
    var authenticated := CheckAuth(storage, now);
    v := PrivateRoute(authenticated, children);
  }

  /** Once an evaluation has redirected because the session expired, every
      later evaluation redirects too, until `setAuth` is called again. */
  lemma RedirectsAfterExpiry<T>(items: map<string, string>, now: nat, later: seq<nat>, children: T)
    requires SessionExpired(items, now)
    ensures PrivateRoute(SessionValid(items, now), children) == Navigate(LoginPath, true)
    ensures forall i :: 0 <= i < |later| ==>
      PrivateRoute(SessionValid(RunChecks(AfterCheck(items, now), later[..i]), later[i]), children)
        == Navigate(LoginPath, true)
  {
    ExpiryIsFinal(items, now, later);
  }

  /** After `setAuth(token)` at `t` with a non-empty token, the guarded page
      is shown at every time up to `t + 5 minutes` and redirects after it. */
  lemma ShownForFiveMinutes<T>(items: map<string, string>, token: string, t: nat, now: nat, children: T)
    requires token != ""
    ensures PrivateRoute(SessionValid(AfterSetAuth(items, token, t), now), children)
      == if now <= t + SessionLifetime then Children(children) else Navigate(LoginPath, true)
  {
    SetAuthThenCheck(items, token, t, now);
  }
}
