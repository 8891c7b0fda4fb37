/**
 * The route guard: a decision on the provider's `loading` flag and `user`.
 */
module ProtectedRoute {
  import opened Common
  import AuthContext

  datatype Outcome = LoadingPlaceholder | Redirect(to: string, replace: bool) | RenderChildren

  function Guard(loading: bool, user: Option<AuthContext.User>): (o: Outcome)
    ensures loading ==> o == LoadingPlaceholder
    ensures !loading && user.None? ==> o == Redirect("/login", true)
    ensures !loading && user.Some? ==> o == RenderChildren
  {
    if loading then LoadingPlaceholder
    else if user.None? then Redirect("/login", true)
    else RenderChildren
  }

  /**
   * Inside a provider that keeps its invariant the guard never sees
   * `loading` (the provider renders no children then), and it lets the
   * route through exactly when there is a session.
   */
  lemma GuardUnderProvider(v: AuthContext.AuthValue)
    requires !v.loading && v.user == AuthContext.UserOf(v.session)
    ensures Guard(v.loading, v.user) != LoadingPlaceholder
    ensures Guard(v.loading, v.user) == RenderChildren <==> v.session.Some?
    ensures Guard(v.loading, v.user) == Redirect("/login", true) <==> v.session.None?
  {
  }

  /** After any session resolution the guard decides by that session alone. */
  method GuardAfterResolution(current: Option<AuthContext.Session>) returns (o: Outcome)
    ensures o == (if current.Some? then RenderChildren else Redirect("/login", true))
  {
    var auth := new AuthContext.AuthProvider();
    auth.ResolveSession(current);
    assert auth.RendersChildren();
    GuardUnderProvider(auth.Value());
    o := Guard(auth.loading, auth.user);
  }
}
