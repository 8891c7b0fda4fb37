/**
 * The session provider: the `user`, `session` and `loading` states, the
 * session resolution run at startup and on every auth-state push, and the
 * login, signup and logout actions. Each backend call is split into the
 * step that sets `loading` and the step that handles the backend's answer,
 * which is a parameter.
 */
module AuthContext {
  import opened Common

  datatype User = User(id: string, email: string)

  datatype Session = Session(user: User, accessToken: string)

  /** The auth calls the provider makes. */
  datatype Request =
    | SignInWithPassword(email: string, password: string)
    | SignUp(email: string, password: string)
    | SignOut

  /** `currentSession?.user ?? null` */
  function UserOf(session: Option<Session>): (u: Option<User>)
    ensures u.Some? <==> session.Some?
    ensures u.Some? ==> u.value == session.value.user
  {
    if session.Some? then Some(session.value.user) else None
  }

  /** The value the provider publishes to `useAuth()` consumers. */
  datatype AuthValue = AuthValue(user: Option<User>, session: Option<Session>, loading: bool)

  class AuthProvider {
    var user: Option<User>
    var session: Option<Session>
    var loading: bool
    var toasts: seq<Toast>

    /** The user is the session's user, and there is none without a session. */
    ghost predicate Valid()
      reads this
    {
      user == UserOf(session)
    }

    function Value(): AuthValue
      reads this
    {
      AuthValue(user, session, loading)
    }

    /**
     * `{!loading && children}`: children see the value only once loading has
     * cleared, and then, under the invariant, a user exactly when a session.
     */
    predicate RendersChildren()
      reads this
      ensures RendersChildren() <==> !Value().loading
      ensures RendersChildren() && Valid() ==> (Value().user.Some? <==> Value().session.Some?)
    {
      !loading
    }

    constructor ()
      ensures Valid()
      ensures user == None && session == None && loading && toasts == []
      ensures !RendersChildren()
    {
      user, session, loading := None, None, true;
      toasts := [];
    }

    /**
     * What `fetchSession` does once `getSession()` answers, and what the
     * auth-state listener does on every push.
     */
    method ResolveSession(current: Option<Session>)
      modifies this`user, this`session, this`loading
      ensures Valid()
      ensures session == current && user == UserOf(current) && !loading
      ensures RendersChildren()
    {
      session := current;
      user := UserOf(current);
      loading := false;
    }

    /** `setLoading(true)`, the first step of login, signup and logout. */
    method BeginRequest()
      modifies this`loading
      ensures loading && !RendersChildren()
    {
      loading := true;
    }

    /** The rest of `login` once `signInWithPassword` answers; the session itself arrives by push. */
    method CompleteLogin(response: Result<()>) returns (ok: bool)
      requires Valid()
      modifies this`loading, this`toasts
      ensures Valid() && !loading
      ensures ok <==> response.Ok?
      ensures toasts == old(toasts) + [
        if response.Ok? then Toast("Login Successful", "Welcome back!", Default)
        else Toast("Login Failed", response.message, Destructive)]
    {
      loading := false;
      if response.Err? {
        toasts := toasts + [Toast("Login Failed", response.message, Destructive)];
        return false;
      }
      toasts := toasts + [Toast("Login Successful", "Welcome back!", Default)];
      return true;
    }

    /** `login(email, password)` */
    method Login(email: string, password: string, response: Result<()>) returns (ok: bool, req: Request)
      requires Valid()
      modifies this`loading, this`toasts
      ensures Valid() && !loading
      ensures req == SignInWithPassword(email, password)
      ensures ok <==> response.Ok?
      ensures toasts == old(toasts) + [
        if response.Ok? then Toast("Login Successful", "Welcome back!", Default)
        else Toast("Login Failed", response.message, Destructive)]
    {
      BeginRequest();
      req := SignInWithPassword(email, password);
      ok := CompleteLogin(response);
    }

    /** The rest of `signup` once `signUp` answers; success means the request was accepted. */
    method CompleteSignup(response: Result<()>) returns (ok: bool)
      requires Valid()
      modifies this`loading, this`toasts
      ensures Valid() && !loading
      ensures ok <==> response.Ok?
      ensures toasts == old(toasts) + [
        if response.Ok? then Toast("Signup Successful", "Please check your email to verify your account.", Default)
        else Toast("Signup Failed", response.message, Destructive)]
    {
      loading := false;
      if response.Err? {
        toasts := toasts + [Toast("Signup Failed", response.message, Destructive)];
        return false;
      }
      toasts := toasts + [Toast("Signup Successful", "Please check your email to verify your account.", Default)];
      return true;
    }

    /** `signup(email, password)` */
    method Signup(email: string, password: string, response: Result<()>) returns (ok: bool, req: Request)
      requires Valid()
      modifies this`loading, this`toasts
      ensures Valid() && !loading
      ensures req == SignUp(email, password)
      ensures ok <==> response.Ok?
      ensures toasts == old(toasts) + [
        if response.Ok? then Toast("Signup Successful", "Please check your email to verify your account.", Default)
        else Toast("Signup Failed", response.message, Destructive)]
    {
      BeginRequest();
      req := SignUp(email, password);
      ok := CompleteSignup(response);
    }

    /** The rest of `logout` once `signOut` answers: a failure leaves the session as it was. */
    method CompleteLogout(response: Result<()>)
      requires Valid()
      modifies this`user, this`session, this`loading, this`toasts
      ensures Valid() && !loading
      ensures response.Ok? ==> user == None && session == None
      ensures response.Err? ==> user == old(user) && session == old(session)
      ensures toasts == old(toasts) + [
        if response.Ok? then Toast("Logged Out", "You have been successfully logged out.", Default)
        else Toast("Logout Failed", response.message, Destructive)]
    {
      loading := false;
      if response.Err? {
        toasts := toasts + [Toast("Logout Failed", response.message, Destructive)];
        return;
      }
      user := None;
      session := None;
      toasts := toasts + [Toast("Logged Out", "You have been successfully logged out.", Default)];
    }

    /** `logout()` */
    method Logout(response: Result<()>) returns (req: Request)
      requires Valid()
      modifies this`user, this`session, this`loading, this`toasts
      ensures Valid() && !loading
      ensures req == SignOut
      ensures response.Ok? ==> user == None && session == None
      ensures response.Err? ==> user == old(user) && session == old(session)
      ensures toasts == old(toasts) + [
        if response.Ok? then Toast("Logged Out", "You have been successfully logged out.", Default)
        else Toast("Logout Failed", response.message, Destructive)]
    {
      BeginRequest();
      req := SignOut;
      CompleteLogout(response);
    }
  }

  /**
   * A client run: startup resolves no session, a login succeeds and its
   * session arrives by push, and a logout clears it again.
   */
  method LoginLogoutScenario(s: Session, email: string, password: string)
  {
    var auth := new AuthProvider();
    assert !auth.RendersChildren();
    auth.ResolveSession(None);
    assert auth.user == None && auth.RendersChildren();
    var ok, req := auth.Login(email, password, Ok(()));
    assert ok && auth.user == None;
    auth.ResolveSession(Some(s));
    assert auth.user == Some(s.user);
    var _ := auth.Logout(Ok(()));
    assert auth.user == None && auth.session == None && |auth.toasts| == 2;
  }
}
