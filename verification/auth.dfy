/** The authentication context: an administrator flag backed by a persisted key,
    and the signed-in user of the authentication service. The administrator
    credentials are parameters. */
module Auth {
  import opened Wrappers

  /** A signed-in user of the authentication service. */
  datatype User = User(id: string, email: string)

  /** The context's state and the persisted `sp_admin_auth` entry. */
  datatype AuthState = AuthState(user: Option<User>, isAdmin: bool, storedAdminFlag: Option<string>)

  /** The administrator credentials the context compares against. */
  datatype AdminCredentials = AdminCredentials(username: string, password: string)

  /** What `loginUser` and `signUp` resolve to. */
  datatype AuthResult = AuthResult(success: bool, error: Option<string>)

  const StoredTrue: string := "true"

  /** The administrator flag agrees with the persisted entry. */
  predicate FlagPersisted(s: AuthState)
  {
    s.isAdmin <==> s.storedAdminFlag == Some(StoredTrue)
  }

  /** `isAuthenticated`. */
  predicate IsAuthenticated(s: AuthState)
  {
    s.isAdmin || s.user.Some?
  }

  /** The state once the provider has mounted: the administrator flag is on exactly
      when the persisted entry is `'true'`, and the user is the session's user. */
  function Startup(stored: Option<string>, session: Option<User>): (s: AuthState)
    ensures s.isAdmin <==> stored == Some(StoredTrue)
    ensures s.user == session && s.storedAdminFlag == stored
    ensures FlagPersisted(s)
  {
    AuthState(session, stored == Some(StoredTrue), stored)
  }

  /** `loginAdmin`: succeeds exactly when both the username and the password are
      the configured ones, and then sets the flag and persists it; a failed attempt
      changes nothing. */
  function LoginAdmin(s: AuthState, admin: AdminCredentials, username: string, password: string): (r: (AuthState, bool))
    ensures r.1 <==> username == admin.username && password == admin.password
    ensures r.1 ==> r.0 == s.(isAdmin := true, storedAdminFlag := Some(StoredTrue))
    ensures !r.1 ==> r.0 == s
    ensures FlagPersisted(s) ==> FlagPersisted(r.0)
    ensures r.1 ==> IsAuthenticated(r.0)
  {
    if username == admin.username && password == admin.password then
      (s.(isAdmin := true, storedAdminFlag := Some(StoredTrue)), true)
    else (s, false)
  }

  /** `loginUser`. `signIn` is the password sign-in: the user, or the error's
      message (a thrown error is handled alike). */
  function LoginUser(s: AuthState, signIn: Result<User>): (r: (AuthState, AuthResult))
    ensures signIn.Success? ==> r.0 == s.(user := Some(signIn.value)) && r.1 == AuthResult(true, None)
    ensures signIn.Failure? ==> r.0 == s && r.1 == AuthResult(false, Some(signIn.error))
    ensures r.0.isAdmin == s.isAdmin && r.0.storedAdminFlag == s.storedAdminFlag
  {
    match signIn
    case Success(u) => (s.(user := Some(u)), AuthResult(true, None))
    case Failure(e) => (s, AuthResult(false, Some(e)))
  }

  /** `signUp`: reports the registration's outcome and never changes the state. */
  function SignUp(s: AuthState, registration: Result<User>): (r: (AuthState, AuthResult))
    ensures r.0 == s
    ensures r.1.success <==> registration.Success?
    ensures registration.Failure? ==> r.1.error == Some(registration.error)
  {
    match registration
    case Success(_) => (s, AuthResult(true, None))
    case Failure(e) => (s, AuthResult(false, Some(e)))
  }

  /** `logout`: the administrator flag and its persisted entry are cleared when it
      was set, and a signed-in user is signed out. */
  function Logout(s: AuthState): (r: AuthState)
    ensures !r.isAdmin && r.user.None?
    ensures !IsAuthenticated(r)
    ensures s.isAdmin ==> r.storedAdminFlag.None?
    ensures !s.isAdmin ==> r.storedAdminFlag == s.storedAdminFlag
    ensures FlagPersisted(s) ==> FlagPersisted(r)
  {
    var afterAdmin := if s.isAdmin then s.(isAdmin := false, storedAdminFlag := None) else s;
    if afterAdmin.user.Some? then afterAdmin.(user := None) else afterAdmin
  }

  /** The operations, as one step of the context's life. */
  datatype AuthEvent =
    | AdminLogin(username: string, password: string)
    | UserLogin(signIn: Result<User>)
    | Registration(registration: Result<User>)
    | SignOut

  function Step(s: AuthState, admin: AdminCredentials, e: AuthEvent): AuthState
  {
    match e
    case AdminLogin(u, p) => LoginAdmin(s, admin, u, p).0
    case UserLogin(r) => LoginUser(s, r).0
    case Registration(r) => SignUp(s, r).0
    case SignOut => Logout(s)
  }

  function Run(s: AuthState, admin: AdminCredentials, events: seq<AuthEvent>): AuthState
    decreases |events|
  {
    if |events| == 0 then s else Run(Step(s, admin, events[0]), admin, events[1..])
  }

  /** From startup on, whatever happens, the administrator flag agrees with the
      persisted entry, so a reload restores the same flag. */
  lemma {:induction false} FlagAlwaysPersisted(stored: Option<string>, session: Option<User>,
                                               admin: AdminCredentials, events: seq<AuthEvent>)
    ensures FlagPersisted(Run(Startup(stored, session), admin, events))
    ensures Run(Startup(stored, session), admin, events).isAdmin ==
            Startup(Run(Startup(stored, session), admin, events).storedAdminFlag, None).isAdmin
  {
    RunKeepsFlag(Startup(stored, session), admin, events);
  }

  lemma {:induction false} RunKeepsFlag(s: AuthState, admin: AdminCredentials, events: seq<AuthEvent>)
    requires FlagPersisted(s)
    ensures FlagPersisted(Run(s, admin, events))
    decreases |events|
  {
    if |events| > 0 {
      RunKeepsFlag(Step(s, admin, events[0]), admin, events[1..]);
    }
  }
}
