/** The route guard wrapped around the admin shell: while the session
    store hydrates it shows a placeholder; a visitor with neither a session
    nor a persisted entry is sent to the login page with the history entry
    replaced; everyone else sees the protected outlet. */
module ProtectedRoute {
  import opened Wrappers
  import opened AuthProvider

  const LoginPath: string := "/login"

  /** What the guard renders. */
  datatype View = Placeholder | Redirect(to: string, replace: bool) | Outlet

  /** The guard's decision over `(loading, isAuthenticated, storedEntryPresent)`. */
  function Decide(loading: bool, isAuthenticated: bool, storedPresent: bool): (v: View)
    ensures v == Placeholder || v == Redirect(LoginPath, true) || v == Outlet
    ensures loading ==> v == Placeholder
    ensures !loading && !isAuthenticated && !storedPresent ==> v == Redirect(LoginPath, true)
    ensures !loading && (isAuthenticated || storedPresent) ==> v == Outlet
  {
    if loading then Placeholder
    else if !isAuthenticated && !storedPresent then Redirect(LoginPath, true)
    else Outlet
  }

  /** The guard reading the store and the `adminAuth` entry. */
  function Guard(p: Provider): (v: View)
    ensures v == Placeholder <==> p.loading
    ensures v == Outlet <==> !p.loading && (p.session.isAuthenticated || EntryPresent(p.stored))
  {
    Decide(p.loading, p.session.isAuthenticated, EntryPresent(p.stored))
  }

  /** Before hydration, whatever is stored, the guard only waits. */
  lemma GuardBeforeInit(stored: Option<Entry>)
    ensures Guard(Initial(stored)) == Placeholder
  {
  }

  /** After a page load the guard never stays on the placeholder: it
      renders exactly when the stored entry parsed; no entry, a blank one
      or a corrupt one (which init removes) all redirect. */
  lemma GuardAfterReload(stored: Option<Entry>)
    ensures Guard(Init(Initial(stored))) ==
              if stored.Some? && stored.value.Record? then Outlet else Redirect(LoginPath, true)
  {
  }

  /** After logout, once not loading, the guard redirects to the login page. */
  lemma GuardAfterLogout(p: Provider)
    requires !p.loading
    ensures Guard(Logout(p)) == Redirect(LoginPath, true)
  {
  }

  /** After login, once not loading, the guard renders the outlet, and so
      does the next page load. */
  lemma GuardAfterLogin(p: Provider, user: Value, token: Value)
    requires !p.loading
    ensures Guard(Login(p, user, token)) == Outlet
    ensures Guard(Init(Initial(Login(p, user, token).stored))) == Outlet
  {
  }

  /** After any run of init, login and logout from a fresh page load, once
      hydrated, the guard renders exactly when the persisted entry is
      present: the session never lets a visitor in that storage would not. */
  lemma {:induction false} GuardFollowsStorage(stored: Option<Entry>, ops: seq<Op>)
    requires !Run(Initial(stored), ops).loading
    ensures var q := Run(Initial(stored), ops);
      Guard(q) == if EntryPresent(q.stored) then Outlet else Redirect(LoginPath, true)
  {
    InitialConsistent(stored);
    RunKeepsConsistent(Initial(stored), ops);
  }
}
