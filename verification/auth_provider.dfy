/** The session store: the authentication state `(isAuthenticated, user,
    token)`, the `loading` flag, and the one persisted `adminAuth` entry,
    with the operations init (hydrate from storage), login and logout. */
module AuthProvider {
  import opened Wrappers

  /** A user or token value as held in memory: null or absent, or present. */
  datatype Value = Null | Present(text: string)

  /** What the `adminAuth` storage entry holds, when it exists.
      `Blank` is the empty string: falsy, so it is neither read nor removed.
      `Record` is text that parses and destructures; a JSON primitive
      destructures to two absent fields, i.e. `Record(Null, Null)`.
      `Corrupt` is text on which `JSON.parse` or the destructuring throws
      (JSON `null` among them). */
  datatype Entry = Blank | Record(user: Value, token: Value) | Corrupt

  /** The in-memory authentication state. */
  datatype Session = Session(isAuthenticated: bool, user: Value, token: Value)

  /** The whole store: session, loading flag and the persisted cell. */
  datatype Provider = Provider(session: Session, loading: bool, stored: Option<Entry>)

  const StorageKey: string := "adminAuth"

  /** The signed-out session: what the store starts with and what logout restores. */
  const SignedOut: Session := Session(false, Null, Null)

  /** `if (storedAuth)`: an entry exists and is not the empty string. */
  predicate EntryPresent(stored: Option<Entry>) {
    stored.Some? && stored.value != Blank
  }

  /** The store as first rendered, before the init effect has run. */
  function Initial(stored: Option<Entry>): (p: Provider)
    ensures !p.session.isAuthenticated && p.session.user == Null && p.session.token == Null
    ensures p.loading && p.stored == stored
  {
    Provider(SignedOut, true, stored)
  }

  /** The init effect: a present entry that parses becomes the session
      verbatim; a corrupt one is removed and the session is left alone;
      in every branch `loading` ends false. */
  function Init(p: Provider): (q: Provider)
    ensures !q.loading
    ensures (p.stored.Some? && p.stored.value.Record?) ==>
              q.session == Session(true, p.stored.value.user, p.stored.value.token)
              && q.stored == p.stored
    ensures p.stored == Some(Corrupt) ==> q.session == p.session && q.stored.None?
    ensures !EntryPresent(p.stored) ==> q.session == p.session && q.stored == p.stored
  {
    var hydrated :=
      match p.stored
      case Some(Record(user, token)) => p.(session := Session(true, user, token))
      case Some(Corrupt) => p.(stored := None)
      case _ => p;
    hydrated.(loading := false)
  }

  /** login(userData, token): authenticated with exactly these values,
      whatever they are, and `{user, token}` persisted. */
  function Login(p: Provider, user: Value, token: Value): (q: Provider)
    ensures q.session.isAuthenticated
    ensures q.session.user == user && q.session.token == token
    ensures q.stored == Some(Record(user, token))
    ensures q.loading == p.loading
  {
    Provider(Session(true, user, token), p.loading, Some(Record(user, token)))
  }

  /** logout(): the signed-out session and no persisted entry. */
  function Logout(p: Provider): (q: Provider)
    ensures !q.session.isAuthenticated && q.session.user == Null && q.session.token == Null
    ensures q.stored.None?
    ensures q.loading == p.loading
  {
    Provider(SignedOut, p.loading, None)
  }

  /** Hydration ends loading whatever the entry is, and authenticates
      exactly when the entry parsed. */
  lemma InitOutcome(stored: Option<Entry>)
    ensures var q := Init(Initial(stored));
      && !q.loading
      && (q.session.isAuthenticated <==> stored.Some? && stored.value.Record?)
      && (stored == Some(Corrupt) ==> q.session == SignedOut && q.stored.None?)
  {
  }

  lemma LogoutIdempotent(p: Provider)
    ensures Logout(Logout(p)) == Logout(p)
  {
  }

  /** What login persists is read back verbatim by the next page load. */
  lemma LoginThenReload(p: Provider, user: Value, token: Value)
    ensures Init(Initial(Login(p, user, token).stored)).session == Session(true, user, token)
  {
  }

  /** Authentication does not imply a token: a login or a stored record
      with a null token is still authenticated. */
  lemma AuthenticatedWithoutToken(p: Provider, user: Value)
    ensures Login(p, user, Null).session.isAuthenticated
    ensures Login(p, user, Null).session.token == Null
    ensures Init(Initial(Some(Record(user, Null)))).session == Session(true, user, Null)
  {
  }

  /** The operations that change the store. */
  datatype Op = DoInit | DoLogin(user: Value, token: Value) | DoLogout

  function Apply(p: Provider, op: Op): Provider {
    match op
    case DoInit => Init(p)
    case DoLogin(u, t) => Login(p, u, t)
    case DoLogout => Logout(p)
  }

  function Run(p: Provider, ops: seq<Op>): Provider
    decreases |ops|
  {
    if |ops| == 0 then p else Run(Apply(p, ops[0]), ops[1..])
  }

  /** The store's invariant: an authenticated session is exactly what is
      persisted, and a signed-out one holds no user or token. */
  predicate Consistent(p: Provider) {
    && (p.session.isAuthenticated ==> p.stored == Some(Record(p.session.user, p.session.token)))
    && (!p.session.isAuthenticated ==> p.session.user == Null && p.session.token == Null)
  }

  lemma ApplyKeepsConsistent(p: Provider, op: Op)
    requires Consistent(p)
    ensures Consistent(Apply(p, op))
  {
  }

  /** Every sequence of init, login and logout from a consistent store
      (in particular from `Initial`) keeps it consistent. */
  lemma {:induction false} RunKeepsConsistent(p: Provider, ops: seq<Op>)
    requires Consistent(p)
    ensures Consistent(Run(p, ops))
    decreases |ops|
  {
    if |ops| > 0 {
      ApplyKeepsConsistent(p, ops[0]);
      RunKeepsConsistent(Apply(p, ops[0]), ops[1..]);
    }
  }

  lemma InitialConsistent(stored: Option<Entry>)
    ensures Consistent(Initial(stored))
  {
  }
}
