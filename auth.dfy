/** The app lock of src/hooks/useAuth.tsx. The auth provider keeps the
    session, a loading flag and a locked flag; a flag in the browser's
    session storage records that this browser session has been unlocked, so
    a new session locks the app only until the user unlocks it. The session
    storage is a map from key to value; the backend's sign-out call and its
    events are left to the caller, which delivers them as handler calls. */
module Auth {
  import opened Common

  const UNLOCK_SESSION_KEY: string := "app_session_unlocked"

  /** A signed-in session; only the user id is kept. */
  datatype Session = Session(userId: string)

  /** The provider's fields and the browser's session storage. */
  datatype AuthState = AuthState(
    session: Option<Session>, loading: bool, locked: bool, storage: map<string, string>)

  /** `sessionStorage.getItem(UNLOCK_SESSION_KEY) === "true"` */
  predicate Unlocked(storage: map<string, string>) {
    UNLOCK_SESSION_KEY in storage && storage[UNLOCK_SESSION_KEY] == "true"
  }

  /** The state before any handler has run. */
  function Initial(storage: map<string, string>): (st: AuthState)
    ensures st.session.None? && st.loading && !st.locked && st.storage == storage
  {
    AuthState(None, true, false, storage)
  }

  /** `user: session?.user ?? null` */
  function User(st: AuthState): (u: Option<string>)
    ensures u.Some? <==> st.session.Some?
    ensures u.Some? ==> u.value == st.session.value.userId
  {
    if st.session.Some? then Some(st.session.value.userId) else None
  }

  // ---------------------------------------------------------------------
  // Handlers as functions of the state

  /** The `onAuthStateChange` handler. */
  function AuthChanged(st: AuthState, s: Option<Session>): AuthState {
    var st1 := st.(session := s, loading := false);
    if s.Some? && !Unlocked(st.storage) then st1.(locked := true)
    else if s.None? then st1.(locked := false, storage := st.storage - {UNLOCK_SESSION_KEY})
    else st1
  }

  /** The `getSession().then` handler. */
  function SessionLoaded(st: AuthState, s: Option<Session>): AuthState {
    var st1 := st.(session := s, loading := false);
    if s.Some? && !Unlocked(st.storage) then st1.(locked := true) else st1
  }

  /** `unlock` */
  function Unlock(st: AuthState): AuthState {
    st.(storage := st.storage[UNLOCK_SESSION_KEY := "true"], locked := false)
  }

  /** `signOut`, up to the backend call. */
  function SignOut(st: AuthState): AuthState {
    st.(storage := st.storage - {UNLOCK_SESSION_KEY})
  }

  // ---------------------------------------------------------------------
  // Properties

  /** A session event in a browser session not yet unlocked locks the app;
      in one already unlocked it leaves `locked` as it was. Either way the
      session is stored, the flag is kept and loading is over. */
  lemma AuthChangedWithSession(st: AuthState, s: Session)
    ensures var st' := AuthChanged(st, Some(s));
      st'.session == Some(s) && !st'.loading && st'.storage == st.storage
      && (!Unlocked(st.storage) ==> st'.locked)
      && (Unlocked(st.storage) ==> st'.locked == st.locked)
  {
  }

  /** A sign-out event unlocks and forgets that the session was unlocked;
      nothing else in the session storage changes. */
  lemma AuthChangedWithoutSession(st: AuthState)
    ensures var st' := AuthChanged(st, None);
      st'.session.None? && !st'.loading && !st'.locked && !Unlocked(st'.storage)
      && UNLOCK_SESSION_KEY !in st'.storage
      && forall k :: k in st.storage && k != UNLOCK_SESSION_KEY ==> k in st'.storage && st'.storage[k] == st.storage[k]
  {
  }

  /** The initial session read never unlocks and never touches the flag; with
      a session in a browser session not yet unlocked it locks. */
  lemma SessionLoadedEffect(st: AuthState, s: Option<Session>)
    ensures var st' := SessionLoaded(st, s);
      st'.session == s && !st'.loading && st'.storage == st.storage
      && (s.None? ==> st'.locked == st.locked)
      && (s.Some? && !Unlocked(st.storage) ==> st'.locked)
      && (s.Some? && Unlocked(st.storage) ==> st'.locked == st.locked)
  {
  }

  /** Unlocking sets the flag and clears the lock. */
  lemma UnlockEffect(st: AuthState)
    ensures Unlocked(Unlock(st).storage) && !Unlock(st).locked
    ensures Unlock(st).session == st.session && Unlock(st).loading == st.loading
  {
  }

  /** Signing out removes the flag, so the next session locks again. */
  lemma SignOutRelocks(st: AuthState, s: Session)
    ensures !Unlocked(SignOut(st).storage)
    ensures AuthChanged(SignOut(st), Some(s)).locked
    ensures SessionLoaded(SignOut(st), Some(s)).locked
  {
  }

  /** A backend event, as delivered to the provider. */
  datatype Event = AuthChange(s: Option<Session>) | GetSession(s: Option<Session>)

  function Apply(st: AuthState, e: Event): AuthState {
    match e
    case AuthChange(s) => AuthChanged(st, s)
    case GetSession(s) => SessionLoaded(st, s)
  }

  function Run(st: AuthState, events: seq<Event>): AuthState
    decreases |events|
  {
    if events == [] then st else Run(Apply(st, events[0]), events[1..])
  }

  /** The unlocked flag is only removed by a sign-out event. */
  predicate KeepsSession(e: Event) {
    e.GetSession? || e.s.Some?
  }

  /** After `unlock`, no sequence of events without a sign-out relocks the
      app, and the flag stays set. */
  lemma {:induction false} UnlockedStaysUnlocked(st: AuthState, events: seq<Event>)
    requires Unlocked(st.storage) && !st.locked
    requires forall i :: 0 <= i < |events| ==> KeepsSession(events[i])
    ensures Unlocked(Run(st, events).storage) && !Run(st, events).locked
    decreases |events|
  {
    if events != [] {
      var st' := Apply(st, events[0]);
      assert KeepsSession(events[0]);
      assert Unlocked(st'.storage) && !st'.locked;
      UnlockedStaysUnlocked(st', events[1..]);
    }
  }

  /** Once any handler has run, loading is over for good. */
  lemma {:induction false} LoadingEnds(st: AuthState, events: seq<Event>)
    requires events != []
    ensures !Run(st, events).loading
    decreases |events|
  {
    if |events| > 1 {
      LoadingEnds(Apply(st, events[0]), events[1..]);
    }
  }

  // ---------------------------------------------------------------------
  // The provider

  class AuthProvider {
    var session: Option<Session>
    var loading: bool
    var locked: bool
    /** `sessionStorage` */
    var storage: map<string, string>

    function State(): AuthState
      reads this
    {
      AuthState(session, loading, locked, storage)
    }

    constructor (storage: map<string, string>)
      ensures State() == Initial(storage)
    {
      session := None;
      loading := true;
      locked := false;
      this.storage := storage;
    }

    /** The `onAuthStateChange` listener on the provider's fields: it runs
        `AuthChanged`, the transition the lemmas above are about. */
    method OnAuthStateChange(s: Option<Session>)
      modifies this
      ensures State() == AuthChanged(old(State()), s)
    {
      session := s;
      loading := false;
      if s.Some? && !(UNLOCK_SESSION_KEY in storage && storage[UNLOCK_SESSION_KEY] == "true") {
        locked := true;
      } else if s.None? {
        locked := false;
        storage := storage - {UNLOCK_SESSION_KEY};
      }
    }

    /** The `getSession` callback on the provider's fields: it runs
        `SessionLoaded`, the transition the lemmas above are about. */
    method OnGetSession(s: Option<Session>)
      modifies this
      ensures State() == SessionLoaded(old(State()), s)
    {
      session := s;
      loading := false;
      if s.Some? && !(UNLOCK_SESSION_KEY in storage && storage[UNLOCK_SESSION_KEY] == "true") {
        locked := true;
      }
    }

    /** `unlock` on the provider's fields: it runs `Unlock`, the transition
        the lemmas above are about. */
    method DoUnlock()
      modifies this
      ensures State() == Unlock(old(State()))
    {
      storage := storage[UNLOCK_SESSION_KEY := "true"];
      locked := false;
    }

    /** `signOut` on the provider's fields: it runs `SignOut`, the transition
        the lemmas above are about. */
    method DoSignOut()
      modifies this
      ensures State() == SignOut(old(State()))
    {
      storage := storage - {UNLOCK_SESSION_KEY};
    }
  }
}
