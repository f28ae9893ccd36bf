/**
 * The session of App.jsx: the signed-in user is held twice, in the
 * component's state and under the `currentUser` storage key, and login and
 * logout update both copies together.
 */
module Session {
  import opened Wrappers
  import opened Entities
  import opened Storage

  /** The lazy initialiser's `try`/`catch`: a parsed entry is used as it is, a parse failure becomes no session. */
  function Hydrate(parsed: Parsed<Option<SessionUser>>): (r: Option<SessionUser>)
    ensures parsed.ParseError? ==> r == None
    ensures parsed.Parsed? ==> r == parsed.value
  {
    match parsed
    case Parsed(v) => v
    case ParseError => None
  }

  /** At start-up the session is the stored user when there is one and none otherwise, a malformed entry included. */
  lemma {:induction false} HydrateStored(stored: StoredSession)
    ensures Hydrate(ParseSession(stored)).Some? <==> stored.Present?
    ensures stored.Present? ==> Hydrate(ParseSession(stored)) == Some(stored.user)
    ensures stored.Malformed? ==> Hydrate(ParseSession(stored)) == None
  {
    match stored
    case Absent =>
    case Present(u) =>
    case Malformed =>
  }

  class App {
    const store: LocalStore
    var currentUser: Option<SessionUser>

    /** The copy in memory is what the stored copy decodes to. */
    predicate InSync()
      reads this, store
    {
      currentUser == Hydrate(ParseSession(store.currentUser))
    }

    /** The lazy `useState` initialiser: reads `currentUser` once and writes nothing. */
    constructor (store: LocalStore)
      ensures this.store == store
      ensures currentUser == Hydrate(store.GetCurrentUser())
      ensures InSync()
    {
      this.store := store;
      currentUser := Hydrate(store.GetCurrentUser());
    }

    /** `handleLogin(u)`: both copies become `u`. */
    method HandleLogin(user: SessionUser)
      modifies this`currentUser, store`currentUser
      ensures currentUser == Some(user) && store.currentUser == Present(user)
      ensures InSync()
    {
      currentUser := Some(user);
      store.SetCurrentUser(user);
    }

    /** `handleLogout()`: no session in memory and no `currentUser` key. */
    method HandleLogout()
      modifies this`currentUser, store`currentUser
      ensures currentUser == None && store.currentUser == Absent
      ensures InSync()
    {
      currentUser := None;
      store.RemoveCurrentUser();
    }
  }
}
