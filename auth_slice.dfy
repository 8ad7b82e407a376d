/**
 * The credential store: the session (authenticated flag, current user, last error) and
 * the registry of users, with the reducers `register`, `login`, `logout` and
 * `clearAuthError`. The registry, which the source keeps only in storage under the
 * `users` key, is an explicit field here; both storage writes are ghost snapshots.
 */
module Credentials {
  import opened Options

  /** Passwords are stored and compared as plain text. */
  datatype User = User(username: string, password: string)

  datatype Session = Session(isAuthenticated: bool, currentUser: Option<User>, error: Option<string>)

  const SignedOut := Session(false, None, None)
  const UsernameTaken := "Username already exists."
  const BadCredentials := "Invalid username or password."

  /** `users.find(u => u.username === name)` finds someone. */
  predicate HasUsername(users: seq<User>, name: string) {
    exists i | 0 <= i < |users| :: users[i].username == name
  }

  predicate Matches(u: User, username: string, password: string) {
    u.username == username && u.password == password
  }

  /** `users.find(u => u.username === username && u.password === password)`. */
  function FindUser(users: seq<User>, username: string, password: string): (r: Option<User>)
    ensures r.None? <==> forall i | 0 <= i < |users| :: !Matches(users[i], username, password)
    ensures r.Some? ==> exists k | 0 <= k < |users| ::
      users[k] == r.value && Matches(r.value, username, password) &&
      forall j | 0 <= j < k :: !Matches(users[j], username, password)
  {
    if |users| == 0 then None
    else if Matches(users[0], username, password) then Some(users[0])
    else
      var r := FindUser(users[1..], username, password);
      assert r.Some? ==> exists k | 1 <= k < |users| ::
        users[k] == r.value && forall j | 0 <= j < k :: !Matches(users[j], username, password) by {
        if r.Some? {
          var k :| 0 <= k < |users[1..]| && users[1..][k] == r.value &&
            forall j | 0 <= j < k :: !Matches(users[1..][j], username, password);
          assert users[k + 1] == r.value;
          forall j | 0 <= j < k + 1 ensures !Matches(users[j], username, password) {
            if j > 0 { assert users[j] == users[1..][j - 1]; }
          }
        }
      }
      r
  }

  /** The registry after `register(u)`: unchanged when the name is taken, else `u` appended. */
  function RegistryAfter(users: seq<User>, u: User): (r: seq<User>)
    ensures HasUsername(users, u.username) ==> r == users
    ensures !HasUsername(users, u.username) ==> r == users + [u]
  {
    if HasUsername(users, u.username) then users else users + [u]
  }

  /** The registry after `register` has been called with each of `candidates` in turn. */
  function RegistryAfterAll(users: seq<User>, candidates: seq<User>): seq<User>
    decreases |candidates|
  {
    if |candidates| == 0 then users
    else RegistryAfterAll(RegistryAfter(users, candidates[0]), candidates[1..])
  }

  predicate UniqueUsernames(users: seq<User>) {
    forall i, j | 0 <= i < j < |users| :: users[i].username != users[j].username
  }

  /** One `register` call keeps the usernames unique. */
  lemma RegisterKeepsUnique(users: seq<User>, u: User)
    requires UniqueUsernames(users)
    ensures UniqueUsernames(RegistryAfter(users, u))
  {
  }

  /** Any sequence of `register` calls keeps the usernames unique. */
  lemma {:induction false} RegisterAllKeepsUnique(users: seq<User>, candidates: seq<User>)
    requires UniqueUsernames(users)
    ensures UniqueUsernames(RegistryAfterAll(users, candidates))
    decreases |candidates|
  {
    if |candidates| > 0 {
      RegisterKeepsUnique(users, candidates[0]);
      RegisterAllKeepsUnique(RegistryAfter(users, candidates[0]), candidates[1..]);
    }
  }

  /**
   * When no two names clash, every `register` call succeeds: the registry grows by
   * exactly the candidates, in order, and so by one user per call.
   */
  lemma {:induction false} RegisterAllDistinct(users: seq<User>, candidates: seq<User>)
    requires UniqueUsernames(users + candidates)
    ensures RegistryAfterAll(users, candidates) == users + candidates
    ensures |RegistryAfterAll(users, candidates)| == |users| + |candidates|
    decreases |candidates|
  {
    if |candidates| > 0 {
      var c := candidates[0];
      assert !HasUsername(users, c.username) by {
        forall i | 0 <= i < |users| ensures users[i].username != c.username {
          assert (users + candidates)[i] == users[i];
          assert (users + candidates)[|users|] == c;
        }
      }
      assert users + candidates == (users + [c]) + candidates[1..];
      RegisterAllDistinct(users + [c], candidates[1..]);
    }
  }

  /** A second `register` with a name already taken leaves the registry as it was. */
  lemma RegisterTwiceRejected(users: seq<User>, u: User, v: User)
    requires u.username == v.username
    ensures RegistryAfter(RegistryAfter(users, u), v) == RegistryAfter(users, u)
  {
    var r := RegistryAfter(users, u);
    if !HasUsername(users, u.username) {
      assert r[|r| - 1] == u;
    }
  }

  class AuthStore {
    var isAuthenticated: bool
    var currentUser: Option<User>
    var error: Option<string>
    /** The registry of users (the `users` storage key). */
    var users: seq<User>
    /** The last snapshot written under the `users` key, if any. */
    ghost var savedUsers: Option<seq<User>>
    /** The last snapshot written under the `authState` key, if any. */
    ghost var savedSession: Option<Session>

    function CurrentSession(): Session
      reads this
    {
      Session(isAuthenticated, currentUser, error)
    }

    /**
     * The registry field is what a reducer would read back from storage: the last
     * registry written, or empty when none was ever stored.
     */
    ghost predicate RegistryStored()
      reads this
    {
      users == if savedUsers.Some? then savedUsers.value else []
    }

    /** An authenticated session has a current user. */
    ghost predicate SessionConsistent()
      reads this
    {
      isAuthenticated ==> currentUser.Some?
    }

    /** An authenticated session names a user of the registry. */
    ghost predicate Valid()
      reads this
    {
      SessionConsistent() && (isAuthenticated ==> currentUser.value in users)
    }

    /**
     * The store starts from the session and registry found in storage, each falling
     * back to its default (signed out, no users) when absent; starting writes nothing.
     */
    constructor (storedSession: Option<Session>, storedUsers: Option<seq<User>>)
      ensures CurrentSession() == if storedSession.Some? then storedSession.value else SignedOut
      ensures users == if storedUsers.Some? then storedUsers.value else []
      ensures savedSession == storedSession && savedUsers == storedUsers
      ensures storedSession.None? ==> Valid()
      ensures RegistryStored()
    {
      var s := if storedSession.Some? then storedSession.value else SignedOut;
      isAuthenticated, currentUser, error := s.isAuthenticated, s.currentUser, s.error;
      users := if storedUsers.Some? then storedUsers.value else [];
      savedSession, savedUsers := storedSession, storedUsers;
    }

    /**
     * `register(u)`: a taken username only sets the error; otherwise the user is appended
     * to the registry (which is written) and signed in. The session is written either way.
     */
    method Register(u: User)
      modifies this
      ensures users == RegistryAfter(old(users), u)
      ensures old(HasUsername(users, u.username)) ==>
        error == Some(UsernameTaken) &&
        isAuthenticated == old(isAuthenticated) && currentUser == old(currentUser) &&
        savedUsers == old(savedUsers)
      ensures !old(HasUsername(users, u.username)) ==>
        CurrentSession() == Session(true, Some(u), None) && savedUsers == Some(users)
      ensures savedSession == Some(CurrentSession())
      ensures old(RegistryStored()) ==> RegistryStored()
      ensures old(SessionConsistent()) ==> SessionConsistent()
      ensures old(Valid()) ==> Valid()
      ensures old(UniqueUsernames(users)) ==> UniqueUsernames(users)
    {
      if HasUsername(users, u.username) {
        error := Some(UsernameTaken);
        savedSession := Some(CurrentSession());
        return;
      }
      users := users + [u];
      savedUsers := Some(users);
      isAuthenticated := true;
      currentUser := Some(u);
      error := None;
      savedSession := Some(CurrentSession());
    }

    /**
     * `login(username, password)`: signed in as the first user with exactly these
     * credentials, or signed out with an error. The session is written either way.
     */
    method Login(username: string, password: string)
      modifies this
      ensures isAuthenticated <==> exists i | 0 <= i < |users| :: Matches(users[i], username, password)
      ensures isAuthenticated ==> currentUser == FindUser(users, username, password) && error == None
      ensures !isAuthenticated ==> currentUser == None && error == Some(BadCredentials)
      ensures users == old(users) && savedUsers == old(savedUsers)
      ensures old(RegistryStored()) ==> RegistryStored()
      ensures savedSession == Some(CurrentSession())
      ensures Valid()
    {
      var user := FindUser(users, username, password);
      if user.Some? {
        isAuthenticated := true;
        currentUser := user;
        error := None;
      } else {
        isAuthenticated := false;
        currentUser := None;
        error := Some(BadCredentials);
      }
      savedSession := Some(CurrentSession());
    }

    /** `logout()`: back to the signed-out session, whatever it was; the session is written. */
    method Logout()
      modifies this
      ensures CurrentSession() == SignedOut
      ensures users == old(users) && savedUsers == old(savedUsers)
      ensures old(RegistryStored()) ==> RegistryStored()
      ensures savedSession == Some(SignedOut)
      ensures Valid()
    {
      isAuthenticated := false;
      currentUser := None;
      error := None;
      savedSession := Some(CurrentSession());
    }

    /** `clearAuthError()`: only the error is cleared; the session is written. */
    method ClearAuthError()
      modifies this
      ensures error == None
      ensures isAuthenticated == old(isAuthenticated) && currentUser == old(currentUser)
      ensures users == old(users) && savedUsers == old(savedUsers)
      ensures old(RegistryStored()) ==> RegistryStored()
      ensures savedSession == Some(CurrentSession())
      ensures old(SessionConsistent()) ==> SessionConsistent()
      ensures old(Valid()) ==> Valid()
    {
      error := None;
      savedSession := Some(CurrentSession());
    }
  }

  /**
   * Registering "alice" twice: the second call reports the taken name and the registry
   * still holds the first "alice" with the first password.
   */
  method DuplicateRegistrationScenario()
  {
    var store := new AuthStore(None, None);
    store.Register(User("alice", "secret1"));
    assert store.isAuthenticated && store.currentUser == Some(User("alice", "secret1"));
    store.Register(User("alice", "other"));
    assert store.error == Some(UsernameTaken);
    assert store.users == [User("alice", "secret1")];
    store.Login("alice", "other");
    assert !store.isAuthenticated;
    store.Login("alice", "secret1");
    assert store.isAuthenticated;
  }
}
