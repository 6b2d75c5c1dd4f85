/**
 * The sign-in state of the web client (frontend/src/store/authSlice.js):
 * the signed-in user and token, kept in step with the browser's
 * `localStorage` under the keys "user" and "token" so that a reload
 * restores the session. The user is held as its JSON text.
 */
module AuthSlice {
  import opened Wrappers

  const UserKey := "user"
  const TokenKey := "token"

  /** `localStorage.getItem(key)`, read as `|| null`: a missing or empty item is `null`. */
  function Stored(storage: map<string, string>, key: string): (r: Option<string>)
    ensures r.Some? <==> key in storage && storage[key] != ""
    ensures r.Some? ==> r.value == storage[key]
  {
    if key in storage && storage[key] != "" then Some(storage[key]) else None
  }

  /** The slice state together with the storage it writes. */
  datatype Session = Session(user: Option<string>, token: Option<string>, storage: map<string, string>)

  /** The state the slice starts in: both values read back from storage. */
  function Initial(storage: map<string, string>): (s: Session)
    ensures s.storage == storage
    ensures s.user == Stored(storage, UserKey) && s.token == Stored(storage, TokenKey)
  {
    Session(Stored(storage, UserKey), Stored(storage, TokenKey), storage)
  }

  /** `setCredentials`: the payload goes into the state and into storage. */
  function AfterSetCredentials(s: Session, user: string, token: string): (r: Session)
    ensures r.user == Some(user) && r.token == Some(token)
    ensures r.storage.Keys == s.storage.Keys + {UserKey, TokenKey}
    ensures r.storage[UserKey] == user && r.storage[TokenKey] == token
    ensures forall k :: k in s.storage && k != UserKey && k != TokenKey ==> r.storage[k] == s.storage[k]
  {
    Session(Some(user), Some(token), s.storage[UserKey := user][TokenKey := token])
  }

  /** `logout`: both values become `null` and both items are removed. */
  function AfterLogout(s: Session): (r: Session)
    ensures r.user.None? && r.token.None?
    ensures r.storage.Keys == s.storage.Keys - {UserKey, TokenKey}
    ensures forall k :: k in r.storage ==> r.storage[k] == s.storage[k]
  {
    Session(None, None, s.storage - {UserKey, TokenKey})
  }

  /** The state agrees with what a reload would read from storage. */
  predicate Mirrors(s: Session)
  {
    s.user == Stored(s.storage, UserKey) && s.token == Stored(s.storage, TokenKey)
  }

  /** The initial state mirrors storage. */
  lemma InitialMirrors(storage: map<string, string>)
    ensures Mirrors(Initial(storage))
  {
  }

  /** After `setCredentials` with non-empty values, a reload restores the same user and token. */
  lemma SetCredentialsSurvivesReload(s: Session, user: string, token: string)
    requires user != "" && token != ""
    ensures Mirrors(AfterSetCredentials(s, user, token))
    ensures Initial(AfterSetCredentials(s, user, token).storage).user == Some(user)
    ensures Initial(AfterSetCredentials(s, user, token).storage).token == Some(token)
  {
  }

  /** An empty token is kept in the state but reads back as `null` after a reload. */
  lemma EmptyTokenLostOnReload(s: Session, user: string)
    ensures AfterSetCredentials(s, user, "").token == Some("")
    ensures Initial(AfterSetCredentials(s, user, "").storage).token.None?
    ensures !Mirrors(AfterSetCredentials(s, user, ""))
  {
  }

  /** `logout` always leads to a mirrored, signed-out state. */
  lemma LogoutMirrors(s: Session)
    ensures Mirrors(AfterLogout(s))
    ensures Initial(AfterLogout(s).storage).user.None? && Initial(AfterLogout(s).storage).token.None?
  {
  }

  /** Logging out twice is logging out once. */
  lemma LogoutIdempotent(s: Session)
    ensures AfterLogout(AfterLogout(s)) == AfterLogout(s)
  {
  }

  /** Signing in then out leaves storage as it was apart from the two keys. */
  lemma SignInThenOut(s: Session, user: string, token: string)
    ensures AfterLogout(AfterSetCredentials(s, user, token)) == AfterLogout(s)
  {
    var a := AfterLogout(AfterSetCredentials(s, user, token)).storage;
    var b := AfterLogout(s).storage;
    assert a.Keys == b.Keys;
    assert forall k :: k in a ==> a[k] == b[k];
  }

  /** The slice: `state.user`, `state.token`, and the browser storage the reducers write. */
  class AuthState {
    var user: Option<string>
    var token: Option<string>
    var storage: map<string, string>

    function Snapshot(): Session
      reads this
    {
      Session(user, token, storage)
    }

    /** The store is created with `userFromStorage` and `tokenFromStorage`. */
    constructor FromStorage(storage: map<string, string>)
      ensures Snapshot() == Initial(storage)
    {
      this.storage := storage;
      user := if UserKey in storage && storage[UserKey] != "" then Some(storage[UserKey]) else None;
      token := if TokenKey in storage && storage[TokenKey] != "" then Some(storage[TokenKey]) else None;
    }

    method SetCredentials(payloadUser: string, payloadToken: string)
      modifies this
      ensures Snapshot() == AfterSetCredentials(old(Snapshot()), payloadUser, payloadToken)
    {
      user := Some(payloadUser);
      token := Some(payloadToken);
      storage := storage[UserKey := payloadUser];
      storage := storage[TokenKey := payloadToken];
    }

    method Logout()
      modifies this
      ensures Snapshot() == AfterLogout(old(Snapshot()))
    {
      user := None;
      token := None;
      storage := storage - {UserKey};
      storage := storage - {TokenKey};
    }
  }
}
