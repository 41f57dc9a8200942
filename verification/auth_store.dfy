/**
 The app's session store: three observable flags and fields
 (`isAuthenticated`, `isAuthReady`, `user`) kept in step with two entries
 of the device's secure key-value storage (the token and the serialised
 user). Every action is a step from a state and a storage to a new state
 and storage.

 Storage operations can fail; a failing awaited operation rejects the
 action at that point, after the operations before it took effect. The
 JSON serialisation of a user is a parameter (an encoder and a decoder).
 */
module AuthStore {
  import opened Wrappers
  import Js

  /** Storage key of the session token (shared with the network client). */
  const TokenKey: string := "AUTH_TOKEN"

  /** Storage key of the serialised user. */
  const UserKey: string := "AUTH_USER"

  /** A user as the app holds it: a plain JSON object. */
  type User = map<string, Js.Value>

  /** The observable session state. */
  datatype AuthState = AuthState(isAuthenticated: bool, isAuthReady: bool, user: Option<User>)

  /** The state the store starts in when the app launches. */
  const Fresh: AuthState := AuthState(false, false, None)

  /** The secure storage: string values under string keys. */
  type Storage = map<string, string>

  /** What `JSON.parse` makes of a stored text: it throws, or yields a user or `null`. */
  datatype Decoded = Unparseable | Parsed(user: Option<User>)

  /** `JSON.stringify` and `JSON.parse` for users. */
  datatype Codec = Codec(encode: User -> string, decode: string -> Decoded)

  /**
   The codec reads `u` back as written, and its text is not empty. This is
   asked of one user at a time: `JSON.stringify` drops `undefined` fields,
   so it does not read back every user.
   */
  predicate ReadsBack(c: Codec, u: User) {
    c.decode(c.encode(u)) == Parsed(Some(u)) && c.encode(u) != ""
  }

  /** The state, the storage, and whether the action resolved (`false`: it rejected). */
  datatype Outcome = Outcome(state: AuthState, storage: Storage, ok: bool)

  /** Whether the `k`-th awaited operation is the one that fails. */
  predicate FailsAt(failAt: Option<nat>, k: nat) {
    failAt == Some(k)
  }

  /** Whether the `k`-th awaited operation runs: no earlier one failed. */
  predicate Reaches(failAt: Option<nat>, k: nat) {
    failAt.None? || k <= failAt.value
  }

  // ---------------------------------------------------------------------
  // signIn
  // ---------------------------------------------------------------------

  /**
   `signIn`: store the token, then the serialised user, then mark the
   session authenticated and ready with that user. `failAt` names the
   storage write that fails (0: token, 1: user), if any.
   */
  function SignIn(s: AuthState, storage: Storage, user: User, token: string, codec: Codec,
                  failAt: Option<nat>): (o: Outcome)
    ensures o.ok <==> !FailsAt(failAt, 0) && !FailsAt(failAt, 1)
    ensures o.ok ==> o.state == AuthState(true, true, Some(user))
    ensures !o.ok ==> o.state == s
    ensures forall k :: k in storage && k != TokenKey && k != UserKey ==> k in o.storage && o.storage[k] == storage[k]
    ensures !FailsAt(failAt, 0) ==> TokenKey in o.storage && o.storage[TokenKey] == token
    ensures o.ok ==> UserKey in o.storage && o.storage[UserKey] == codec.encode(user)
    ensures o.storage.Keys <= storage.Keys + {TokenKey, UserKey}
    ensures FailsAt(failAt, 0) ==> o.storage == storage
    ensures FailsAt(failAt, 1) ==> o.storage == storage[TokenKey := token]
  {
    if FailsAt(failAt, 0) then Outcome(s, storage, false)
    else
      var s1 := storage[TokenKey := token];
      if FailsAt(failAt, 1) then Outcome(s, s1, false)
      else Outcome(AuthState(true, true, Some(user)), s1[UserKey := codec.encode(user)], true)
  }

  // ---------------------------------------------------------------------
  // signOut
  // ---------------------------------------------------------------------

  /**
   `signOut`: delete the token, delete the user, let the network client
   delete the token again, then clear the session; readiness is kept.
   `failAt` names the deletion that fails (0, 1 or 2), if any.
   */
  function SignOut(s: AuthState, storage: Storage, failAt: Option<nat>): (o: Outcome)
    ensures o.ok <==> !FailsAt(failAt, 0) && !FailsAt(failAt, 1) && !FailsAt(failAt, 2)
    ensures o.ok ==> o.state == AuthState(false, s.isAuthReady, None)
    ensures !o.ok ==> o.state == s
    ensures Reaches(failAt, 1) ==> TokenKey !in o.storage
    ensures Reaches(failAt, 2) ==> UserKey !in o.storage
    ensures o.ok ==> UserKey !in o.storage
    ensures forall k :: k in storage && k != TokenKey && k != UserKey ==> k in o.storage && o.storage[k] == storage[k]
    ensures o.storage.Keys <= storage.Keys
    ensures FailsAt(failAt, 0) ==> o.storage == storage
    ensures FailsAt(failAt, 1) ==> o.storage == storage - {TokenKey}
  {
    if FailsAt(failAt, 0) then Outcome(s, storage, false)
    else
      var s1 := storage - {TokenKey};
      if FailsAt(failAt, 1) then Outcome(s, s1, false)
      else
        var s2 := s1 - {UserKey};
        var s3 := s2 - {TokenKey};
        if FailsAt(failAt, 2) then Outcome(s, s3, false)
        else Outcome(s.(isAuthenticated := false, user := None), s3, true)
  }

  // ---------------------------------------------------------------------
  // updateUser
  // ---------------------------------------------------------------------

  /** `{ ...user, ...updates }`: every field of `updates` wins, every other field of `user` stays. */
  function Merge(user: User, updates: User): (m: User)
    ensures m.Keys == user.Keys + updates.Keys
    ensures forall k :: k in updates ==> m[k] == updates[k]
    ensures forall k :: k in user && k !in updates ==> m[k] == user[k]
  {
    user + updates
  }

  /**
   `updateUser`: with no current user nothing happens. Otherwise the merged
   user replaces the current one and is written to storage; the write is
   not awaited, so a failing write (`writeOk` false) leaves storage as it
   was but the state changed all the same.
   */
  function UpdateUser(s: AuthState, storage: Storage, updates: User, codec: Codec, writeOk: bool): (o: Outcome)
    ensures o.ok
    ensures s.user.None? ==> o.state == s && o.storage == storage
    ensures s.user.Some? ==>
      && o.state == s.(user := Some(Merge(s.user.value, updates)))
      && (writeOk ==> o.storage == storage[UserKey := codec.encode(o.state.user.value)])
      && (!writeOk ==> o.storage == storage)
  {
    match s.user
    case None => Outcome(s, storage, true)
    case Some(u) =>
      var merged := Merge(u, updates);
      Outcome(s.(user := Some(merged)), if writeOk then storage[UserKey := codec.encode(merged)] else storage, true)
  }

  /** Applying the same updates twice is the same as applying them once. */
  lemma UpdateUserIdempotent(s: AuthState, storage: Storage, updates: User, codec: Codec)
    ensures var once := UpdateUser(s, storage, updates, codec, true);
      UpdateUser(once.state, once.storage, updates, codec, true) == once
  {
    if s.user.Some? {
      var m := Merge(s.user.value, updates);
      assert Merge(m, updates) == m;
    }
  }

  /** When the codec reads the merged user back, the stored user is exactly the one the state holds. */
  lemma UpdateUserStoresStateUser(s: AuthState, storage: Storage, updates: User, codec: Codec)
    requires s.user.Some?
    requires ReadsBack(codec, Merge(s.user.value, updates))
    ensures var o := UpdateUser(s, storage, updates, codec, true);
      UserKey in o.storage && codec.decode(o.storage[UserKey]) == Parsed(o.state.user)
  {
    var o := UpdateUser(s, storage, updates, codec, true);
    assert codec.decode(codec.encode(o.state.user.value)) == Parsed(Some(o.state.user.value));
  }

  // ---------------------------------------------------------------------
  // initialize
  // ---------------------------------------------------------------------

  /** `if (x)` on a storage read: the entry exists and is not the empty text. */
  predicate Stored(storage: Storage, key: string) {
    key in storage && storage[key] != ""
  }

  /**
   `initialize`: read the token, then the stored user. When both are
   present and non-empty and the user text parses, the session becomes
   authenticated with that user; in every case it becomes ready, and a
   failing read or an unparseable user only makes it ready. `readFault`
   names the read that throws (0: token, 1: user), if any.
   */
  function Initialize(s: AuthState, storage: Storage, codec: Codec, readFault: Option<nat>): (o: Outcome)
    ensures o.ok && o.storage == storage
    ensures o.state.isAuthReady
    ensures o.state.isAuthenticated != s.isAuthenticated || o.state.user != s.user ==>
      && readFault != Some(0) && readFault != Some(1)
      && Stored(storage, TokenKey) && Stored(storage, UserKey)
      && codec.decode(storage[UserKey]) == Parsed(o.state.user)
    ensures readFault != Some(0) && readFault != Some(1) && Stored(storage, TokenKey) && Stored(storage, UserKey)
            && codec.decode(storage[UserKey]).Parsed? ==>
      o.state == AuthState(true, true, codec.decode(storage[UserKey]).user)
  {
    if readFault == Some(0) || readFault == Some(1) then Outcome(s.(isAuthReady := true), storage, true)
    else if Stored(storage, TokenKey) && Stored(storage, UserKey) then
      match codec.decode(storage[UserKey])
      case Unparseable => Outcome(s.(isAuthReady := true), storage, true)
      case Parsed(u) => Outcome(AuthState(true, true, u), storage, true)
    else Outcome(s.(isAuthReady := true), storage, true)
  }

  /**
   A session survives a restart: after a successful sign-in with a
   non-empty token, a freshly started store initialises to the same
   authenticated user.
   */
  lemma SignInThenRestart(s: AuthState, storage: Storage, user: User, token: string, codec: Codec)
    requires ReadsBack(codec, user)
    requires token != ""
    ensures var signedIn := SignIn(s, storage, user, token, codec, None);
      Initialize(Fresh, signedIn.storage, codec, None).state == signedIn.state
  {
    var o := SignIn(s, storage, user, token, codec, None);
    assert codec.decode(codec.encode(user)) == Parsed(Some(user)) && codec.encode(user) != "";
    assert Stored(o.storage, TokenKey) && Stored(o.storage, UserKey);
  }

  /**
   An empty token is accepted by `signIn` but not restored: after a
   restart the session is not authenticated, although it was before.
   */
  lemma EmptyTokenNotRestored(s: AuthState, storage: Storage, user: User, codec: Codec)
    ensures var signedIn := SignIn(s, storage, user, "", codec, None);
      && signedIn.state.isAuthenticated
      && !Initialize(Fresh, signedIn.storage, codec, None).state.isAuthenticated
  {
    var o := SignIn(s, storage, user, "", codec, None);
    assert !Stored(o.storage, TokenKey);
  }

  /** After a successful sign-out, a restart comes up ready and signed out. */
  lemma SignOutThenRestart(s: AuthState, storage: Storage, codec: Codec)
    ensures var signedOut := SignOut(s, storage, None);
      Initialize(Fresh, signedOut.storage, codec, None).state == AuthState(false, true, None)
  {
    var o := SignOut(s, storage, None);
    assert !Stored(o.storage, TokenKey);
  }

  /**
   A sign-out that fails after deleting the token still ends the session
   at the next restart, although the running app stays signed in.
   */
  lemma PartialSignOutEndsSessionOnRestart(s: AuthState, storage: Storage, codec: Codec)
    ensures var o := SignOut(s, storage, Some(1));
      && !o.ok && o.state == s
      && !Initialize(Fresh, o.storage, codec, None).state.isAuthenticated
  {
    var o := SignOut(s, storage, Some(1));
    assert !Stored(o.storage, TokenKey);
  }
}
