/**
  The authentication context of the front end (`AuthProvider`): whether the user is
  signed in and with which role, kept in memory and mirrored in localStorage under
  `auth`, with the JWT of the last login under `jwt`. The login request itself is not
  modelled; its outcome is a parameter.
 */
module AuthContext {
  import opened Wrappers
  import opened Text
  import opened Storage

  const AuthKey := "auth"
  const JwtKey := "jwt"
  const GuestRole := "guest"

  /** The pair the provider holds. The role is a plain string: the source casts the server's answer without checking it. */
  datatype AuthState = AuthState(isAuthenticated: bool, role: string)

  const SignedOut := AuthState(false, GuestRole)

  /** The record written under `auth` for a state. */
  function Record(s: AuthState): (v: Value)
    ensures v.AuthRecord? && v.isAuthenticated == s.isAuthenticated && v.role == s.role
  {
    AuthRecord(s.isAuthenticated, s.role)
  }

  /** The state on mounting: the stored record's pair when there is one, signed out otherwise. */
  function InitialState(stored: Option<Value>): AuthState {
    match stored
    case Some(AuthRecord(a, r)) => AuthState(a, r)
    case _ => SignedOut
  }

  /** With nothing stored under `auth` the provider starts signed out, as a guest. */
  lemma NothingStoredStartsSignedOut(entries: map<string, Value>)
    requires AuthKey !in entries
    ensures InitialState(Lookup(entries, AuthKey)) == SignedOut
    ensures !InitialState(Lookup(entries, AuthKey)).isAuthenticated
  {
  }

  /**
    Whatever state was written under `auth` is the state the next mount starts in,
    whatever else is written or removed afterwards under other keys (the `jwt`).
   */
  lemma ReloadRestoresState(entries: map<string, Value>, s: AuthState, jwt: Option<Value>)
    ensures var saved := entries[AuthKey := Record(s)];
      && InitialState(Lookup(saved, AuthKey)) == s
      && InitialState(Lookup(saved - {JwtKey}, AuthKey)) == s
      && (jwt.Some? ==> InitialState(Lookup(saved[JwtKey := jwt.value], AuthKey)) == s)
  {
    var saved := entries[AuthKey := Record(s)];
    LookupAfterRemove(saved, JwtKey, AuthKey);
    if jwt.Some? {
      LookupAfterSave(saved, JwtKey, jwt.value, AuthKey);
    }
  }

  /**
    What `axios.post('/api/auth/login', …)` settles with: a rejection (network
    failure or an error status), or the response body's `access_token` and `role`,
    either of which may be missing.
   */
  datatype LoginResponse =
    | RequestFailed
    | Responded(accessToken: Option<string>, role: Option<string>)

  /** `if (access_token)`: a token is written only when it is a non-empty string. */
  predicate TokenTruthy(token: Option<string>) {
    token.Some? && token.value != []
  }

  /** localStorage after the token step of a login: the token under `jwt` when it is truthy, otherwise unchanged. */
  function AfterToken(entries: map<string, Value>, token: Option<string>): (e: map<string, Value>)
    ensures TokenTruthy(token) ==> Lookup(e, JwtKey) == Some(Text(token.value))
    ensures !TokenTruthy(token) ==> e == entries
    ensures forall k | k != JwtKey :: Lookup(e, k) == Lookup(entries, k)
  {
    if TokenTruthy(token) then entries[JwtKey := Text(token.value)] else entries
  }

  /** The state a successful login sets: signed in, with the server's role lower-cased. */
  function SignedIn(serverRole: string): (s: AuthState)
    ensures s.isAuthenticated
    ensures |s.role| == |serverRole|
    ensures forall i | 0 <= i < |serverRole| :: s.role[i] == LowerChar(serverRole[i])
    ensures forall i | 0 <= i < |s.role| :: !('A' <= s.role[i] <= 'Z')
  {
    AuthState(true, ToLower(serverRole))
  }

  /** Signing in again with the role the provider already holds changes nothing. */
  lemma SignedInStable(serverRole: string)
    ensures SignedIn(SignedIn(serverRole).role) == SignedIn(serverRole)
  {
    ToLowerIdempotent(serverRole);
  }

  /** The provider's state and the localStorage it writes to. */
  class AuthProvider {
    var isAuthenticated: bool
    var role: string
    const storage: LocalStorage

    /** The record under `auth` is the pair in memory. */
    ghost predicate Persisted()
      reads this, storage
    {
      Lookup(storage.entries, AuthKey) == Some(Record(AuthState(isAuthenticated, role)))
    }

    /** Mounting: both state initialisers read the record under `auth`; nothing is written. */
    constructor (storage: LocalStorage)
      ensures this.storage == storage
      ensures AuthState(isAuthenticated, role) == InitialState(Lookup(storage.entries, AuthKey))
      ensures AuthKey in storage.entries && storage.entries[AuthKey].AuthRecord? ==> Persisted()
    {
      this.storage := storage;
      var s := InitialState(Lookup(storage.entries, AuthKey));
      isAuthenticated, role := s.isAuthenticated, s.role;
    }

    /**
      `login`, given how the request settled. A rejected request changes nothing and
      the error is passed on. Otherwise a truthy token is written under `jwt`; then a
      missing role makes `role.toLowerCase()` throw, so the state and the `auth`
      record stay as they were; with a role the provider signs in with it lower-cased
      and writes that pair under `auth`. `ok` is false exactly when the promise rejects.
     */
    method Login(response: LoginResponse) returns (ok: bool)
      modifies this`isAuthenticated, this`role, storage
      ensures match response
        case RequestFailed =>
          && !ok
          && isAuthenticated == old(isAuthenticated) && role == old(role)
          && storage.entries == old(storage.entries)
        case Responded(token, None) =>
          && !ok
          && isAuthenticated == old(isAuthenticated) && role == old(role)
          && storage.entries == AfterToken(old(storage.entries), token)
        case Responded(token, Some(serverRole)) =>
          && ok
          && AuthState(isAuthenticated, role) == SignedIn(serverRole)
          && storage.entries == AfterToken(old(storage.entries), token)[AuthKey := Record(SignedIn(serverRole))]
      ensures ok ==> Persisted()
    {
      if response.RequestFailed? {
        return false;
      }
      if TokenTruthy(response.accessToken) {
        storage.Save(JwtKey, Text(response.accessToken.value));
      }
      if response.role.None? {
        return false;
      }
      var userRole := ToLower(response.role.value);
      isAuthenticated := true;
      role := userRole;
      storage.Save(AuthKey, AuthRecord(true, userRole));
      ok := true;
    }

    /** `logout`: signed out as a guest, that pair written under `auth`, and the `jwt` removed. */
    method Logout()
      modifies this`isAuthenticated, this`role, storage
      ensures AuthState(isAuthenticated, role) == SignedOut
      ensures storage.entries == LoggedOutEntries(old(storage.entries))
      ensures Persisted()
      ensures Lookup(storage.entries, JwtKey) == None
    {
      isAuthenticated := false;
      role := GuestRole;
      storage.Save(AuthKey, AuthRecord(false, GuestRole));
      storage.Remove(JwtKey);
    }
  }

  /** localStorage after a logout. */
  function LoggedOutEntries(entries: map<string, Value>): (e: map<string, Value>)
    ensures Lookup(e, JwtKey) == None
    ensures InitialState(Lookup(e, AuthKey)) == SignedOut
    ensures forall k | k != JwtKey && k != AuthKey :: Lookup(e, k) == Lookup(entries, k)
  {
    entries[AuthKey := Record(SignedOut)] - {JwtKey}
  }

  /** Logging out twice leaves localStorage as logging out once. */
  lemma LogoutIdempotent(entries: map<string, Value>)
    ensures LoggedOutEntries(LoggedOutEntries(entries)) == LoggedOutEntries(entries)
  {
  }
}
