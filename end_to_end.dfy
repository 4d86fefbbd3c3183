/**
  How the pieces meet across the HTTP boundary: the token the back end issues at
  login is stored by the front end's `AuthProvider`, sent back by the request
  interceptor, accepted by the back end's bearer scheme and identifies the user; and
  where the front end's view of the role and the back end's part ways.
 */
module EndToEnd {
  import opened Wrappers
  import opened Text
  import opened Storage
  import AuthContext
  import AppShell
  import Routes
  import BackendAuth

  /**
    Log in at the back end at time `issued` and hand the response to the front end:
    the token it stores is the one the interceptor sends, the bearer scheme hands it
    on unchanged, and up to 30 minutes later it identifies the user who logged in.
   */
  lemma SignedInRequestIdentifiesUser(users: seq<BackendAuth.UserInDB>, verify: (string, string) -> bool,
                                      encode: BackendAuth.Payload -> string, decodeSignature: string -> Option<BackendAuth.Payload>,
                                      username: string, password: string, issued: int, now: int, entries: map<string, Value>)
    requires forall p :: decodeSignature(encode(p)) == Some(p)
    requires BackendAuth.AuthenticateUser(users, verify, username, password).Some?
    requires now <= issued + BackendAuth.AccessTokenExpireMinutes * 60
    requires encode(BackendAuth.LoginClaims(BackendAuth.AuthenticateUser(users, verify, username, password).value, issued)) != []
    ensures var user := BackendAuth.AuthenticateUser(users, verify, username, password).value;
      var token := encode(BackendAuth.LoginClaims(user, issued));
      && AppShell.StoredJwt(AuthContext.AfterToken(entries, Some(token))) == Some(token)
      && BackendAuth.BearerToken(Some("Bearer " + token)) == Ok(token)
      && BackendAuth.GetCurrentUser(users, decodeSignature, now, token) == Ok(user)
  {
    var user := BackendAuth.AuthenticateUser(users, verify, username, password).value;
    var token := encode(BackendAuth.LoginClaims(user, issued));
    AppShell.LoginTokenIsSent(entries, Some(token));
    BackendAuth.BearerHeaderRoundTrip(token);
    BackendAuth.IssuedTokenIdentifiesUser(users, verify, encode, decodeSignature, username, password, issued, now);
  }

  /**
    For a user the token identifies, active and stored with a role already in lower
    case, the front end shows the admin page after login exactly when the back end's
    administrator check passes.
   */
  lemma AdminViewsAgree(users: seq<BackendAuth.UserInDB>, decodeSignature: string -> Option<BackendAuth.Payload>, now: int, token: string)
    requires BackendAuth.GetCurrentUser(users, decodeSignature, now, token).Ok?
    requires var user := BackendAuth.GetCurrentUser(users, decodeSignature, now, token).value;
      ToLower(user.role) == user.role && user.disabled != Some(true)
    ensures var signedIn := AuthContext.SignedIn(BackendAuth.GetCurrentUser(users, decodeSignature, now, token).value.role);
      var admin := BackendAuth.GetCurrentActiveAdmin(users, decodeSignature, now, token);
      Routes.Visit(signedIn.isAuthenticated, signedIn.role, "/admin") == Routes.Outlet <==> admin.Ok?
  {
    var role := BackendAuth.GetCurrentUser(users, decodeSignature, now, token).value.role;
    Routes.GuardedPaths();
  }

  /**
    The front end lower-cases the role it receives but the back end compares the stored
    role case-sensitively: a user stored with role `Admin` is shown the admin page, and
    the administrator check refuses the same user with 403.
   */
  lemma AdminViewsDisagreeOnCase(users: seq<BackendAuth.UserInDB>, decodeSignature: string -> Option<BackendAuth.Payload>, now: int, token: string)
    requires BackendAuth.GetCurrentUser(users, decodeSignature, now, token).Ok?
    requires var user := BackendAuth.GetCurrentUser(users, decodeSignature, now, token).value;
      user.role == "Admin" && user.disabled != Some(true)
    ensures var signedIn := AuthContext.SignedIn("Admin");
      && Routes.Visit(signedIn.isAuthenticated, signedIn.role, "/admin") == Routes.Outlet
      && BackendAuth.GetCurrentActiveAdmin(users, decodeSignature, now, token) == Err(BackendAuth.AdminError)
  {
    Routes.GuardedPaths();
    var lowered := ToLower("Admin");
    assert lowered[0] == 'a';
    assert lowered == "admin";
    assert "Admin" != "admin" by {
      assert "Admin"[0] != "admin"[0];
    }
  }
}
