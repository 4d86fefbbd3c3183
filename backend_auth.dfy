/**
  The authorization service of the Python back end: password login that issues a
  signed JWT, and the dependency chain that turns a bearer token into the current user,
  an active user, or an active administrator, failing with the HTTP error each step
  raises. The users collection is a sequence of documents; password hashing and the
  JWT signature are parameters (`verify`, `encode`, `decodeSignature`); the clock is
  a parameter `now`, in whole seconds since the epoch.
 */
module BackendAuth {
  import opened Wrappers
  import opened Text

  const AccessTokenExpireMinutes := 30
  /** `timedelta(minutes=15)`, the lifetime `create_access_token` falls back to. */
  const DefaultExpireSeconds := 15 * 60

  /** A document of the users collection (`UserInDB`). */
  datatype UserInDB = UserInDB(username: string, fullName: Option<string>, disabled: Option<bool>, role: string, hashedPassword: string)

  /** An `HTTPException`: status code and detail. */
  datatype HttpError = HttpError(status: int, detail: string)

  const CredentialsError := HttpError(401, "Could not validate credentials")
  const InactiveError := HttpError(400, "Inactive user")
  const AdminError := HttpError(403, "Admin access required")
  const LoginError := HttpError(400, "Incorrect username or password")
  const NotAuthenticated := HttpError(401, "Not authenticated")

  /** `users_collection.find_one({"username": username})`: the first document with that username. */
  function FindUser(users: seq<UserInDB>, username: string): (r: Option<UserInDB>)
    ensures r.None? <==> forall i | 0 <= i < |users| :: users[i].username != username
    ensures r.Some? ==> exists i | 0 <= i < |users| ::
      && users[i] == r.value
      && (forall j | 0 <= j < i :: users[j].username != username)
    ensures r.Some? ==> r.value.username == username
  {
    if users == [] then None
    else if users[0].username == username then Some(users[0])
    else
      var r := FindUser(users[1..], username);
      assert forall i | 1 <= i < |users| :: users[i] == users[1..][i - 1];
      if r.Some? then
        var i :| 0 <= i < |users[1..]| && users[1..][i] == r.value && (forall j | 0 <= j < i :: users[1..][j].username != username);
        assert users[i + 1] == r.value;
        r
      else r
  }

  /**
    `authenticate_user`: the user named `username` when there is one and `verify`
    accepts the password against its hash; nothing otherwise.
   */
  function AuthenticateUser(users: seq<UserInDB>, verify: (string, string) -> bool, username: string, password: string): (r: Option<UserInDB>)
    ensures r.Some? <==> FindUser(users, username).Some? && verify(password, FindUser(users, username).value.hashedPassword)
    ensures r.Some? ==> r == FindUser(users, username) && r.value.username == username
  {
    var user := FindUser(users, username);
    if user.None? || !verify(password, user.value.hashedPassword) then None else user
  }

  /** A claim value of a token payload, as JSON: a string, a number or `null`. */
  datatype Claim = Str(text: string) | Number(value: int) | Null

  type Payload = map<string, Claim>

  /** `expires_delta or timedelta(minutes=15)`, in seconds: a missing or zero delta (both falsy) means 15 minutes. */
  function Lifetime(expiresDelta: Option<int>): (seconds: int)
    ensures expiresDelta.None? || expiresDelta == Some(0) ==> seconds == DefaultExpireSeconds
    ensures expiresDelta.Some? && expiresDelta.value != 0 ==> seconds == expiresDelta.value
    ensures seconds != 0
  {
    if expiresDelta.None? || expiresDelta.value == 0 then DefaultExpireSeconds else expiresDelta.value
  }

  /**
    `create_access_token`: a copy of `data` with `exp` set to `now` plus the lifetime,
    and the token `encode` signs for it. `data` itself is a value and stays as it was;
    the payload agrees with it on every other key.
   */
  method CreateAccessToken(data: map<string, string>, expiresDelta: Option<int>, now: int, encode: Payload -> string)
    returns (token: string, payload: Payload)
    ensures payload.Keys == data.Keys + {"exp"}
    ensures forall k | k in data && k != "exp" :: payload[k] == Str(data[k])
    ensures payload["exp"] == Number(now + Lifetime(expiresDelta))
    ensures token == encode(payload)
  {
    var toEncode: Payload := map k | k in data :: Str(data[k]);
    var expire := now + Lifetime(expiresDelta);
    toEncode := toEncode["exp" := Number(expire)];
    payload := toEncode;
    token := encode(payload);
  }

  /** The claim checks `jwt.decode` applies: a numeric `exp` not yet passed, and a string `sub`, each when present. */
  predicate ClaimsAcceptable(p: Payload, now: int) {
    && ("exp" in p ==> p["exp"].Number? && now <= p["exp"].value)
    && ("sub" in p ==> p["sub"].Str?)
  }

  /**
    `jwt.decode(token, SECRET_KEY, algorithms=[ALGORITHM])`: `decodeSignature` stands
    for the signature and format check; then the library's own claim checks that
    matter here reject a token whose `exp` is not a number or has passed
    (`exp < now`), and one whose `sub` is not a string. `None` is a `JWTError`.
   */
  function DecodeToken(decodeSignature: string -> Option<Payload>, token: string, now: int): (r: Option<Payload>)
    ensures r.Some? ==> decodeSignature(token) == r
    ensures r.Some? && "exp" in r.value ==> r.value["exp"].Number? && now <= r.value["exp"].value
    ensures r.Some? && "sub" in r.value ==> r.value["sub"].Str?
    ensures decodeSignature(token).Some? && ClaimsAcceptable(decodeSignature(token).value, now) ==> r == decodeSignature(token)
  {
    match decodeSignature(token)
    case None => None
    case Some(p) =>
      if "exp" in p && !(p["exp"].Number? && now <= p["exp"].value) then None
      else if "sub" in p && !p["sub"].Str? then None
      else Some(p)
  }

  /** The payload carries a string `sub` and a `role` that is not `null`. */
  predicate NamesUser(p: Payload) {
    "sub" in p && p["sub"].Str? && "role" in p && p["role"] != Null
  }

  /**
    `get_current_user`: 401 "Could not validate credentials" when the token does not
    decode, lacks `sub` or `role` (or has them `null`), or names no stored user; the
    stored user otherwise. The `role` claim is only checked for presence.
   */
  function GetCurrentUser(users: seq<UserInDB>, decodeSignature: string -> Option<Payload>, now: int, token: string): (r: Result<UserInDB, HttpError>)
    ensures r.Err? ==> r.error == CredentialsError
    ensures var d := DecodeToken(decodeSignature, token, now);
      r.Ok? <==> d.Some? && NamesUser(d.value) && FindUser(users, d.value["sub"].text).Some?
    ensures r.Ok? ==> var sub := DecodeToken(decodeSignature, token, now).value["sub"].text;
      && r.value == FindUser(users, sub).value
      && r.value.username == sub
  {
    match DecodeToken(decodeSignature, token, now)
    case None => Err(CredentialsError)
    case Some(p) =>
      if !NamesUser(p) then Err(CredentialsError)
      else
        match FindUser(users, p["sub"].text)
        case None => Err(CredentialsError)
        case Some(user) => Ok(user)
  }

  /** `get_current_active_user`: the current user unless it is disabled, which is 400 "Inactive user". */
  function GetCurrentActiveUser(users: seq<UserInDB>, decodeSignature: string -> Option<Payload>, now: int, token: string): (r: Result<UserInDB, HttpError>)
    ensures var current := GetCurrentUser(users, decodeSignature, now, token);
      && (r.Ok? <==> current.Ok? && current.value.disabled != Some(true))
      && (r.Ok? ==> r == current)
      && (r.Err? ==> r.error == if current.Err? then CredentialsError else InactiveError)
  {
    match GetCurrentUser(users, decodeSignature, now, token)
    case Err(e) => Err(e)
    case Ok(user) => if user.disabled == Some(true) then Err(InactiveError) else Ok(user)
  }

  /** `get_current_active_admin`: the active user if its stored role is `admin`, else 403 "Admin access required". */
  function GetCurrentActiveAdmin(users: seq<UserInDB>, decodeSignature: string -> Option<Payload>, now: int, token: string): (r: Result<UserInDB, HttpError>)
    ensures var active := GetCurrentActiveUser(users, decodeSignature, now, token);
      && (r.Ok? <==> active.Ok? && active.value.role == "admin")
      && (r.Ok? ==> r == active)
      && (active.Err? ==> r == active)
      && (active.Ok? && active.value.role != "admin" ==> r == Err(AdminError))
  {
    match GetCurrentActiveUser(users, decodeSignature, now, token)
    case Err(e) => Err(e)
    case Ok(user) => if user.role != "admin" then Err(AdminError) else Ok(user)
  }

  /**
    The order of the checks: credentials first (401), then the disabled flag (400),
    then the role (403); a token gets through exactly when it names a stored user that
    is not disabled and whose stored role is `admin`.
   */
  lemma AdminChainOrder(users: seq<UserInDB>, decodeSignature: string -> Option<Payload>, now: int, token: string)
    ensures var current := GetCurrentUser(users, decodeSignature, now, token);
      var admin := GetCurrentActiveAdmin(users, decodeSignature, now, token);
      && (current.Err? ==> admin == Err(CredentialsError))
      && (current.Ok? && current.value.disabled == Some(true) ==> admin == Err(InactiveError))
      && (current.Ok? && current.value.disabled != Some(true) && current.value.role != "admin" ==> admin == Err(AdminError))
      && (admin.Ok? <==> current.Ok? && current.value.disabled != Some(true) && current.value.role == "admin")
      && (admin.Ok? ==> admin == current)
  {
  }

  /**
    The administrator check reads the role of the stored user, not the token's `role`
    claim: two valid tokens for the same subject get the same answer whatever roles
    they claim.
   */
  lemma AdminDecidedByStoredRole(users: seq<UserInDB>, decodeSignature: string -> Option<Payload>, now: int, t1: string, t2: string)
    requires DecodeToken(decodeSignature, t1, now).Some? && DecodeToken(decodeSignature, t2, now).Some?
    requires var p1, p2 := DecodeToken(decodeSignature, t1, now).value, DecodeToken(decodeSignature, t2, now).value;
      && "sub" in p1 && "sub" in p2 && p1["sub"] == p2["sub"]
      && "role" in p1 && p1["role"] != Null && "role" in p2 && p2["role"] != Null
    ensures GetCurrentActiveAdmin(users, decodeSignature, now, t1) == GetCurrentActiveAdmin(users, decodeSignature, now, t2)
  {
  }

  /** The response of a successful login (`Token`). */
  datatype Token = Token(accessToken: string, tokenType: string, role: string)

  /** The claims a login signs for `user` at time `now`: subject, stored role, and expiry 30 minutes on. */
  function LoginClaims(user: UserInDB, now: int): (p: Payload)
    ensures p.Keys == {"sub", "role", "exp"}
    ensures p["sub"] == Str(user.username) && p["role"] == Str(user.role)
    ensures p["exp"] == Number(now + AccessTokenExpireMinutes * 60)
  {
    map["sub" := Str(user.username), "role" := Str(user.role), "exp" := Number(now + AccessTokenExpireMinutes * 60)]
  }

  /**
    `login_for_access_token`: 400 "Incorrect username or password" unless the
    credentials authenticate; otherwise a bearer token for the subject and stored role
    of the user, valid for 30 minutes, and that role.
   */
  method LoginForAccessToken(users: seq<UserInDB>, verify: (string, string) -> bool, encode: Payload -> string, now: int, username: string, password: string)
    returns (r: Result<Token, HttpError>)
    ensures r.Err? <==> AuthenticateUser(users, verify, username, password).None?
    ensures r.Err? ==> r.error == LoginError
    ensures r.Ok? ==> var user := AuthenticateUser(users, verify, username, password).value;
      && r.value.tokenType == "bearer"
      && r.value.role == user.role
      && r.value.accessToken == encode(LoginClaims(user, now))
  {
    var user := AuthenticateUser(users, verify, username, password);
    if user.None? {
      return Err(LoginError);
    }
    var data := map["sub" := user.value.username, "role" := user.value.role];
    var accessToken, payload := CreateAccessToken(data, Some(AccessTokenExpireMinutes * 60), now, encode);
    assert payload == LoginClaims(user.value, now);
    r := Ok(Token(accessToken, "bearer", user.value.role));
  }

  /**
    When the signature check gives back exactly what was signed, a token issued at
    login at time `issued` identifies the same user up to and including 30 minutes
    later, and is refused with 401 afterwards.
   */
  lemma IssuedTokenIdentifiesUser(users: seq<UserInDB>, verify: (string, string) -> bool, encode: Payload -> string,
                                  decodeSignature: string -> Option<Payload>, username: string, password: string, issued: int, now: int)
    requires forall p :: decodeSignature(encode(p)) == Some(p)
    requires AuthenticateUser(users, verify, username, password).Some?
    ensures var user := AuthenticateUser(users, verify, username, password).value;
      var token := encode(LoginClaims(user, issued));
      GetCurrentUser(users, decodeSignature, now, token)
        == if now <= issued + AccessTokenExpireMinutes * 60 then Ok(user) else Err(CredentialsError)
  {
    var user := AuthenticateUser(users, verify, username, password).value;
    var claims := LoginClaims(user, issued);
    assert decodeSignature(encode(claims)) == Some(claims);
  }

  /** Index of the first space in `s`, or `|s|` when there is none. */
  function FirstSpace(s: string): (n: nat)
    ensures n <= |s|
    ensures forall k | 0 <= k < n :: s[k] != ' '
    ensures n < |s| ==> s[n] == ' '
  {
    if s == [] || s[0] == ' ' then 0
    else
      var n := 1 + FirstSpace(s[1..]);
      assert forall k | 1 <= k < n :: s[k] == s[1..][k - 1];
      n
  }

  /**
    The token dependency (`OAuth2PasswordBearer`): the `Authorization` header is split
    at its first space into scheme and parameter; a missing or empty header, or a
    scheme other than `bearer` in any letter case, is 401 "Not authenticated".
   */
  function BearerToken(authorization: Option<string>): (r: Result<string, HttpError>)
    ensures r.Err? ==> r.error == NotAuthenticated
    ensures r.Ok? ==> authorization.Some? && authorization.value != []
    ensures authorization.Some? && authorization.value != [] && ToLower(authorization.value[..FirstSpace(authorization.value)]) == "bearer" ==> r.Ok?
    ensures r.Ok? ==> var h, n := authorization.value, FirstSpace(authorization.value);
      && ToLower(h[..n]) == "bearer"
      && (if n < |h| then h == h[..n] + [' '] + r.value else r.value == [])
  {
    if authorization.None? || authorization.value == [] then Err(NotAuthenticated)
    else
      var h := authorization.value;
      var n := FirstSpace(h);
      if ToLower(h[..n]) != "bearer" then Err(NotAuthenticated)
      else Ok(if n < |h| then h[n + 1..] else [])
  }

  /** In a word without spaces followed by a space, the first space is the one after the word. */
  lemma FirstSpaceAfterWord(w: string, rest: string)
    requires forall k | 0 <= k < |w| :: w[k] != ' '
    ensures FirstSpace(w + [' '] + rest) == |w|
  {
    var h := w + [' '] + rest;
    assert h[|w|] == ' ';
    assert forall k | 0 <= k < |w| :: h[k] == w[k];
  }

  /** The scheme the front end writes passes the case-insensitive comparison. */
  lemma BearerSchemeAccepted()
    ensures ToLower("Bearer") == "bearer"
  {
    var r := ToLower("Bearer");
    assert r[0] == 'b';
  }

  /** The header `"Bearer " + token` yields exactly `token`, spaces in it included. */
  lemma BearerHeaderRoundTrip(token: string)
    ensures BearerToken(Some("Bearer " + token)) == Ok(token)
  {
    var h := "Bearer " + token;
    assert h == "Bearer" + [' '] + token;
    FirstSpaceAfterWord("Bearer", token);
    assert h[..6] == "Bearer";
    BearerSchemeAccepted();
    assert h[7..] == token;
  }
}
