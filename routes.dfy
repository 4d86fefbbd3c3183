/**
  The role guard (`PrivateRoute`) and the two routes both front ends put behind it:
  `/user` for the roles `user` and `admin`, `/admin` for `admin` alone. Every other
  route renders without a guard.
 */
module Routes {
  import opened Wrappers
  import opened Text

  /** What the guard renders: a redirect to `/login`, a redirect to `/unauthorized`, or the guarded page. */
  datatype Outcome = RedirectToLogin | RedirectToUnauthorized | Outlet

  /** `PrivateRoute({ allowedRoles })` for the current `isAuthenticated` and `role`. */
  function PrivateRoute(isAuthenticated: bool, role: string, allowedRoles: seq<string>): (o: Outcome)
    ensures o == Outlet ==> isAuthenticated && role in allowedRoles
    ensures !isAuthenticated ==> o == RedirectToLogin
  {
    if !isAuthenticated then RedirectToLogin
    else if role !in allowedRoles then RedirectToUnauthorized
    else Outlet
  }

  /** Each outcome happens exactly under its own condition (and, being a datatype value, exactly one happens). */
  lemma GuardOutcomes(isAuthenticated: bool, role: string, allowedRoles: seq<string>)
    ensures var o := PrivateRoute(isAuthenticated, role, allowedRoles);
      && (o == RedirectToLogin <==> !isAuthenticated)
      && (o == RedirectToUnauthorized <==> isAuthenticated && role !in allowedRoles)
      && (o == Outlet <==> isAuthenticated && role in allowedRoles)
  {
  }

  /** A signed-out user is sent to `/login` whatever roles the route allows. */
  lemma SignedOutGoesToLogin(role: string, allowedRoles: seq<string>)
    ensures PrivateRoute(false, role, allowedRoles) == RedirectToLogin
  {
  }

  /** Allowing more roles never turns a page that was shown into a redirect. */
  lemma GuardMonotone(isAuthenticated: bool, role: string, allowed: seq<string>, more: seq<string>)
    requires forall r | r in allowed :: r in more
    requires PrivateRoute(isAuthenticated, role, allowed) == Outlet
    ensures PrivateRoute(isAuthenticated, role, more) == Outlet
  {
  }

  /** The path without its trailing slashes. */
  function StripTrailingSlashes(path: string): (r: string)
    ensures r <= path
    ensures r == [] || r[|r| - 1] != '/'
    ensures forall i | |r| <= i < |path| :: path[i] == '/'
  {
    if path != [] && path[|path| - 1] == '/' then StripTrailingSlashes(path[..|path| - 1]) else path
  }

  /**
    React Router's matching of a route without `caseSensitive`: the path equals the
    route's lower-case pattern up to ASCII case, with any trailing slashes ignored.
   */
  predicate RouteMatches(path: string, pattern: string) {
    ToLower(StripTrailingSlashes(path)) == pattern
  }

  /** The roles a path's guard allows, or `None` for a path rendered without a guard. */
  function GuardOf(path: string): (roles: Option<seq<string>>) {
    if RouteMatches(path, "/user") then Some(["user", "admin"])
    else if RouteMatches(path, "/admin") then Some(["admin"])
    else None
  }

  /** The two guarded patterns match themselves and not each other. */
  lemma GuardedPaths()
    ensures GuardOf("/user") == Some(["user", "admin"])
    ensures GuardOf("/admin") == Some(["admin"])
  {
    assert StripTrailingSlashes("/user") == "/user";
    assert StripTrailingSlashes("/admin") == "/admin";
    var u, a := ToLower("/user"), ToLower("/admin");
    assert u == "/user" by {
      assert u[0] == '/' && u[1] == 'u' && u[2] == 's' && u[3] == 'e' && u[4] == 'r';
    }
    assert a != "/user" by {
      assert |a| == 6;
    }
    assert a == "/admin" by {
      assert a[0] == '/' && a[1] == 'a' && a[2] == 'd' && a[3] == 'm' && a[4] == 'i' && a[5] == 'n';
    }
  }

  /** Upper-case letters and trailing slashes in the address lead to the same guard. */
  lemma GuardIgnoresCaseAndTrailingSlash(path: string)
    ensures GuardOf(ToLower(path)) == GuardOf(path)
    ensures GuardOf(path + "/") == GuardOf(path)
  {
    var p := StripTrailingSlashes(path);
    assert StripTrailingSlashes(path + "/") == p by {
      assert (path + "/")[..|path + "/"| - 1] == path;
    }
    StripLowered(path);
    ToLowerIdempotent(p);
  }

  /** Lower-casing commutes with stripping trailing slashes, since `/` has no case. */
  lemma {:induction false} StripLowered(path: string)
    ensures StripTrailingSlashes(ToLower(path)) == ToLower(StripTrailingSlashes(path))
    decreases |path|
  {
    if path != [] && path[|path| - 1] == '/' {
      var init := path[..|path| - 1];
      assert ToLower(path)[..|path| - 1] == ToLower(init);
      StripLowered(init);
    } else if path != [] {
      assert ToLower(path)[|path| - 1] == LowerChar(path[|path| - 1]);
    }
  }

  /** The two spellings of the admin address lower-case to the route's pattern. */
  lemma AdminSpellingsLowered()
    ensures ToLower("/Admin") == "/admin" && ToLower("/ADMIN") == "/admin"
  {
    var l, m := ToLower("/Admin"), ToLower("/ADMIN");
    assert l == "/admin" by {
      assert l[0] == '/' && l[1] == 'a' && l[2] == 'd' && l[3] == 'm' && l[4] == 'i' && l[5] == 'n';
    }
    assert m == "/admin" by {
      assert m[0] == '/' && m[1] == 'a' && m[2] == 'd' && m[3] == 'm' && m[4] == 'i' && m[5] == 'n';
    }
  }

  /** A differently written address of the admin page is still behind the admin guard. */
  lemma AdminGuardIgnoresSpelling()
    ensures Visit(false, "guest", "/Admin/") == RedirectToLogin
    ensures Visit(true, "user", "/ADMIN") == RedirectToUnauthorized
  {
    AdminSpellingsLowered();
    assert StripTrailingSlashes("/Admin/") == "/Admin" by {
      assert "/Admin/"[..6] == "/Admin";
    }
    assert RouteMatches("/Admin/", "/admin") && !RouteMatches("/Admin/", "/user");
    assert StripTrailingSlashes("/ADMIN") == "/ADMIN";
    assert RouteMatches("/ADMIN", "/admin") && !RouteMatches("/ADMIN", "/user");
  }

  /** What visiting `path` renders, as far as the guard is concerned. */
  function Visit(isAuthenticated: bool, role: string, path: string): Outcome {
    match GuardOf(path)
    case None => Outlet
    case Some(roles) => PrivateRoute(isAuthenticated, role, roles)
  }

  /**
    A signed-in `user` reaches `/user` but is turned away from `/admin`; an `admin`
    reaches both; any other role, `guest` among them, reaches neither.
   */
  lemma RoleAccess(role: string)
    ensures role == "user" ==> Visit(true, role, "/user") == Outlet && Visit(true, role, "/admin") == RedirectToUnauthorized
    ensures role == "admin" ==> Visit(true, role, "/user") == Outlet && Visit(true, role, "/admin") == Outlet
    ensures role != "user" && role != "admin" ==>
      Visit(true, role, "/user") == RedirectToUnauthorized && Visit(true, role, "/admin") == RedirectToUnauthorized
  {
    GuardedPaths();
  }

  /** Whoever may see `/admin` may see every page. */
  lemma AdminReachesEverything(isAuthenticated: bool, role: string, path: string)
    requires Visit(isAuthenticated, role, "/admin") == Outlet
    ensures Visit(isAuthenticated, role, path) == Outlet
  {
    GuardedPaths();
  }

  /** The links of the navigation menus. */
  datatype Link = Home | Login | Logout | Register | User | Admin | Contact | About | AboutMe

  /** `isAuthenticated && (role === 'user' || role === 'admin')`: the condition for the User link. */
  predicate ShowsUserLink(isAuthenticated: bool, role: string) {
    isAuthenticated && (role == "user" || role == "admin")
  }

  /** `isAuthenticated && role === 'admin'`: the condition for the Admin link. */
  predicate ShowsAdminLink(isAuthenticated: bool, role: string) {
    isAuthenticated && role == "admin"
  }

  /** A role link is shown exactly when following it gets past the guard. */
  lemma RoleLinksMatchGuards(isAuthenticated: bool, role: string)
    ensures ShowsUserLink(isAuthenticated, role) <==> Visit(isAuthenticated, role, "/user") == Outlet
    ensures ShowsAdminLink(isAuthenticated, role) <==> Visit(isAuthenticated, role, "/admin") == Outlet
  {
    GuardedPaths();
  }
}
