/**
  The navigation bar of the legacy front end's `App`: which links it shows, in order,
  for the current `isAuthenticated` and `role`.
 */
module LegacyApp {
  import opened Routes

  /** The links of the bar from left to right. */
  function NavLinks(isAuthenticated: bool, role: string): (r: seq<Link>)
    ensures 4 <= |r| <= 6
    ensures r[0] == Home && r[1] == (if isAuthenticated then Logout else Login)
    ensures r[|r| - 2] == Contact && r[|r| - 1] == About
  {
    [Home]
    + (if !isAuthenticated then [Login] else [Logout])
    + (if ShowsUserLink(isAuthenticated, role) then [User] else [])
    + (if ShowsAdminLink(isAuthenticated, role) then [Admin] else [])
    + [Contact, About]
  }

  /** Home, Contact and About are always there; Register and About Me never are. */
  lemma NavFixedLinks(isAuthenticated: bool, role: string)
    ensures var links := NavLinks(isAuthenticated, role);
      && Home in links && Contact in links && About in links
      && Register !in links && AboutMe !in links
  {
  }

  /** Exactly one of Login and Logout is there: Login when signed out, Logout when signed in. */
  lemma NavSessionLink(isAuthenticated: bool, role: string)
    ensures Login in NavLinks(isAuthenticated, role) <==> !isAuthenticated
    ensures Logout in NavLinks(isAuthenticated, role) <==> isAuthenticated
  {
  }

  /** The role links follow their conditions, so Admin never comes without User. */
  lemma NavRoleLinks(isAuthenticated: bool, role: string)
    ensures User in NavLinks(isAuthenticated, role) <==> ShowsUserLink(isAuthenticated, role)
    ensures Admin in NavLinks(isAuthenticated, role) <==> ShowsAdminLink(isAuthenticated, role)
    ensures Admin in NavLinks(isAuthenticated, role) ==> User in NavLinks(isAuthenticated, role)
  {
  }

  /** A role link is in the bar exactly when following it gets past the route's guard. */
  lemma NavLinksMatchGuards(isAuthenticated: bool, role: string)
    ensures User in NavLinks(isAuthenticated, role) <==> Visit(isAuthenticated, role, "/user") == Outlet
    ensures Admin in NavLinks(isAuthenticated, role) <==> Visit(isAuthenticated, role, "/admin") == Outlet
  {
    NavRoleLinks(isAuthenticated, role);
    RoleLinksMatchGuards(isAuthenticated, role);
  }
}
