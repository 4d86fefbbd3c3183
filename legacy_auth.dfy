/**
  The authentication context of the legacy front end: the same two pieces of state as
  the current one, held only in memory; `login` is handed the role directly.
 */
module LegacyAuth {

  /** The `UserRole` union type: `'admin' | 'user' | 'guest'`. */
  predicate IsUserRole(r: string) {
    r == "admin" || r == "user" || r == "guest"
  }

  class AuthProvider {
    var isAuthenticated: bool
    var role: string

    /** The role is always one of the three the type allows. */
    ghost predicate Valid()
      reads this
    {
      IsUserRole(role)
    }

    /** Mounting: signed out, as a guest. */
    constructor ()
      ensures Valid()
      ensures !isAuthenticated && role == "guest"
    {
      isAuthenticated, role := false, "guest";
    }

    /** `login(newRole)`: signed in with exactly that role. */
    method Login(newRole: string)
      requires IsUserRole(newRole)
      modifies this
      ensures Valid()
      ensures isAuthenticated && role == newRole
    {
      isAuthenticated := true;
      role := newRole;
    }

    /** `logout`: signed out as a guest, from any state, so doing it twice is doing it once. */
    method Logout()
      modifies this
      ensures Valid()
      ensures !isAuthenticated && role == "guest"
    {
      isAuthenticated := false;
      role := "guest";
    }
  }

  /**
    Logging in and then out from a freshly mounted provider comes back to the state
    it was mounted in.
   */
  method LoginThenLogout(newRole: string) returns (mounted: (bool, string), after: (bool, string))
    requires IsUserRole(newRole)
    ensures after == mounted
  {
    var p := new AuthProvider();
    mounted := (p.isAuthenticated, p.role);
    p.Login(newRole);
    p.Logout();
    after := (p.isAuthenticated, p.role);
  }
}
