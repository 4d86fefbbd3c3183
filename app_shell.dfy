/**
  The shell of the front end (`InnerApp`): the colour theme and the cookie banner,
  both remembered in localStorage; the side drawer's links and the About sub-menu;
  the breadcrumb of the `/home` pages; and the two HTTP interceptors, one adding the
  stored JWT to every request and one turning a failed response into a toast.
 */
module AppShell {
  import opened Wrappers
  import opened JsValues
  import opened Text
  import opened Storage
  import opened Routes
  import Toasts
  import AuthContext

  const ThemeKey := "theme"
  const ConsentKey := "cookieConsent"
  const FallbackError := "An error occurred"

  datatype Theme = Light | Dark

  /** The string a theme is stored and applied as. */
  function ThemeName(t: Theme): string {
    match t
    case Light => "light"
    case Dark => "dark"
  }

  /** The initial theme: dark only when the stored theme is exactly `'dark'`. */
  function InitialTheme(stored: Option<Value>): Theme {
    if stored == Some(Storage.Text("dark")) then Dark else Light
  }

  /** `toggleTheme`'s updater. */
  function Toggled(t: Theme): (u: Theme)
    ensures u != t
  {
    if t == Light then Dark else Light
  }

  /** Toggling twice gives back the theme one started from. */
  lemma ToggleInvolution(t: Theme)
    ensures Toggled(Toggled(t)) == t
  {
  }

  /** The theme the save effect writes is the theme the next mount starts with. */
  lemma ThemeSurvivesReload(entries: map<string, Value>, t: Theme)
    ensures InitialTheme(Lookup(entries[ThemeKey := Storage.Text(ThemeName(t))], ThemeKey)) == t
  {
    if t == Light {
      assert ThemeName(t)[0] != "dark"[0];
    }
  }

  /** The consent effect: the banner is shown on mounting unless the stored consent is exactly `true`. */
  function BannerOnMount(consent: Option<Value>): bool {
    consent != Some(Flag(true))
  }

  /** Without a stored consent the banner is shown; once consent was saved, it never is again. */
  lemma ConsentRemembered(entries: map<string, Value>)
    ensures ConsentKey !in entries ==> BannerOnMount(Lookup(entries, ConsentKey))
    ensures !BannerOnMount(Lookup(entries[ConsentKey := Flag(true)], ConsentKey))
  {
  }

  /** The stored JWT when it is truthy, that is a non-empty string. */
  function StoredJwt(entries: map<string, Value>): (t: Option<string>)
    ensures t.Some? ==> t.value != [] && Lookup(entries, AuthContext.JwtKey) == Some(Storage.Text(t.value))
  {
    match Lookup(entries, AuthContext.JwtKey)
    case Some(Text(t)) => if t != [] then Some(t) else None
    case _ => None
  }

  /** A login's token step followed by a request: a truthy token from the response is the one the request carries. */
  lemma LoginTokenIsSent(entries: map<string, Value>, token: Option<string>)
    ensures AuthContext.TokenTruthy(token) ==> StoredJwt(AuthContext.AfterToken(entries, token)) == token
    ensures StoredJwt(AuthContext.LoggedOutEntries(entries)) == None
  {
  }

  /** The request configuration the request interceptor edits in place. */
  class RequestConfig {
    var headers: Option<map<string, string>>

    constructor (headers: Option<map<string, string>>)
      ensures this.headers == headers
    {
      this.headers := headers;
    }
  }

  /**
    The body of a failed response, when it is an object: its `error`, `detail` and
    `message` fields, each whatever JSON value the server sent (FastAPI's validation
    errors carry a list in `detail`), or `JsUndefined` when absent.
   */
  datatype ErrorBody = ErrorBody(error: JsValue, detail: JsValue, message: JsValue)

  /** A rejected request: the response body, if any, and the error's own `message`. */
  datatype HttpFailure = HttpFailure(data: Option<ErrorBody>, message: Option<string>)

  /**
    The error interceptor's `||` chain over the response body and the error: the
    value it settles on is truthy, and is text whenever every truthy candidate is.
   */
  function ErrorMessage(err: HttpFailure): (m: JsValue)
    ensures Truthy(m)
    ensures m == JsString(FallbackError) || m in Candidates(err)
    ensures (forall c | c in Candidates(err) && Truthy(c) :: c.JsString?) ==> m.JsString? && m.s != []
  {
    if err.data.Some? && Truthy(err.data.value.error) then err.data.value.error
    else if err.data.Some? && Truthy(err.data.value.detail) then err.data.value.detail
    else if err.data.Some? && Truthy(err.data.value.message) then err.data.value.message
    else if err.message.Some? && err.message.value != [] then JsString(err.message.value)
    else JsString(FallbackError)
  }

  /** The candidates in the order the chain tries them; a missing body makes its three fields `undefined`. */
  function Candidates(err: HttpFailure): (c: seq<JsValue>)
    ensures |c| == 4
  {
    var own := if err.message.Some? then JsString(err.message.value) else JsUndefined;
    match err.data
    case Some(body) => [body.error, body.detail, body.message, own]
    case None => [JsUndefined, JsUndefined, JsUndefined, own]
  }

  /** The first truthy candidate, or `fallback` when there is none. */
  function FirstTruthy(candidates: seq<JsValue>, fallback: JsValue): (m: JsValue)
    ensures (exists i | 0 <= i < |candidates| :: Truthy(candidates[i])) ==>
      exists i | 0 <= i < |candidates| ::
        && Truthy(candidates[i]) && m == candidates[i]
        && (forall j | 0 <= j < i :: !Truthy(candidates[j]))
    ensures (forall i | 0 <= i < |candidates| :: !Truthy(candidates[i])) ==> m == fallback
  {
    if candidates == [] then fallback
    else if Truthy(candidates[0]) then candidates[0]
    else
      var m := FirstTruthy(candidates[1..], fallback);
      assert forall i | 1 <= i < |candidates| :: candidates[i] == candidates[1..][i - 1];
      if exists i | 0 <= i < |candidates| :: Truthy(candidates[i]) then
        var i :| 1 <= i < |candidates| && Truthy(candidates[i]);
        assert Truthy(candidates[1..][i - 1]);
        var k :| 0 <= k < |candidates[1..]| && Truthy(candidates[1..][k]) && m == candidates[1..][k]
          && (forall j | 0 <= j < k :: !Truthy(candidates[1..][j]));
        assert candidates[k + 1] == candidates[1..][k];
        m
      else m
  }

  /** The toast message is the first truthy of `data.error`, `data.detail`, `data.message`, `err.message`, or the fallback. */
  lemma ErrorMessageIsFirstTruthy(err: HttpFailure)
    ensures ErrorMessage(err) == FirstTruthy(Candidates(err), JsString(FallbackError))
  {
    var c := Candidates(err);
    assert c[1..][1..][1..][1..] == [];
    assert c[1..][0] == c[1] && c[1..][1..][0] == c[2] && c[1..][1..][1..][0] == c[3];
  }

  /**
    A validation error whose body has no `error` but a list in `detail` hands that
    list to the toast, even an empty one, in place of any text.
   */
  lemma ListDetailReachesToast(items: seq<JsValue>, message: Option<string>)
    ensures ErrorMessage(HttpFailure(Some(ErrorBody(JsUndefined, JsArray(items), JsUndefined)), message)) == JsArray(items)
  {
  }

  /** The links of the side drawer, top to bottom. */
  function DrawerLinks(isAuthenticated: bool, role: string, aboutOpen: bool): (r: seq<Link>)
    ensures 4 <= |r| <= 7
    ensures r[0] == Home && r[|r| - 1] == (if isAuthenticated then Logout else Login)
  {
    [Home]
    + (if ShowsUserLink(isAuthenticated, role) then [User] else [])
    + (if ShowsAdminLink(isAuthenticated, role) then [Admin] else [])
    + [Contact, About]
    + (if aboutOpen then [AboutMe] else [])
    + (if !isAuthenticated then [Register] else [])
    + (if !isAuthenticated then [Login] else [Logout])
  }

  /** Home, Contact and About are always in the drawer; About Me is exactly when the sub-menu is open. */
  lemma DrawerFixedLinks(isAuthenticated: bool, role: string, aboutOpen: bool)
    ensures var links := DrawerLinks(isAuthenticated, role, aboutOpen);
      && Home in links && Contact in links && About in links
      && (AboutMe in links <==> aboutOpen)
  {
  }

  /** Register and Login are there exactly when signed out, Logout exactly when signed in. */
  lemma DrawerSessionLinks(isAuthenticated: bool, role: string, aboutOpen: bool)
    ensures Register in DrawerLinks(isAuthenticated, role, aboutOpen) <==> !isAuthenticated
    ensures Login in DrawerLinks(isAuthenticated, role, aboutOpen) <==> !isAuthenticated
    ensures Logout in DrawerLinks(isAuthenticated, role, aboutOpen) <==> isAuthenticated
  {
  }

  /** The User and Admin items appear under the same conditions as in the navigation bar. */
  lemma DrawerRoleLinks(isAuthenticated: bool, role: string, aboutOpen: bool)
    ensures User in DrawerLinks(isAuthenticated, role, aboutOpen) <==> ShowsUserLink(isAuthenticated, role)
    ensures Admin in DrawerLinks(isAuthenticated, role, aboutOpen) <==> ShowsAdminLink(isAuthenticated, role)
  {
  }

  /** The role links are there exactly when following them gets past the route's guard. */
  lemma DrawerLinksMatchGuards(isAuthenticated: bool, role: string, aboutOpen: bool)
    ensures User in DrawerLinks(isAuthenticated, role, aboutOpen) <==> Visit(isAuthenticated, role, "/user") == Outlet
    ensures Admin in DrawerLinks(isAuthenticated, role, aboutOpen) <==> Visit(isAuthenticated, role, "/admin") == Outlet
    ensures Admin in DrawerLinks(isAuthenticated, role, aboutOpen) ==> User in DrawerLinks(isAuthenticated, role, aboutOpen)
  {
    DrawerRoleLinks(isAuthenticated, role, aboutOpen);
    RoleLinksMatchGuards(isAuthenticated, role);
  }

  /** The two items of the `/home` breadcrumb. */
  datatype Crumb = HomeCrumb | TodoCrumb

  /** Where an item's command navigates. */
  function CrumbTarget(c: Crumb): string {
    match c
    case HomeCrumb => "/home"
    case TodoCrumb => "/home/todo"
  }

  /** The breadcrumb is shown on every page under `/home`. */
  predicate BreadcrumbShown(pathname: string) {
    StartsWith(pathname, "/home")
  }

  /** An item is disabled on the page it leads to: Home exactly at `/home`, Todo anywhere under `/home/todo`. */
  predicate CrumbDisabled(c: Crumb, pathname: string) {
    match c
    case HomeCrumb => pathname == "/home"
    case TodoCrumb => StartsWith(pathname, "/home/todo")
  }

  /** A disabled item is always on a shown breadcrumb, and the two items are never disabled together. */
  lemma CrumbDisabledWhereShown(c: Crumb, pathname: string)
    ensures CrumbDisabled(c, pathname) ==> BreadcrumbShown(pathname)
    ensures !(CrumbDisabled(HomeCrumb, pathname) && CrumbDisabled(TodoCrumb, pathname))
  {
    if c == TodoCrumb && CrumbDisabled(c, pathname) {
      assert pathname[..5] == pathname[..10][..5];
    }
  }

  /** Following an item lands on a page where that item is disabled and the About sub-menu is closed. */
  lemma FollowedCrumbDisabled(c: Crumb)
    ensures CrumbDisabled(c, CrumbTarget(c))
    ensures !StartsWith(CrumbTarget(c), "/about")
  {
    assert CrumbTarget(c)[1] != "/about"[1];
  }

  /** The shell's state, the localStorage it reads and writes, and the toast list it reports errors to. */
  class InnerApp {
    var themeMode: Theme
    var showCookieBanner: bool
    var aboutOpen: bool
    var menuOpen: bool
    var pathname: string
    const storage: LocalStorage
    const toasts: Toasts.ToastQueue

    /** The theme effect has run: localStorage holds the current theme. */
    ghost predicate Valid()
      reads this, storage
    {
      Lookup(storage.entries, ThemeKey) == Some(Storage.Text(ThemeName(themeMode)))
    }

    /**
      Mounting at `pathname`: the theme is read back, the consent effect decides the
      banner, the location effect opens the About sub-menu under `/about`, and the
      theme effect writes the theme.
     */
    constructor (storage: LocalStorage, toasts: Toasts.ToastQueue, pathname: string)
      modifies storage
      ensures this.storage == storage && this.toasts == toasts && this.pathname == pathname
      ensures themeMode == InitialTheme(Lookup(old(storage.entries), ThemeKey))
      ensures showCookieBanner == BannerOnMount(Lookup(old(storage.entries), ConsentKey))
      ensures aboutOpen == StartsWith(pathname, "/about") && !menuOpen
      ensures storage.entries == old(storage.entries)[ThemeKey := Storage.Text(ThemeName(themeMode))]
      ensures Valid()
    {
      this.storage := storage;
      this.toasts := toasts;
      this.pathname := pathname;
      themeMode := InitialTheme(Lookup(storage.entries, ThemeKey));
      showCookieBanner := BannerOnMount(Lookup(storage.entries, ConsentKey));
      aboutOpen := StartsWith(pathname, "/about");
      menuOpen := false;
      new;
      storage.Save(ThemeKey, Storage.Text(ThemeName(themeMode)));
    }

    /** `toggleTheme`, followed by the theme effect writing the new theme. */
    method ToggleTheme()
      requires Valid()
      modifies this`themeMode, storage
      ensures themeMode == Toggled(old(themeMode))
      ensures storage.entries == old(storage.entries)[ThemeKey := Storage.Text(ThemeName(themeMode))]
      ensures Valid()
    {
      themeMode := Toggled(themeMode);
      storage.Save(ThemeKey, Storage.Text(ThemeName(themeMode)));
    }

    /** `handleAcceptCookies`: consent saved as `true`, banner hidden. */
    method AcceptCookies()
      requires Valid()
      modifies this`showCookieBanner, storage
      ensures !showCookieBanner
      ensures storage.entries == old(storage.entries)[ConsentKey := Flag(true)]
      ensures Valid()
    {
      storage.Save(ConsentKey, Flag(true));
      showCookieBanner := false;
    }

    /** The home page's `onToggleCookieBanner`: shows or hides the banner, storing nothing. */
    method ToggleCookieBanner()
      modifies this`showCookieBanner
      ensures showCookieBanner == !old(showCookieBanner)
    {
      showCookieBanner := !showCookieBanner;
    }

    /**
      A navigation to `path`. The location effect depends on the pathname only, so it
      runs when the pathname changes and then opens the About sub-menu exactly under
      `/about`; a navigation to the same pathname leaves the sub-menu as it was.
     */
    method LocationChanged(path: string)
      modifies this`pathname, this`aboutOpen
      ensures pathname == path
      ensures aboutOpen == if path == old(pathname) then old(aboutOpen) else StartsWith(path, "/about")
    {
      if path != pathname {
        pathname := path;
        aboutOpen := StartsWith(pathname, "/about");
      }
    }

    /** The About item's `onClick`: opens or closes the sub-menu. */
    method ToggleAbout()
      modifies this`aboutOpen
      ensures aboutOpen == !old(aboutOpen)
    {
      aboutOpen := !aboutOpen;
    }

    /** The menu button opens the mobile drawer; a link's `onClick` or the drawer's `onClose` closes it. */
    method SetMenuOpen(open: bool)
      modifies this`menuOpen
      ensures menuOpen == open
    {
      menuOpen := open;
    }

    /** A breadcrumb item's `command`: drawer and sub-menu closed, then the navigation and its location effect. */
    method FollowBreadcrumb(c: Crumb)
      modifies this`menuOpen, this`aboutOpen, this`pathname
      ensures !menuOpen && !aboutOpen
      ensures pathname == CrumbTarget(c) && CrumbDisabled(c, pathname)
    {
      menuOpen := false;
      aboutOpen := false;
      FollowedCrumbDisabled(c);
      LocationChanged(CrumbTarget(c));
    }

    /**
      The request interceptor: with a truthy stored JWT, `Authorization` is set to
      `Bearer <token>` (creating the headers when there are none); otherwise the
      request is left as it was.
     */
    method InterceptRequest(config: RequestConfig)
      modifies config
      ensures match StoredJwt(storage.entries)
        case None => config.headers == old(config.headers)
        case Some(token) =>
          var before := if old(config.headers).Some? then old(config.headers).value else map[];
          config.headers == Some(before["Authorization" := "Bearer " + token])
    {
      var token := StoredJwt(storage.entries);
      if token.Some? {
        if config.headers.None? {
          config.headers := Some(map[]);
        }
        config.headers := Some(config.headers.value["Authorization" := "Bearer " + token.value]);
      }
    }

    /** The error interceptor: a danger toast with the chosen message, at the default position. */
    method InterceptError(err: HttpFailure, id: string, timer: Toasts.Timer)
      modifies toasts
      ensures toasts.toasts == old(toasts.toasts) + [Toasts.NewToast(id, ErrorMessage(err), Some(Toasts.Danger), None, timer)]
    {
      toasts.ShowToast(ErrorMessage(err), Some(Toasts.Danger), None, id, timer);
    }
  }
}
