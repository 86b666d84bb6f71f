/**
 * The application shell: the route table guarded by the authentication
 * flag, the theme applied to the document body, the side menu, and the
 * handlers the sign-in page and the user settings call.
 */
module App {
  import opened Wrappers
  import AuthPage

  datatype Page = AuthScreen | ChatPage | HistoryPage | BlogPage | UploadPage | PostPage

  /** What a route renders: a page, or a `<Navigate replace>` to another path. */
  datatype View = Render(page: Page) | Redirect(to: string)

  /** The chrome shown around the routes. */
  datatype Widget = SideMenu | UserSettings

  datatype AppState = AppState(
    location: string,
    menuOpen: bool,
    isAuthenticated: bool,
    theme: string,
    bodyClasses: set<string>,
    storedTheme: Option<string>)

  const BoyClass := "theme-boy"
  const GirlClass := "theme-girl"

  /** The pages that need a signed-in user, by path. */
  function GuardedPage(path: string): Option<Page> {
    if path == "/" then Some(ChatPage)
    else if path == "/history" then Some(HistoryPage)
    else if path == "/blog" then Some(BlogPage)
    else if path == "/upload" then Some(UploadPage)
    else if path == "/post" then Some(PostPage)
    else None
  }

  /** The `<Routes>` table. */
  function Route(path: string, authenticated: bool): (v: View)
    ensures path == "/auth" ==> v == Render(AuthScreen)
    ensures GuardedPage(path).Some? ==>
      v == if authenticated then Render(GuardedPage(path).value) else Redirect("/auth")
    ensures path != "/auth" && GuardedPage(path).None? ==>
      v == Redirect(if authenticated then "/" else "/auth")
  {
    if path == "/auth" then Render(AuthScreen)
    else match GuardedPage(path)
      case Some(page) => if authenticated then Render(page) else Redirect("/auth")
      case None => Redirect(if authenticated then "/" else "/auth")
  }

  /** Follows redirects, at most `hops` of them. */
  function Resolve(path: string, authenticated: bool, hops: nat): View
    decreases hops
  {
    match Route(path, authenticated)
    case Render(page) => Render(page)
    case Redirect(to) => if hops == 0 then Redirect(to) else Resolve(to, authenticated, hops - 1)
  }

  /**
   * Every path settles on a page within two redirects. A signed-out user
   * only ever reaches the sign-in page; a signed-in user reaches the guarded
   * page the path names, the sign-in page only at `/auth`, and the chat page
   * from any unknown path.
   */
  lemma RoutingSettles(path: string, authenticated: bool)
    ensures Resolve(path, authenticated, 2).Render?
    ensures !authenticated ==> Resolve(path, authenticated, 2) == Render(AuthScreen)
    ensures authenticated && GuardedPage(path).Some? ==>
      Resolve(path, authenticated, 2) == Render(GuardedPage(path).value)
    ensures authenticated && path != "/auth" && GuardedPage(path).None? ==>
      Resolve(path, authenticated, 2) == Render(ChatPage)
  {
    assert Route("/auth", authenticated) == Render(AuthScreen);
    assert GuardedPage("/") == Some(ChatPage);
  }

  /** The theme class for a theme name: girl for "girl", boy for anything else. */
  function ThemeClass(t: string): string {
    if t == "girl" then GirlClass else BoyClass
  }

  /** Exactly one of the two theme classes is on the body. */
  predicate OneThemeClass(classes: set<string>) {
    (GirlClass in classes) != (BoyClass in classes)
  }

  /** Swaps the theme classes of the body for the one of `t`. */
  function SetThemeClass(classes: set<string>, t: string): (r: set<string>)
    ensures OneThemeClass(r)
    ensures GirlClass in r <==> t == "girl"
    ensures forall c :: c != GirlClass && c != BoyClass ==> (c in r <==> c in classes)
  {
    classes - {BoyClass, GirlClass} + {ThemeClass(t)}
  }

  /** The shell as first mounted on a body with the given classes. */
  function InitialApp(body: set<string>, stored: Option<string>): (s: AppState)
    ensures !s.menuOpen && !s.isAuthenticated && s.theme == "boy"
    ensures OneThemeClass(s.bodyClasses) && BoyClass in s.bodyClasses
    ensures forall c :: c != GirlClass && c != BoyClass ==> (c in s.bodyClasses <==> c in body)
  {
    AppState("/", false, false, "boy", SetThemeClass(body, "boy"), stored)
  }

  /** `applyTheme(t)`: records the theme, stores it, and makes its class the body's only theme class. */
  function ApplyTheme(s: AppState, t: string): (r: AppState)
    ensures r.theme == t && r.storedTheme == Some(t)
    ensures OneThemeClass(r.bodyClasses) && (GirlClass in r.bodyClasses <==> t == "girl")
    ensures r.isAuthenticated == s.isAuthenticated && r.menuOpen == s.menuOpen && r.location == s.location
    ensures forall c :: c != GirlClass && c != BoyClass ==> (c in r.bodyClasses <==> c in s.bodyClasses)
  {
    s.(theme := t, storedTheme := Some(t), bodyClasses := SetThemeClass(s.bodyClasses, t))
  }

  /** `onAuth`: the user is signed in. */
  function OnAuth(s: AppState): (r: AppState)
    ensures r.isAuthenticated
    ensures r == s.(isAuthenticated := true)
  {
    s.(isAuthenticated := true)
  }

  /** `onLogout`: the user is signed out and the boy theme is applied. */
  function Logout(s: AppState): (r: AppState)
    ensures !r.isAuthenticated && r.theme == "boy" && r.storedTheme == Some("boy")
    ensures OneThemeClass(r.bodyClasses) && BoyClass in r.bodyClasses
    ensures r.menuOpen == s.menuOpen && r.location == s.location
    ensures forall c :: c != GirlClass && c != BoyClass ==> (c in r.bodyClasses <==> c in s.bodyClasses)
  {
    ApplyTheme(s.(isAuthenticated := false), "boy")
  }

  /** The hamburger button flips the menu and touches nothing else. */
  function ToggleMenu(s: AppState): (r: AppState)
    ensures r.menuOpen != s.menuOpen
    ensures r.location == s.location && r.isAuthenticated == s.isAuthenticated
    ensures r.theme == s.theme && r.bodyClasses == s.bodyClasses && r.storedTheme == s.storedTheme
  {
    s.(menuOpen := !s.menuOpen)
  }

  /** Closing the menu leaves it closed and touches nothing else. */
  function CloseMenu(s: AppState): (r: AppState)
    ensures !r.menuOpen
    ensures r.location == s.location && r.isAuthenticated == s.isAuthenticated
    ensures r.theme == s.theme && r.bodyClasses == s.bodyClasses && r.storedTheme == s.storedTheme
  {
    s.(menuOpen := false)
  }

  /** The side menu and the user settings are mounted only for a signed-in user. */
  function Chrome(s: AppState): (w: set<Widget>)
    ensures SideMenu in w <==> s.isAuthenticated
    ensures UserSettings in w <==> s.isAuthenticated
  {
    if s.isAuthenticated then {SideMenu, UserSettings} else {}
  }

  /** What the sign-in page's callbacks do to the shell. */
  function ApplyEffect(s: AppState, e: AuthPage.Effect): AppState {
    match e
    case SetTheme(t) => ApplyTheme(s, t)
    case OnAuth => OnAuth(s)
    case NavigateHome => s.(location := "/")
  }

  function ApplyEffects(s: AppState, effects: seq<AuthPage.Effect>): AppState
    decreases |effects|
  {
    if effects == [] then s else ApplyEffects(ApplyEffect(s, effects[0]), effects[1..])
  }

  /** Toggling the menu twice leaves it as it was; closing it is idempotent. */
  lemma MenuToggles(s: AppState)
    ensures ToggleMenu(ToggleMenu(s)) == s
    ensures CloseMenu(CloseMenu(s)) == CloseMenu(s)
  {
  }

  /** Every shell transition keeps exactly one theme class on the body. */
  lemma TransitionsKeepOneThemeClass(s: AppState, t: string)
    requires OneThemeClass(s.bodyClasses)
    ensures OneThemeClass(ApplyTheme(s, t).bodyClasses)
    ensures OneThemeClass(OnAuth(s).bodyClasses)
    ensures OneThemeClass(Logout(s).bodyClasses)
    ensures OneThemeClass(ToggleMenu(s).bodyClasses) && OneThemeClass(CloseMenu(s).bodyClasses)
  {
  }

  /**
   * Submitting a valid sign-in form from the sign-in page signs the user in
   * with the chosen theme and lands on the chat page; an invalid one changes
   * nothing in the shell.
   */
  lemma SignInFlow(s: AppState, f: AuthPage.Form)
    ensures var sub := AuthPage.Submit(f, true, true);
      var r := ApplyEffects(s, sub.effects);
      && (AuthPage.Validate(f).valid ==>
            && r.isAuthenticated && r.theme == f.gender && r.location == "/"
            && (GirlClass in r.bodyClasses <==> f.gender == "girl")
            && Route(r.location, r.isAuthenticated) == Render(ChatPage)
            && Chrome(r) == {SideMenu, UserSettings})
      && (!AuthPage.Validate(f).valid ==> r == s)
  {
    var sub := AuthPage.Submit(f, true, true);
    if AuthPage.Validate(f).valid {
      var s1 := ApplyTheme(s, f.gender);
      var s2 := OnAuth(s1);
      var s3 := s2.(location := "/");
      var e := sub.effects;
      assert e == [AuthPage.SetTheme(f.gender), AuthPage.OnAuth, AuthPage.NavigateHome];
      assert ApplyEffects(s, e) == ApplyEffects(s1, e[1..]);
      assert ApplyEffects(s1, e[1..]) == ApplyEffects(s2, e[2..]) by {
        assert e[1..][1..] == e[2..];
      }
      assert ApplyEffects(s2, e[2..]) == ApplyEffects(s3, []) by {
        assert e[2..][1..] == [];
      }
      assert Route("/", true) == Render(ChatPage);
    }
  }
}
