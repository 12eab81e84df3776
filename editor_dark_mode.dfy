// The editor's dark-mode context: `editorDarkMode` state kept in step
// with the app-wide theme (the theme cookie, else the body class), the
// `editor-dark-mode` class on the root element and the body, and the
// toggle that writes the theme app-wide.
module EditorDarkMode {
  import opened Wrappers
  import opened Cookies
  import opened Themes
  import ThemeTogglePage

  const PreloadClass := "dark-theme-marketing-preload"
  const EditorClass := "editor-dark-mode"

  /** `getAppWideTheme`: the first theme cookie when its value is `dark`
      or `light`, otherwise the theme the body class shows. */
  function AppWideTheme(doc: string, classes: set<string>): (t: Theme)
    ensures FirstCookie(doc, ThemeCookie) in {Some("dark"), Some("light")} ==> FirstCookie(doc, ThemeCookie) == Some(Name(t))
    ensures FirstCookie(doc, ThemeCookie) !in {Some("dark"), Some("light")} ==> t == ShownTheme(classes)
  {
    var cookie := FirstCookie(doc, ThemeCookie);
    if cookie == Some("dark") then Dark
    else if cookie == Some("light") then Light
    else ShownTheme(classes)
  }

  class EditorDarkModeState {
    var editorDarkMode: bool
    var jar: seq<Cookie>
    var bodyClasses: set<string>
    var rootClasses: set<string>
    /** The `#theme-icon` element's text, `None` when there is none. */
    var icon: Option<string>

    /** The provider mounts with the app-wide theme. */
    constructor (cookies: seq<Cookie>, body: set<string>, root: set<string>, iconText: Option<string>)
      ensures editorDarkMode <==> AppWideTheme(Serialize(cookies), body) == Dark
      ensures jar == cookies && bodyClasses == body && rootClasses == root && icon == iconText
    {
      editorDarkMode := AppWideTheme(Serialize(cookies), body) == Dark;
      jar := cookies;
      bodyClasses := body;
      rootClasses := root;
      icon := iconText;
    }

    function AppWide(): Theme
      reads this
    {
      AppWideTheme(Serialize(jar), bodyClasses)
    }

    /** The editor's state agrees with the app-wide theme. */
    predicate InStep()
      reads this
    {
      editorDarkMode <==> AppWide() == Dark
    }

    /** `setAppWideTheme`: the cookie, both marketing classes and the
        icon, if there is one, take the theme. */
    method SetAppWideTheme(t: Theme)
      modifies this`jar, this`bodyClasses, this`rootClasses, this`icon
      ensures jar == Store(old(jar), ThemeCookie, Name(t))
      ensures bodyClasses == WithClass(old(bodyClasses), DarkClass, t == Dark)
      ensures rootClasses == WithClass(old(rootClasses), PreloadClass, t == Dark)
      ensures old(icon).Some? ==> icon == Some(IconText(Name(t)))
      ensures old(icon).None? ==> icon.None?
      ensures WellFormed(old(jar)) ==> WellFormed(jar)
      ensures WellFormed(old(jar)) && AtMostOne(old(jar), ThemeCookie) ==> AtMostOne(jar, ThemeCookie) && AppWide() == t
    {
      jar := Store(jar, ThemeCookie, Name(t));
      if t == Dark {
        bodyClasses := bodyClasses + {DarkClass};
        rootClasses := rootClasses + {PreloadClass};
      } else {
        bodyClasses := bodyClasses - {DarkClass};
        rootClasses := rootClasses - {PreloadClass};
      }
      if icon.Some? {
        icon := Some(IconText(Name(t)));
      }
      ThemeCookieOk(t);
      if WellFormed(old(jar)) {
        StoreKeepsJar(old(jar), ThemeCookie, Name(t));
        StoredCookieReadsFirst(old(jar), ThemeCookie, Name(t));
      }
    }

    /** `checkAppTheme`, run at mount, on class changes and every second:
        the state takes the app-wide theme when they differ. */
    method CheckAppTheme()
      modifies this`editorDarkMode
      ensures InStep()
      ensures old(InStep()) ==> editorDarkMode == old(editorDarkMode)
    {
      var isDark := AppWide() == Dark;
      if isDark != editorDarkMode {
        editorDarkMode := isDark;
      }
    }

    /** The effect that puts `editor-dark-mode` on the root element and
        the body exactly when the editor is dark. */
    method ClassEffect()
      modifies this`rootClasses, this`bodyClasses
      ensures rootClasses == WithClass(old(rootClasses), EditorClass, editorDarkMode)
      ensures bodyClasses == WithClass(old(bodyClasses), EditorClass, editorDarkMode)
    {
      if editorDarkMode {
        rootClasses := rootClasses + {EditorClass};
        bodyClasses := bodyClasses + {EditorClass};
      } else {
        rootClasses := rootClasses - {EditorClass};
        bodyClasses := bodyClasses - {EditorClass};
      }
    }

    /** `toggleEditorDarkMode`: the other theme is written app-wide and
        becomes the editor's. On a well-formed jar with at most one theme
        cookie the state is then in step, so the next check keeps it. */
    method ToggleEditorDarkMode()
      modifies this`editorDarkMode, this`jar, this`bodyClasses, this`rootClasses, this`icon
      ensures editorDarkMode == !old(editorDarkMode)
      ensures jar == Store(old(jar), ThemeCookie, if editorDarkMode then "dark" else "light")
      ensures bodyClasses == WithClass(old(bodyClasses), DarkClass, editorDarkMode)
      ensures rootClasses == WithClass(old(rootClasses), PreloadClass, editorDarkMode)
      ensures old(icon).Some? ==> icon == Some(if editorDarkMode then "light_mode" else "dark_mode")
      ensures old(icon).None? ==> icon.None?
      ensures WellFormed(old(jar)) ==> WellFormed(jar)
      ensures WellFormed(old(jar)) && AtMostOne(old(jar), ThemeCookie) ==> AtMostOne(jar, ThemeCookie) && InStep()
    {
      var newTheme := if editorDarkMode then Light else Dark;
      SetAppWideTheme(newTheme);
      editorDarkMode := newTheme == Dark;
    }
  }

  /** The cookie decides over the body class: a jar whose first theme
      cookie says `dark` or `light` gives that theme for every class
      list. */
  lemma CookieOverridesClass(a: seq<Cookie>, t: Theme, b: seq<Cookie>, classes: set<string>)
    requires WellFormed(a) && WellFormed(b) && NoneNamed(a, ThemeCookie)
    ensures AppWideTheme(Serialize(a + [Cookie(ThemeCookie, Name(t))] + b), classes) == t
  {
    ThemeCookieOk(t);
    FirstCookieReadsFirst(a, Name(t), b, ThemeCookie);
  }

  /** With a jar holding two theme cookies (the case the Cookies.Store
      line of the README leaves out) the editor follows the first while
      the marketing page ignores both and keeps the theme its body class
      shows. */
  lemma DuplicatesSplitThePages(a: seq<Cookie>, t: Theme, b: seq<Cookie>, v2: string, c: seq<Cookie>,
                                classes: set<string>)
    requires WellFormed(a) && WellFormed(b) && WellFormed(c) && NoneNamed(a, ThemeCookie) && NoneNamed(b, ThemeCookie)
    requires ValueOk(v2)
    ensures AppWideTheme(Serialize(a + [Cookie(ThemeCookie, Name(t))] + b + [Cookie(ThemeCookie, v2)] + c), classes) == t
    ensures ThemeTogglePage.StartTheme(GetCookie(Serialize(a + [Cookie(ThemeCookie, Name(t))] + b
                                                          + [Cookie(ThemeCookie, v2)] + c), ThemeCookie), classes)
            == ShownTheme(classes)
  {
    ThemeCookieOk(t);
    ReadersDisagreeOnDuplicates(a, Name(t), b, v2, c, ThemeCookie);
  }
}
