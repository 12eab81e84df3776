// The React theme toggle button: its theme state, the choice of the
// initial theme, the toggle that writes cookie and body class, and the
// effect that keeps the body class in step with the state.
module ThemeToggle {
  import opened Wrappers
  import opened Cookies
  import opened Themes
  import ThemeTogglePage

  /** The initial state: the saved theme when it is exactly `light` or
      `dark`, otherwise the one the body class shows. */
  function InitialTheme(saved: Option<string>, classes: set<string>): (t: Theme)
    ensures saved in {Some("light"), Some("dark")} ==> saved == Some(Name(t))
    ensures saved !in {Some("light"), Some("dark")} ==> t == ShownTheme(classes)
  {
    if saved == Some("light") then Light
    else if saved == Some("dark") then Dark
    else ShownTheme(classes)
  }

  /** The button's label and icon name, offering the other theme. */
  function ButtonLabel(t: Theme): (r: (string, string))
    ensures r.1 == IconText(Name(t))
    ensures r.0 == "Switch to " + Name(Opposite(t)) + " mode"
  {
    if t == Dark then ("Switch to light mode", "light_mode")
    else ("Switch to dark mode", "dark_mode")
  }

  class ThemeToggleState {
    var theme: Theme
    var jar: seq<Cookie>
    var bodyClasses: set<string>

    /** Mounting: the state starts from the cookie or the body class;
        nothing is written yet. */
    constructor (cookies: seq<Cookie>, classes: set<string>)
      ensures theme == InitialTheme(GetCookie(Serialize(cookies), ThemeCookie), classes)
      ensures jar == cookies && bodyClasses == classes
    {
      theme := InitialTheme(GetCookie(Serialize(cookies), ThemeCookie), classes);
      jar := cookies;
      bodyClasses := classes;
    }

    /** The body class shows the state's theme. */
    predicate Synced()
      reads this
    {
      ShownTheme(bodyClasses) == theme
    }

    /** `toggleTheme`: the other theme goes to the state, the cookie and
        the body class. */
    method ToggleTheme()
      modifies this`theme, this`jar, this`bodyClasses
      ensures theme == Opposite(old(theme))
      ensures jar == Store(old(jar), ThemeCookie, Name(theme))
      ensures bodyClasses == WithClass(old(bodyClasses), DarkClass, theme == Dark)
      ensures Synced()
      ensures WellFormed(old(jar)) ==> WellFormed(jar)
      ensures WellFormed(old(jar)) && AtMostOne(old(jar), ThemeCookie) ==>
                AtMostOne(jar, ThemeCookie) && GetCookie(Serialize(jar), ThemeCookie) == Some(Name(theme))
    {
      var newTheme := if theme == Dark then Light else Dark;
      theme := newTheme;
      jar := Store(jar, ThemeCookie, Name(newTheme));
      if newTheme == Dark {
        bodyClasses := bodyClasses + {DarkClass};
      } else {
        bodyClasses := bodyClasses - {DarkClass};
      }
      ThemeCookieOk(newTheme);
      if WellFormed(old(jar)) {
        StoreKeepsJar(old(jar), ThemeCookie, Name(newTheme));
        if AtMostOne(old(jar), ThemeCookie) {
          StoredCookieReadsBack(old(jar), ThemeCookie, Name(newTheme));
        }
      }
    }

    /** The effect run after each render: the body class follows the
        state and nothing else changes. */
    method SyncEffect()
      modifies this`bodyClasses
      ensures bodyClasses == WithClass(old(bodyClasses), DarkClass, theme == Dark)
      ensures Synced()
    {
      if theme == Dark {
        bodyClasses := bodyClasses + {DarkClass};
      } else {
        bodyClasses := bodyClasses - {DarkClass};
      }
    }
  }

  /** Toggling twice restores the theme, leaves the cookie holding it and
      the body class showing it. */
  lemma ToggleTwice(t: Theme, jar: seq<Cookie>, classes: set<string>)
    ensures Opposite(Opposite(t)) == t
    ensures Store(Store(jar, ThemeCookie, Name(Opposite(t))), ThemeCookie, Name(t)) == Store(jar, ThemeCookie, Name(t))
    ensures WithClass(WithClass(classes, DarkClass, Opposite(t) == Dark), DarkClass, t == Dark)
            == WithClass(classes, DarkClass, t == Dark)
  {
    StoreTwice(jar, ThemeCookie, Name(Opposite(t)), Name(t));
    WithClassTwice(classes, DarkClass, Opposite(t) == Dark, t == Dark);
  }

  /** The theme a toggle stores is the one the button starts with on the
      next page, whatever that page's body class. */
  lemma ToggleSurvivesReload(jar: seq<Cookie>, t: Theme, classes: set<string>)
    requires WellFormed(jar) && AtMostOne(jar, ThemeCookie)
    ensures InitialTheme(GetCookie(Serialize(Store(jar, ThemeCookie, Name(t))), ThemeCookie), classes) == t
  {
    ThemeCookieOk(t);
    StoredCookieReadsBack(jar, ThemeCookie, Name(t));
  }

  /** A saved value other than `light` or `dark`: the button keeps the
      page's theme, while the marketing-page start-up treats it as
      light. */
  lemma OtherSavedValue(v: string, classes: set<string>)
    requires v != "light" && v != "dark"
    ensures InitialTheme(Some(v), classes) == ShownTheme(classes)
    ensures ThemeTogglePage.StartTheme(Some(v), classes) == Light
  {
  }
}
