// The dark/light toggle of the marketing pages: the page's cookie jar,
// body class list and toggle icon, the start-up step that applies a
// saved theme, and the click handler.
module ThemeTogglePage {
  import opened Wrappers
  import opened Cookies
  import opened Themes

  /** The class list a click leaves: the dark class flipped. */
  function Flip(classes: set<string>): (r: set<string>)
    ensures ShownTheme(r) == Opposite(ShownTheme(classes))
    ensures r - {DarkClass} == classes - {DarkClass}
  {
    WithClass(classes, DarkClass, DarkClass !in classes)
  }

  /** Clicking twice restores the class list. */
  lemma FlipTwice(classes: set<string>)
    ensures Flip(Flip(classes)) == classes
  {
    var once := Flip(classes);
    var twice := Flip(once);
    assert DarkClass in twice <==> DarkClass in classes;
    assert twice - {DarkClass} == classes - {DarkClass};
    forall c | c in twice
      ensures c in classes
    {
      if c != DarkClass {
        assert c in twice - {DarkClass};
      }
    }
    forall c | c in classes
      ensures c in twice
    {
      if c != DarkClass {
        assert c in classes - {DarkClass};
      }
    }
  }

  /** The theme the page shows after start-up: the saved theme when
      there is one (any saved value but `dark` counts as light), the
      page's own otherwise. */
  function StartTheme(saved: Option<string>, classes: set<string>): (t: Theme)
    ensures saved.Some? ==> (t == Dark <==> saved.value == "dark")
    ensures saved.None? ==> t == ShownTheme(classes)
  {
    match saved
    case Some(v) => if v == "dark" then Dark else Light
    case None => ShownTheme(classes)
  }

  class Page {
    var jar: seq<Cookie>
    var bodyClasses: set<string>
    /** The `#theme-icon` element's text, `None` when there is none. */
    var icon: Option<string>
    /** Whether the page has a `#theme-toggle-btn` element. */
    const hasButton: bool
    /** Whether the click handler is attached. */
    var listening: bool

    constructor (cookies: seq<Cookie>, classes: set<string>, iconText: Option<string>, button: bool)
      ensures jar == cookies && bodyClasses == classes && icon == iconText
      ensures hasButton == button && !listening
    {
      jar := cookies;
      bodyClasses := classes;
      icon := iconText;
      hasButton := button;
      listening := false;
    }

    /** The icon, if there is one, offers the theme the page does not
        show. */
    predicate IconMatches()
      reads this
    {
      icon.Some? ==> icon.value == IconText(Name(ShownTheme(bodyClasses)))
    }

    /** `setCookie`: the expiry, path and SameSite attributes only decide
        which cookie is overwritten, and all writes here use `path=/`. */
    method SetCookie(name: string, value: string)
      modifies this`jar
      ensures jar == Store(old(jar), name, value)
    {
      jar := Store(jar, name, value);
    }

    /** `applyTheme`: the dark class is added for `dark` and removed for
        anything else. */
    method ApplyTheme(theme: string)
      modifies this`bodyClasses
      ensures bodyClasses == WithClass(old(bodyClasses), DarkClass, theme == "dark")
    {
      if theme == "dark" {
        bodyClasses := bodyClasses + {DarkClass};
      } else {
        bodyClasses := bodyClasses - {DarkClass};
      }
    }

    /** `updateToggleIcon`: only an existing icon changes. */
    method UpdateToggleIcon(theme: string)
      modifies this`icon
      ensures old(icon).Some? ==> icon == Some(IconText(theme))
      ensures old(icon).None? ==> icon.None?
    {
      if icon.Some? {
        icon := Some(IconText(theme));
      }
    }

    /** `initThemeToggle`: without a button nothing happens. Otherwise
        the saved theme is applied when it differs from the page's, the
        icon is set, and the click handler attached. */
    method Init()
      modifies this`bodyClasses, this`icon, this`listening
      ensures !hasButton ==> bodyClasses == old(bodyClasses) && icon == old(icon) && listening == old(listening)
      ensures hasButton ==> listening && IconMatches()
      ensures hasButton ==> ShownTheme(bodyClasses) == StartTheme(GetCookie(Serialize(jar), ThemeCookie), old(bodyClasses))
      ensures bodyClasses - {DarkClass} == old(bodyClasses) - {DarkClass}
      ensures icon.Some? <==> old(icon).Some?
    {
      if !hasButton {
        return;
      }
      var saved := GetCookie(Serialize(jar), ThemeCookie);
      var current := if saved.Some? then saved.value else Name(ShownTheme(bodyClasses));
      if saved.Some? && saved.value != Name(ShownTheme(bodyClasses)) {
        ApplyTheme(saved.value);
      }
      UpdateToggleIcon(current);
      listening := true;
    }

    /** The click handler: the theme the body class does not show goes to
        the class list, the cookie and the icon. */
    method Click()
      requires listening
      modifies this`bodyClasses, this`jar, this`icon
      ensures bodyClasses == Flip(old(bodyClasses))
      ensures jar == Store(old(jar), ThemeCookie, Name(ShownTheme(bodyClasses)))
      ensures icon.Some? <==> old(icon).Some?
      ensures IconMatches()
      ensures WellFormed(old(jar)) ==> WellFormed(jar)
      ensures WellFormed(old(jar)) && AtMostOne(old(jar), ThemeCookie) ==>
                AtMostOne(jar, ThemeCookie) && GetCookie(Serialize(jar), ThemeCookie) == Some(Name(ShownTheme(bodyClasses)))
    {
      var newTheme := Opposite(ShownTheme(bodyClasses));
      ApplyTheme(Name(newTheme));
      SetCookie(ThemeCookie, Name(newTheme));
      UpdateToggleIcon(Name(newTheme));
      ThemeCookieOk(newTheme);
      if WellFormed(old(jar)) {
        StoreKeepsJar(old(jar), ThemeCookie, Name(newTheme));
        if AtMostOne(old(jar), ThemeCookie) {
          StoredCookieReadsBack(old(jar), ThemeCookie, Name(newTheme));
        }
      }
    }
  }

  /** Two clicks leave the class list as it was and the cookie holding
      the theme shown before them. */
  lemma TwoClicks(jar: seq<Cookie>, classes: set<string>)
    ensures Flip(Flip(classes)) == classes
    ensures Store(Store(jar, ThemeCookie, Name(ShownTheme(Flip(classes)))), ThemeCookie,
                  Name(ShownTheme(Flip(Flip(classes)))))
            == Store(jar, ThemeCookie, Name(ShownTheme(classes)))
  {
    FlipTwice(classes);
    StoreTwice(jar, ThemeCookie, Name(ShownTheme(Flip(classes))), Name(ShownTheme(classes)));
  }

  /** The theme a click stores is the one the next page load starts with,
      whatever that page's own class list. */
  lemma ClickSurvivesReload(jar: seq<Cookie>, classes: set<string>, nextClasses: set<string>)
    requires WellFormed(jar) && AtMostOne(jar, ThemeCookie)
    ensures StartTheme(GetCookie(Serialize(Store(jar, ThemeCookie, Name(ShownTheme(Flip(classes))))), ThemeCookie),
                       nextClasses)
            == ShownTheme(Flip(classes))
  {
    var t := ShownTheme(Flip(classes));
    ThemeCookieOk(t);
    StoredCookieReadsBack(jar, ThemeCookie, Name(t));
  }

  /** A jar holding two theme cookies (the case the Cookies.Store line of
      the README leaves out) is ignored at start-up: the page keeps its
      own theme. */
  lemma DuplicateCookiesIgnored(a: seq<Cookie>, v1: string, b: seq<Cookie>, v2: string, c: seq<Cookie>,
                                classes: set<string>)
    requires WellFormed(a) && WellFormed(b) && NoneNamed(a, ThemeCookie) && NoneNamed(b, ThemeCookie)
    requires ValueOk(v1)
    ensures StartTheme(GetCookie(Serialize(a + [Cookie(ThemeCookie, v1)] + b + [Cookie(ThemeCookie, v2)] + c),
                                 ThemeCookie), classes)
            == ShownTheme(classes)
  {
    ThemeCookieOk(Dark);
    GetCookieRejectsDuplicates(a, v1, b, v2, c, ThemeCookie);
  }
}
