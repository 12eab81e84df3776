// What the three theme toggles share: the `overleaf_theme` cookie, the
// `dark-theme-marketing` body class and the toggle icon's text.
module Themes {
  import opened Cookies

  datatype Theme = Light | Dark

  const ThemeCookie := "overleaf_theme"
  const DarkClass := "dark-theme-marketing"

  /** The theme's name as written to the cookie. */
  function Name(t: Theme): string
  {
    match t
    case Light => "light"
    case Dark => "dark"
  }

  /** The other theme. */
  function Opposite(t: Theme): (r: Theme)
    ensures r != t
  {
    if t == Dark then Light else Dark
  }

  /** The theme a class list shows: dark exactly when it holds the dark
      marketing class. */
  function ShownTheme(classes: set<string>): Theme
  {
    if DarkClass in classes then Dark else Light
  }

  /** `classList.add(c)` when `on`, `classList.remove(c)` otherwise. */
  function WithClass(classes: set<string>, c: string, on: bool): (r: set<string>)
    ensures c in r <==> on
    ensures r - {c} == classes - {c}
  {
    if on then classes + {c} else classes - {c}
  }

  /** Of two class-list updates for the same class the second decides. */
  lemma WithClassTwice(classes: set<string>, c: string, first: bool, second: bool)
    ensures WithClass(WithClass(classes, c, first), c, second) == WithClass(classes, c, second)
  {
    var r := WithClass(WithClass(classes, c, first), c, second);
    var s := WithClass(classes, c, second);
    forall x | x in r
      ensures x in s
    {
      if x != c {
        assert x in r - {c};
      }
    }
    forall x | x in s
      ensures x in r
    {
      if x != c {
        assert x in s - {c};
      }
    }
  }

  /** The icon offers the other theme: `light_mode` while dark. */
  function IconText(theme: string): string
  {
    if theme == "dark" then "light_mode" else "dark_mode"
  }

  /** Both theme names can be written as the value of the theme cookie
      and read back. */
  lemma ThemeCookieOk(t: Theme)
    ensures NameOk(ThemeCookie) && ValueOk(Name(t)) && Name(t) != ""
  {
    var n := Name(t);
    assert forall i :: 0 <= i < |n| ==> n[i] != ';' && n[i] != '=';
    assert forall i :: 0 <= i < |ThemeCookie| ==> ThemeCookie[i] != ';' && ThemeCookie[i] != '=';
  }
}
