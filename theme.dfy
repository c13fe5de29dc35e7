/** Theme selection: five named themes, an initial theme read from the stored
    preference, a setter that ignores unknown names, and the step that applies
    a theme to the root element's class set and stores it. Browser storage is
    the `stored` field and the root class list the `classes` field. */
module Theme {
  import opened Wrappers

  /** The known themes, in the order the theme toggle cycles through them. */
  const ThemeOrder: seq<string> := ["light", "light-alt", "dark", "dark-alt", "dark-alt-2"]

  /** The root classes that select a non-default theme. */
  const ThemeClasses: set<string> := {"theme-light-alt", "theme-dark", "theme-dark-alt", "theme-dark-alt-2"}

  predicate IsTheme(name: string)
  {
    name in ThemeOrder
  }

  /** Five distinct themes, the first of which is "light". */
  lemma ThemeOrderWellFormed()
    ensures |ThemeOrder| == 5 && ThemeOrder[0] == "light"
    ensures forall i, j :: 0 <= i < j < |ThemeOrder| ==> ThemeOrder[i] != ThemeOrder[j]
  {
  }

  /** The theme restored at start-up: the stored value when it names a known
      theme, otherwise the first theme. */
  function InitialTheme(stored: Option<string>): (theme: string)
    ensures IsTheme(theme)
    ensures stored.Some? && IsTheme(stored.value) ==> theme == stored.value
    ensures !(stored.Some? && IsTheme(stored.value)) ==> theme == "light"
  {
    if stored.Some? && stored.value != "" && stored.value in ThemeOrder
    then stored.value
    else ThemeOrder[0]
  }

  /** The class that marks `theme` on the root element, if any. */
  function ThemeClass(theme: string): (c: Option<string>)
    requires IsTheme(theme)
    ensures theme == "light" <==> c == None
    ensures c.Some? ==> c.value in ThemeClasses
  {
    if theme == "light" then None
    else
      assert "theme-" + theme in ThemeClasses by {
        if theme == "light-alt" {
          assert "theme-" + theme == "theme-light-alt";
        } else if theme == "dark" {
          assert "theme-" + theme == "theme-dark";
        } else if theme == "dark-alt" {
          assert "theme-" + theme == "theme-dark-alt";
        } else {
          assert "theme-" + theme == "theme-dark-alt-2";
        }
      }
      Some("theme-" + theme)
  }

  /** The classes `c` names, as a set: `{c.value}` or nothing. */
  function ClassSet(c: Option<string>): set<string>
  {
    if c.Some? then {c.value} else {}
  }

  /** The root class set after applying `theme`: the four theme classes are
      removed, then the class of a non-light theme is added. Exactly that
      class (none for "light") is then among the theme classes, and every
      other class is kept as it was. */
  function ApplyClasses(classes: set<string>, theme: string): (r: set<string>)
    requires IsTheme(theme)
    ensures r * ThemeClasses == (if theme == "light" then {} else {"theme-" + theme})
    ensures r - ThemeClasses == classes - ThemeClasses
  {
    (classes - ThemeClasses) + ClassSet(ThemeClass(theme))
  }

  /** Applying the same theme twice is the same as applying it once. */
  lemma ApplyIdempotent(classes: set<string>, theme: string)
    requires IsTheme(theme)
    ensures ApplyClasses(ApplyClasses(classes, theme), theme) == ApplyClasses(classes, theme)
  {
  }

  /** The stored value always brings back the theme that was stored. */
  lemma StoreRestoreRoundTrip(theme: string)
    requires IsTheme(theme)
    ensures InitialTheme(Some(theme)) == theme
  {
  }

  class ThemeProvider {
    var theme: string
    var stored: Option<string>
    var classes: set<string>

    /** The theme is known, it is the stored one, and the root carries
        exactly its theme class. */
    ghost predicate Valid()
      reads this
    {
      && IsTheme(theme)
      && stored == Some(theme)
      && classes * ThemeClasses == (if theme == "light" then {} else {"theme-" + theme})
    }

    /** Mounting the provider: the theme is restored from storage and then
        applied once. */
    constructor Mount(storedValue: Option<string>, rootClasses: set<string>)
      ensures Valid()
      ensures theme == InitialTheme(storedValue)
      ensures classes == ApplyClasses(rootClasses, theme)
      ensures stored == Some(theme)
    {
      theme := InitialTheme(storedValue);
      stored := storedValue;
      classes := rootClasses;
      new;
      Apply();
    }

    /** The effect run on every theme change: update the root classes and
        store the theme. */
    method Apply()
      requires IsTheme(theme)
      modifies this
      ensures Valid() && theme == old(theme)
      ensures classes == ApplyClasses(old(classes), theme)
      ensures stored == Some(theme)
    {
      classes := classes - ThemeClasses;
      var themeClass := ThemeClass(theme);
      if themeClass.Some? {
        classes := classes + {themeClass.value};
      }
      stored := Some(theme);
    }

    /** `setTheme(name)`: a known theme that differs from the current one
        becomes current and is applied; any other name changes nothing. */
    method SetTheme(name: string)
      requires Valid()
      modifies this
      ensures Valid()
      ensures IsTheme(name) ==> theme == name
      ensures !IsTheme(name) ==> theme == old(theme)
      ensures IsTheme(name) && name != old(theme) ==>
        classes == ApplyClasses(old(classes), name) && stored == Some(name)
      ensures !IsTheme(name) || name == old(theme) ==>
        classes == old(classes) && stored == old(stored)
    {
      if name in ThemeOrder {
        if name != theme {
          theme := name;
          Apply();
        }
      }
    }
  }
}
