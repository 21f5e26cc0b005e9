/**
 * The light/dark theme switch of the personal page (script.js:23-68). The theme stored
 * under the "theme" key and the system's colour-scheme preference are inputs; the
 * "dark-mode" class on the root element, the toggle's aria-checked attribute and the
 * stored value are the state.
 */
module Theme {
  import opened Wrappers
  import opened Attributes

  const Dark: string := "dark"
  const Light: string := "light"

  /** JavaScript truthiness of a `localStorage.getItem` result: null and "" are falsy. */
  predicate Truthy(saved: Option<string>)
  {
    saved.Some? && saved.value != ""
  }

  /** The test `applyTheme` makes: exactly the string "dark" means dark mode. */
  predicate IsDark(theme: string)
  {
    theme == Dark
  }

  /** The theme chosen on page load (script.js:41-49): a truthy saved value as it is,
      otherwise the system preference. */
  function InitialTheme(saved: Option<string>, prefersDark: bool): (theme: string)
    ensures theme != ""
    ensures Truthy(saved) ==> theme == saved.value
    ensures !Truthy(saved) ==> (theme == Dark || theme == Light)
    ensures IsDark(theme) <==> if Truthy(saved) then saved.value == Dark else prefersDark
  {
    if Truthy(saved) then saved.value
    else if prefersDark then Dark
    else Light
  }

  /** The theme a click applies and stores, given whether dark mode was on (script.js:60-66). */
  function ClickedTheme(wasDark: bool): (theme: string)
    ensures theme == Dark || theme == Light
    ensures IsDark(theme) <==> !wasDark
  {
    if wasDark then Light else Dark
  }

  /** Two clicks bring the dark-mode flag back to where it started. */
  lemma ClickTwiceRestores(wasDark: bool)
    ensures IsDark(ClickedTheme(IsDark(ClickedTheme(wasDark)))) == wasDark
  {
  }

  class ThemeSwitch {
    /** Whether the root element carries the "dark-mode" class. */
    var darkMode: bool
    /** The toggle button's aria-checked attribute. */
    var ariaChecked: string
    /** The value under the "theme" key of local storage, None when absent. */
    var stored: Option<string>

    /** The button's aria-checked always mirrors the dark-mode flag. */
    ghost predicate Valid()
      reads this
    {
      ariaChecked == BoolText(darkMode)
    }

    /** Page load: apply the initial theme; storage is read, not written. */
    constructor (saved: Option<string>, prefersDark: bool)
      ensures Valid()
      ensures darkMode == IsDark(InitialTheme(saved, prefersDark))
      ensures stored == saved
    {
      darkMode := false;
      ariaChecked := "false";
      stored := saved;
      new;
      ApplyTheme(InitialTheme(saved, prefersDark));
    }

    /** `applyTheme` (script.js:30-38): any string other than "dark" gives light mode. */
    method ApplyTheme(theme: string)
      modifies this`darkMode, this`ariaChecked
      ensures Valid()
      ensures darkMode == IsDark(theme)
    {
      if theme == Dark {
        darkMode := true;
        ariaChecked := "true";
      } else {
        darkMode := false;
        ariaChecked := "false";
      }
    }

    /** The click handler (script.js:56-67): flip the mode and store the new theme. */
    method Click()
      modifies this
      ensures Valid()
      ensures darkMode == !old(darkMode)
      ensures stored == Some(ClickedTheme(old(darkMode)))
      ensures stored == Some(Dark) <==> darkMode
    {
      var isDarkMode := darkMode;
      if isDarkMode {
        ApplyTheme(Light);
        stored := Some(Light);
      } else {
        ApplyTheme(Dark);
        stored := Some(Dark);
      }
    }
  }

  /** Two clicks on the toggle restore the dark-mode flag and the aria-checked value; storage
      ends at the original mode's theme, whatever was saved before. */
  method ClickTwice(t: ThemeSwitch)
    requires t.Valid()
    modifies t
    ensures t.Valid()
    ensures t.darkMode == old(t.darkMode) && t.ariaChecked == old(t.ariaChecked)
    ensures t.stored == Some(if old(t.darkMode) then Dark else Light)
  {
    t.Click();
    t.Click();
  }
}
