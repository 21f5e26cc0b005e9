/**
 * The burger menu of the personal page (script.js:3-21): one click flips the button's
 * "is-active" class and the menu's "is-open" class and rewrites the button's
 * aria-expanded attribute.
 */
module Burger {
  import opened Wrappers
  import opened Attributes

  /** The aria-expanded value after a click, given the attribute before it (None when the
      attribute is absent): "true" exactly when it was not "true". */
  function ExpandedAfterClick(before: Option<string>): (after: string)
    ensures after == "true" <==> before != Some("true")
    ensures after == "true" || after == "false"
  {
    var isExpanded := before == Some("true");
    BoolText(!isExpanded)
  }

  /** From a well-formed attribute, two clicks give the original value back. */
  lemma ExpandedTwiceRestores(before: Option<string>)
    requires before == Some("true") || before == Some("false")
    ensures Some(ExpandedAfterClick(Some(ExpandedAfterClick(before)))) == before
  {
  }

  /** From an absent attribute, two clicks leave "false", not the absent attribute. */
  lemma ExpandedTwiceFromAbsent()
    ensures ExpandedAfterClick(Some(ExpandedAfterClick(None))) == "false"
  {
  }

  class BurgerMenu {
    /** Whether the burger button carries "is-active". */
    var buttonActive: bool
    /** Whether the navigation menu carries "is-open". */
    var menuOpen: bool
    /** The button's aria-expanded attribute, None when absent. */
    var ariaExpanded: Option<string>

    /** The state the markup starts the page with. */
    constructor (active: bool, open: bool, expanded: Option<string>)
      ensures buttonActive == active && menuOpen == open && ariaExpanded == expanded
    {
      buttonActive, menuOpen, ariaExpanded := active, open, expanded;
    }

    /** The click handler (script.js:10-20). */
    method Click()
      modifies this
      ensures buttonActive == !old(buttonActive)
      ensures menuOpen == !old(menuOpen)
      ensures ariaExpanded == Some(ExpandedAfterClick(old(ariaExpanded)))
    {
      buttonActive := !buttonActive;
      menuOpen := !menuOpen;
      var isExpanded := ariaExpanded == Some("true");
      ariaExpanded := Some(BoolText(!isExpanded));
    }
  }

  /** Two clicks restore all three pieces of state when aria-expanded starts well-formed. */
  method ClickTwice(m: BurgerMenu)
    requires m.ariaExpanded == Some("true") || m.ariaExpanded == Some("false")
    modifies m
    ensures m.buttonActive == old(m.buttonActive)
    ensures m.menuOpen == old(m.menuOpen)
    ensures m.ariaExpanded == old(m.ariaExpanded)
  {
    m.Click();
    m.Click();
  }
}
