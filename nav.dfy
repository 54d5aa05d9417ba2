/**
  The mobile navigation toggle (scripts.js, "MOBILE NAVIGATION"): a two-state
  menu, closed or open, whose toggle button's `aria-expanded` attribute
  reports the state.
 */
module Nav {

  /** `String(b)` for a boolean: "true" or "false". */
  function BoolText(b: bool): string {
    if b then "true" else "false"
  }

  class NavToggle {
    /** Both `.nav-toggle` and `#primary-nav` exist, so the click listeners were attached. */
    const bound: bool
    /** `#primary-nav` carries the `open` class. */
    var open: bool
    /** The toggle button's `aria-expanded` attribute. */
    var ariaExpanded: string

    /** The attribute says what the menu is. */
    ghost predicate Reflects()
      reads this
    {
      ariaExpanded == BoolText(open)
    }

    /** The page as loaded: its markup decides the initial class and attribute. */
    constructor (bound: bool, open: bool, ariaExpanded: string)
      ensures this.bound == bound && this.open == open && this.ariaExpanded == ariaExpanded
    {
      this.bound, this.open, this.ariaExpanded := bound, open, ariaExpanded;
    }

    /** A click on the toggle flips the menu and sets the attribute to the new state. */
    method ClickToggle()
      modifies this
      ensures bound ==> open == !old(open) && Reflects()
      ensures !bound ==> open == old(open) && ariaExpanded == old(ariaExpanded)
    {
      if bound {
        open := !open;
        ariaExpanded := BoolText(open);
      }
    }

    /** A click on any link of the menu closes it from either state. */
    method ClickLink()
      modifies this
      ensures bound ==> !open && ariaExpanded == "false" && Reflects()
      ensures !bound ==> open == old(open) && ariaExpanded == old(ariaExpanded)
    {
      if bound {
        open := false;
        ariaExpanded := "false";
      }
    }
  }

  /** Two clicks on the toggle bring a bound menu back to where it was, with the attribute in step. */
  method ToggleTwice(nav: NavToggle)
    requires nav.bound
    modifies nav
    ensures nav.open == old(nav.open) && nav.Reflects()
  {
    nav.ClickToggle();
    nav.ClickToggle();
  }
}
