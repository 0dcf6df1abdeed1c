/**
 * The navigation bar: whether the page has scrolled past the top, and whether the mobile
 * menu is open. The smooth scrolling itself is a browser call and is not modelled.
 */
module Navbar {

  /** Scroll offset, in pixels, past which the bar turns opaque. */
  const ScrollThreshold: real := 50.0

  class Navbar {
    var isScrolled: bool
    var isMobileMenuOpen: bool

    constructor ()
      ensures !isScrolled && !isMobileMenuOpen
    {
      isScrolled, isMobileMenuOpen := false, false;
    }

    /** handleScroll: scrolled exactly when the offset is strictly beyond the threshold. */
    method HandleScroll(scrollY: real)
      modifies this`isScrolled
      ensures isScrolled <==> scrollY > ScrollThreshold
    {
      isScrolled := scrollY > ScrollThreshold;
    }

    /** scrollToSection: scrolls to the target (not modelled) and closes the menu. */
    method ScrollToSection(href: string)
      modifies this`isMobileMenuOpen
      ensures !isMobileMenuOpen
    {
      isMobileMenuOpen := false;
    }

    /** The menu button flips the menu. */
    method ToggleMenu()
      modifies this`isMobileMenuOpen
      ensures isMobileMenuOpen == !old(isMobileMenuOpen)
    {
      isMobileMenuOpen := !isMobileMenuOpen;
    }
  }

  /** Two presses of the menu button leave the bar as it was. */
  method ToggleTwice(nav: Navbar)
    modifies nav
    ensures nav.isMobileMenuOpen == old(nav.isMobileMenuOpen) && nav.isScrolled == old(nav.isScrolled)
  {
    nav.ToggleMenu();
    nav.ToggleMenu();
  }
}
