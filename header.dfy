/** The site header (src/components/organisms/Header.tsx): the logo's
    accessible label, the five navigation items and which one is active,
    the mobile-menu state its handlers change, and when the bar's
    background turns opaque. window.scrollY is a parameter of each scroll
    event and the header's DOM containment test is a boolean of each
    mousedown. The scrolling itself (useScrollSection) is a returned target. */
module Header {
  import opened Text

  const DefaultLogoLabel := "Portfolio Logo"

  /** The label is the trimmed name and " Logo" when the trimmed name is
      non-empty, and 'Portfolio Logo' otherwise. */
  function LogoLabel(name: string): (r: string)
    ensures Trim(name) != [] ==> r == Trim(name) + " Logo"
    ensures Trim(name) == [] ==> r == DefaultLogoLabel
  {
    var trimmed := Trim(name);
    if trimmed != [] then trimmed + " Logo" else DefaultLogoLabel
  }

  /** Every label ends in " Logo", and a name of whitespace only gets the
      default. */
  lemma LogoLabelShape(name: string)
    ensures var r := LogoLabel(name); |r| >= 5 && r[|r| - 5..] == " Logo"
    ensures (forall i :: 0 <= i < |name| ==> IsSpace(name[i])) ==> LogoLabel(name) == DefaultLogoLabel
  {
    TrimEmptyIff(name);
    var r := LogoLabel(name);
    if Trim(name) != [] {
      assert r[|r| - 5..] == " Logo";
    } else {
      assert r == "Portfolio Logo";
    }
  }

  /** useScrollEffect's threshold. */
  const ScrollThreshold: real := 50.0

  /** isScrolled: the page has scrolled strictly past the threshold. */
  predicate IsScrolled(scrollY: real) {
    scrollY > ScrollThreshold
  }

  /** The navigation items' ids, in menu order. */
  const NavIds: seq<string> := ["home", "projects", "skills", "experience", "contact"]

  lemma NavIdsDistinct()
    ensures |NavIds| == 5
    ensures forall a, b :: 0 <= a < b < |NavIds| ==> NavIds[a] != NavIds[b]
  {
  }

  /** The isActive flag of each item: activeSection === item.id. */
  function ActiveFlags(activeSection: string): (flags: seq<bool>)
    ensures |flags| == |NavIds|
  {
    seq(|NavIds|, k requires 0 <= k < |NavIds| => NavIds[k] == activeSection)
  }

  /** When the active section is one of the ids, exactly the item with that
      id is active; any other value marks no item. */
  lemma ExactlyOneActive(activeSection: string)
    ensures var flags := ActiveFlags(activeSection);
            && (activeSection in NavIds ==>
                  exists k :: 0 <= k < |flags| && flags[k] && NavIds[k] == activeSection &&
                    forall m :: 0 <= m < |flags| && m != k ==> !flags[m])
            && (activeSection !in NavIds ==> forall m :: 0 <= m < |flags| ==> !flags[m])
  {
    var flags := ActiveFlags(activeSection);
    if activeSection in NavIds {
      var k :| 0 <= k < |NavIds| && NavIds[k] == activeSection;
      NavIdsDistinct();
      assert flags[k];
      forall m | 0 <= m < |flags| && m != k ensures !flags[m] {
        if m < k {
          assert NavIds[m] != NavIds[k];
        } else {
          assert NavIds[k] != NavIds[m];
        }
      }
    }
  }

  /** The bar's background: opaque once scrolled or while the mobile menu
      is open, transparent otherwise. */
  predicate Opaque(isScrolled: bool, menuOpen: bool) {
    isScrolled || menuOpen
  }

  /** The header's isScrolled and isMobileMenuOpen cells. */
  class HeaderState {
    var isScrolled: bool
    var isMobileMenuOpen: bool

    /** Mounting: the menu starts closed and useScrollEffect reads the
        current scroll position once. */
    constructor (scrollY: real)
      ensures isScrolled == IsScrolled(scrollY) && !isMobileMenuOpen
    {
      isScrolled := scrollY > ScrollThreshold;
      isMobileMenuOpen := false;
    }

    /** The bar's background in the current state. */
    function Background(): (solid: bool)
      reads this
      ensures isMobileMenuOpen ==> solid
      ensures solid <==> Opaque(isScrolled, isMobileMenuOpen)
    {
      isScrolled || isMobileMenuOpen
    }

    /** The hamburger button, through useToggle: flip the menu. */
    method Toggle()
      modifies this
      ensures isMobileMenuOpen == !old(isMobileMenuOpen) && isScrolled == old(isScrolled)
    {
      isMobileMenuOpen := !isMobileMenuOpen;
    }

    /** A document mousedown: it closes an open menu when the header's ref
        is attached and the target lies outside it, and changes nothing
        otherwise. */
    method MouseDown(refAttached: bool, insideHeader: bool)
      modifies this
      ensures old(isMobileMenuOpen) && refAttached && !insideHeader ==> !isMobileMenuOpen
      ensures !(old(isMobileMenuOpen) && refAttached && !insideHeader) ==>
                isMobileMenuOpen == old(isMobileMenuOpen)
      ensures isScrolled == old(isScrolled)
    {
      if isMobileMenuOpen && refAttached && !insideHeader {
        isMobileMenuOpen := false;
      }
    }

    /** A window scroll: useScrollEffect re-reads the position and the
        header's own listener closes the menu if it is open. */
    method Scroll(scrollY: real)
      modifies this
      ensures !isMobileMenuOpen
      ensures isScrolled == IsScrolled(scrollY)
      ensures Background() <==> IsScrolled(scrollY)
    {
      isScrolled := scrollY > ScrollThreshold;
      if isMobileMenuOpen {
        isMobileMenuOpen := false;
      }
    }

    /** handleDesktopNavigationClick: scroll to the section, menu untouched. */
    method DesktopNavigate(sectionId: string) returns (scrollTo: string)
      modifies this
      ensures scrollTo == sectionId
      ensures isMobileMenuOpen == old(isMobileMenuOpen) && isScrolled == old(isScrolled)
    {
      scrollTo := sectionId;
    }

    /** handleMobileNavigationClick: close the menu, then scroll to the
        section from a 1 ms timer; the returned id is that timer's target. */
    method MobileNavigate(sectionId: string) returns (scheduledScroll: string)
      modifies this
      ensures !isMobileMenuOpen && isScrolled == old(isScrolled)
      ensures scheduledScroll == sectionId
    {
      isMobileMenuOpen := false;
      scheduledScroll := sectionId;
    }
  }
}
