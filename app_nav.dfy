/**
 * The navigation of app.js: the mobile menu and its toggle button carry an
 * "active" class each, flipped together by the toggle and cleared together
 * by a click on any `.nav-link`; the same click scrolls to the section named
 * by the link's href without its first character.
 */
module AppNavigation {
  import opened JsCore
  import opened PageLayout

  class NavPair {
    /** `navMenu`'s "active" class. */
    var menuActive: bool
    /** `navToggle`'s "active" class. */
    var toggleActive: bool

    constructor (menu: bool, toggle: bool)
      ensures menuActive == menu && toggleActive == toggle
    {
      menuActive, toggleActive := menu, toggle;
    }

    /** Menu and button show the same state. */
    predicate InStep()
      reads this
    {
      menuActive == toggleActive
    }

    /** The toggle's click handler: `classList.toggle('active')` on both. */
    method Toggle()
      modifies this
      ensures menuActive == !old(menuActive) && toggleActive == !old(toggleActive)
      ensures old(InStep()) ==> InStep()
    {
      menuActive := !menuActive;
      toggleActive := !toggleActive;
    }

    /** A link's closing handler: `classList.remove('active')` on both. */
    method CloseMenu()
      modifies this
      ensures !menuActive && !toggleActive
      ensures InStep()
    {
      menuActive := false;
      toggleActive := false;
    }
  }

  /** What a scroll request does. */
  datatype ScrollOutcome =
    | NoScroll
    | ScrollTo(top: int)
    /** `document.querySelector('.header').offsetHeight` read on a missing header. */
    | TypeError

  /**
   * `scrollToSection(sectionId)`: nothing for an id no element carries; for an
   * existing section the header's height is read without a fallback.
   */
  function ScrollToSection(doc: seq<Element>, sectionId: string, header: Option<nat>): ScrollOutcome {
    match FindElement(doc, sectionId)
    case None => NoScroll
    case Some(section) =>
      match header
      case None => TypeError
      case Some(height) => ScrollTo(section.offsetTop - height)
  }

  /**
   * An existing section is scrolled to so that its top meets the header's
   * lower edge; an unknown or empty id scrolls nowhere; only a page without a
   * header makes the handler throw.
   */
  lemma ScrollToSectionSpec(doc: seq<Element>, sectionId: string, header: Option<nat>)
    ensures ScrollToSection(doc, sectionId, header) == NoScroll <==>
              sectionId == "" || forall i :: 0 <= i < |doc| ==> doc[i].id != sectionId
    ensures ScrollToSection(doc, sectionId, header) == TypeError <==>
              FindElement(doc, sectionId).Some? && header.None?
    ensures ScrollToSection(doc, sectionId, header).ScrollTo? ==>
              header.Some? &&
              exists e :: e in doc && e.id == sectionId &&
                ScrollToSection(doc, sectionId, header).top + header.value == e.offsetTop
  {
    if ScrollToSection(doc, sectionId, header).ScrollTo? {
      var e := FindElement(doc, sectionId).value;
      assert e in doc && e.id == sectionId;
    }
  }

  /** `s.substring(1)`: everything after the first character; "" for the empty string. */
  function SubstringFrom1(s: string): (r: string)
    ensures |s| > 0 ==> s == [s[0]] + r
    ensures |s| == 0 ==> r == ""
  {
    if |s| == 0 then "" else s[1..]
  }

  /**
   * The scrolling handler of a `.nav-link`: the href without its first
   * character names the section; a link without an href attribute
   * (`getAttribute` gives null) makes `substring` throw.
   */
  function NavLinkScroll(href: Option<string>, doc: seq<Element>, header: Option<nat>): ScrollOutcome {
    match href
    case None => TypeError
    case Some(h) => ScrollToSection(doc, SubstringFrom1(h), header)
  }

  /** A link `#id` scrolls exactly like `scrollToSection(id)`. */
  lemma HashLinkScrollsToId(id: string, doc: seq<Element>, header: Option<nat>)
    ensures NavLinkScroll(Some("#" + id), doc, header) == ScrollToSection(doc, id, header)
  {
    assert SubstringFrom1("#" + id) == id;
  }

  /**
   * The first character is dropped whatever it is, so `#` and an empty href
   * both ask for the empty id and scroll nowhere.
   */
  lemma BareHashScrollsNowhere(doc: seq<Element>, header: Option<nat>)
    ensures NavLinkScroll(Some("#"), doc, header) == NoScroll
    ensures NavLinkScroll(Some(""), doc, header) == NoScroll
  {
    assert SubstringFrom1("#") == "";
  }

  /** Both handlers of a nav link, in the order they were registered. */
  method NavLinkClick(nav: NavPair, href: Option<string>, doc: seq<Element>, header: Option<nat>)
    returns (outcome: ScrollOutcome)
    modifies nav
    ensures !nav.menuActive && !nav.toggleActive
    ensures outcome == NavLinkScroll(href, doc, header)
  {
    nav.CloseMenu();
    outcome := NavLinkScroll(href, doc, header);
  }
}
