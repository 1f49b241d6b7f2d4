/**
 * The navigation bar of script.js (initNavigation, and the hero button of
 * initHeroAnimations): the mobile menu's "active" class with the toggle
 * icon's `fa-bars`/`fa-times` classes, closing the menu on a link click, and
 * the scroll target of an in-page link.
 */
module Navigation {
  import opened JsCore
  import opened PageLayout

  /** The toggle icon's two class tokens. */
  datatype Icon = Icon(bars: bool, times: bool)

  /** `icon.classList.replace('fa-bars', 'fa-times')`: no change when `fa-bars` is absent. */
  function BarsToTimes(icon: Icon): Icon
  {
    if icon.bars then Icon(false, true) else icon
  }

  /** `icon.classList.replace('fa-times', 'fa-bars')`: no change when `fa-times` is absent. */
  function TimesToBars(icon: Icon): Icon
  {
    if icon.times then Icon(true, false) else icon
  }

  /** The icon shows a cross exactly while the menu is open, and bars otherwise. */
  predicate Mirrors(menuActive: bool, icon: Icon) {
    icon == Icon(!menuActive, menuActive)
  }

  /** The icon after the toggle handler, given the menu's new state. */
  function ToggledIcon(menuNowActive: bool, icon: Icon): Icon {
    if menuNowActive then BarsToTimes(icon) else TimesToBars(icon)
  }

  /** Toggling keeps a mirroring icon mirroring. */
  lemma ToggleKeepsMirror(menuActive: bool, icon: Icon)
    requires Mirrors(menuActive, icon)
    ensures Mirrors(!menuActive, ToggledIcon(!menuActive, icon))
  {
  }

  /**
   * A link click closes the menu and leaves a mirroring icon, whatever the
   * state before, as long as the icon carries exactly one of its two tokens.
   */
  lemma LinkClickResynchronises(icon: Icon)
    requires icon.bars != icon.times
    ensures Mirrors(false, TimesToBars(icon))
  {
  }

  class NavMenu {
    /** The menu's "active" class. */
    var menuActive: bool
    /** The toggle icon's classes. */
    var icon: Icon

    constructor (initiallyActive: bool, initialIcon: Icon)
      ensures menuActive == initiallyActive && icon == initialIcon
    {
      menuActive, icon := initiallyActive, initialIcon;
    }

    /** The toggle button: flip the menu, then swap the icon to match the new state. */
    method Toggle()
      modifies this
      ensures menuActive == !old(menuActive)
      ensures icon == ToggledIcon(menuActive, old(icon))
      ensures Mirrors(old(menuActive), old(icon)) ==> Mirrors(menuActive, icon)
    {
      menuActive := !menuActive;
      if menuActive {
        icon := BarsToTimes(icon);
      } else {
        icon := TimesToBars(icon);
      }
      if Mirrors(old(menuActive), old(icon)) {
        ToggleKeepsMirror(old(menuActive), old(icon));
      }
    }

    /** A click on any navigation link: close the menu and show the bars icon. */
    method LinkClick()
      modifies this
      ensures !menuActive && icon == TimesToBars(old(icon))
      ensures old(icon.bars != icon.times) ==> Mirrors(menuActive, icon)
    {
      menuActive := false;
      icon := TimesToBars(icon);
    }
  }

  /** Whether a navigation link's click handler scrolls at all: its href starts with `#`. */
  predicate IsInPageLink(href: string) {
    |href| > 0 && href[0] == '#'
  }

  /** The id the link leads to: the "Book a Table" button and `#booking` lead to `contact`. */
  function DestinationId(href: string, isCta: bool): string
    requires IsInPageLink(href)
  {
    if isCta || href[1..] == "booking" then "contact" else href[1..]
  }

  /**
   * The vertical offset a navigation link scrolls to: its destination's
   * `offsetTop` minus the header height, or no scrolling when the href is
   * not in-page or the destination does not exist.
   */
  function LinkScrollTarget(href: string, isCta: bool, doc: seq<Element>, header: Option<nat>): Option<int> {
    if !IsInPageLink(href) then None
    else match FindElement(doc, DestinationId(href, isCta))
      case None => None
      case Some(e) => Some(e.offsetTop - HeaderHeightOrDefault(header))
  }

  /**
   * A link scrolls exactly when it is in-page and its destination exists, and
   * then it brings the destination's top to the header's lower edge.
   */
  lemma LinkScrollTargetSpec(href: string, isCta: bool, doc: seq<Element>, header: Option<nat>)
    ensures LinkScrollTarget(href, isCta, doc, header).Some? <==>
              IsInPageLink(href) && FindElement(doc, DestinationId(href, isCta)).Some?
    ensures LinkScrollTarget(href, isCta, doc, header).Some? ==>
              exists e :: e in doc && e.id == DestinationId(href, isCta) &&
                LinkScrollTarget(href, isCta, doc, header).value + HeaderHeightOrDefault(header) == e.offsetTop
  {
    if LinkScrollTarget(href, isCta, doc, header).Some? {
      var e := FindElement(doc, DestinationId(href, isCta)).value;
      assert e in doc;
    }
  }

  /** `#booking` and the "Book a Table" button behave like a link to `#contact`, even when a `booking` element exists. */
  lemma BookingLinksGoToContact(href: string, doc: seq<Element>, header: Option<nat>)
    requires IsInPageLink(href)
    ensures LinkScrollTarget("#booking", false, doc, header) == LinkScrollTarget("#contact", false, doc, header)
    ensures LinkScrollTarget(href, true, doc, header) == LinkScrollTarget("#contact", false, doc, header)
  {
    assert "#booking"[1..] == "booking";
    assert "#contact"[1..] == "contact";
  }

  /** The hero button: always to `contact`, with the `?.offsetHeight || 70` header rule. */
  function HeroCtaTarget(doc: seq<Element>, header: Option<nat>): (r: Option<int>)
    ensures r.Some? <==> FindElement(doc, "contact").Some?
    ensures r.Some? ==>
              exists e :: e in doc && e.id == "contact" && r.value + HeaderHeightOrDefaultIfZero(header) == e.offsetTop
  {
    match FindElement(doc, "contact")
    case None => None
    case Some(e) =>
      assert e in doc && e.id == "contact";
      Some(e.offsetTop - HeaderHeightOrDefaultIfZero(header))
  }

  /** The hero button and the "Book a Table" link reach the same offset unless the header has zero height. */
  lemma HeroMatchesBookingLink(href: string, doc: seq<Element>, header: Option<nat>)
    requires IsInPageLink(href) && header != Some(0)
    ensures HeroCtaTarget(doc, header) == LinkScrollTarget(href, true, doc, header)
  {
    HeaderFallbacksDiffer(header);
  }
}
