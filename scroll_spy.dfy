/**
 * Active navigation link highlighting (script.js, highlightNavigation): every
 * section whose range [top - h - 100, top - h - 100 + height) contains the
 * scroll offset rewrites all link flags, marking the links whose href is
 * `#` followed by that section's id. Sections are visited in document order,
 * so the last matching section decides; with no match the flags stay as they
 * were.
 */
module ScrollSpy {
  import opened JsCore
  import opened PageLayout

  datatype Section = Section(id: string, offsetTop: int, offsetHeight: nat)

  /** `scrollY >= sectionTop && scrollY < sectionTop + sectionHeight` with `sectionTop = offsetTop - h - 100`. */
  predicate InRange(s: Section, scrollY: int, headerHeight: int) {
    var top := s.offsetTop - headerHeight - 100;
    top <= scrollY < top + s.offsetHeight
  }

  /** The last section, in document order, whose range contains the scroll offset. */
  function LastMatch(sections: seq<Section>, scrollY: int, headerHeight: int): (r: Option<nat>)
    ensures r.Some? ==> r.value < |sections| && InRange(sections[r.value], scrollY, headerHeight)
    ensures r.Some? ==> forall j :: r.value < j < |sections| ==> !InRange(sections[j], scrollY, headerHeight)
    ensures r.None? ==> forall j :: 0 <= j < |sections| ==> !InRange(sections[j], scrollY, headerHeight)
  {
    if sections == [] then None
    else if InRange(sections[|sections| - 1], scrollY, headerHeight) then Some(|sections| - 1)
    else LastMatch(sections[..|sections| - 1], scrollY, headerHeight)
  }

  /** The first section, in document order, whose range contains the scroll offset. */
  function FirstMatch(sections: seq<Section>, scrollY: int, headerHeight: int): (r: Option<nat>)
    ensures r.Some? ==> r.value < |sections| && InRange(sections[r.value], scrollY, headerHeight)
    ensures r.Some? ==> forall j :: 0 <= j < r.value ==> !InRange(sections[j], scrollY, headerHeight)
    ensures r.None? ==> forall j :: 0 <= j < |sections| ==> !InRange(sections[j], scrollY, headerHeight)
  {
    if sections == [] then None
    else if InRange(sections[0], scrollY, headerHeight) then Some(0)
    else match FirstMatch(sections[1..], scrollY, headerHeight)
      case None => None
      case Some(k) => Some(k + 1)
  }

  /**
   * Last-match and first-match selection differ only when two ranges contain
   * the offset at once: when no two do, they pick the same section.
   */
  lemma LastMatchIsFirstWhenDisjoint(sections: seq<Section>, scrollY: int, headerHeight: int)
    requires forall i, j :: 0 <= i < j < |sections| ==>
               !(InRange(sections[i], scrollY, headerHeight) && InRange(sections[j], scrollY, headerHeight))
    ensures LastMatch(sections, scrollY, headerHeight) == FirstMatch(sections, scrollY, headerHeight)
  {
    var last := LastMatch(sections, scrollY, headerHeight);
    var first := FirstMatch(sections, scrollY, headerHeight);
    if last.Some? {
      assert first.Some?;
    }
  }

  /** A link is marked for section s exactly when its href is `#` + s's id. */
  predicate MarksSection(href: string, s: Section) {
    href == "#" + s.id
  }

  class NavLinks {
    /** The "active" class of each `.nav__link[href^="#"]`. */
    var active: array<bool>
    /** Their `href` attributes. */
    const hrefs: seq<string>

    constructor (initial: seq<bool>, linkHrefs: seq<string>)
      requires |initial| == |linkHrefs|
      ensures fresh(active) && active[..] == initial && hrefs == linkHrefs
    {
      active := new bool[|initial|](i requires 0 <= i < |initial| => initial[i]);
      hrefs := linkHrefs;
    }

    /** The inner `navLinks.forEach`: clear every link, then mark the ones pointing at s. */
    method MarkLinksFor(s: Section)
      requires |hrefs| == active.Length
      modifies active
      ensures forall i :: 0 <= i < active.Length ==> active[i] == MarksSection(hrefs[i], s)
    {
      var i := 0;
      while i < active.Length
        invariant 0 <= i <= active.Length
        invariant forall t :: 0 <= t < i ==> active[t] == MarksSection(hrefs[t], s)
      {
        active[i] := false;
        if hrefs[i] == "#" + s.id {
          active[i] := true;
        }
        i := i + 1;
      }
    }

    /**
     * One run of `highlightNavigation`: if some section's range contains the
     * scroll offset, the links marked are exactly those of the last such
     * section; otherwise no flag changes.
     */
    method HighlightNavigation(scrollY: int, header: Option<nat>, sections: seq<Section>)
      requires |hrefs| == active.Length
      modifies active
      ensures match LastMatch(sections, scrollY, HeaderHeightOrDefaultIfZero(header))
              case None => active[..] == old(active[..])
              case Some(k) => forall i :: 0 <= i < active.Length ==> active[i] == MarksSection(hrefs[i], sections[k])
    {
      var h := HeaderHeightOrDefaultIfZero(header);
      var n := 0;
      while n < |sections|
        invariant 0 <= n <= |sections|
        invariant match LastMatch(sections[..n], scrollY, h)
                  case None => active[..] == old(active[..])
                  case Some(k) => k < n && forall i :: 0 <= i < active.Length ==> active[i] == MarksSection(hrefs[i], sections[k])
      {
        assert sections[..n + 1][..n] == sections[..n];
        if sections[n].offsetTop - h - 100 <= scrollY < sections[n].offsetTop - h - 100 + sections[n].offsetHeight {
          MarkLinksFor(sections[n]);
        }
        n := n + 1;
      }
      assert sections[..n] == sections;
    }
  }
}
