/**
 * The reviews carousel (script.js, initReviewsSlider): N review cards with a
 * parallel row of dots, an index `currentReview`, wrap-around next/previous
 * navigation, direct jumps from the dots, and a repeating auto-advance
 * interval that hovering pauses.
 */
module Carousel {
  import opened JsCore

  // ---------------------------------------------------------------------
  // Index arithmetic
  // ---------------------------------------------------------------------

  /** `(currentReview + 1) % reviewCards.length` */
  function NextIndex(current: Num, n: nat): Num {
    Rem(AddInt(current, 1), Int(n))
  }

  /** `(currentReview - 1 + reviewCards.length) % reviewCards.length` */
  function PrevIndex(current: Num, n: nat): Num {
    Rem(AddInt(AddInt(current, -1), n), Int(n))
  }

  /** Moving forward wraps from the last card to the first and stays in range. */
  lemma NextWraps(i: int, n: nat)
    requires 0 <= i < n
    ensures NextIndex(Int(i), n) == Int(if i + 1 == n then 0 else i + 1)
  {
  }

  /** Moving back wraps from the first card to the last and stays in range. */
  lemma PrevWraps(i: int, n: nat)
    requires 0 <= i < n
    ensures PrevIndex(Int(i), n) == Int(if i == 0 then n - 1 else i - 1)
  {
  }

  /** Previous undoes next and next undoes previous. */
  lemma PrevNextInverse(i: int, n: nat)
    requires 0 <= i < n
    ensures PrevIndex(NextIndex(Int(i), n), n) == Int(i)
    ensures NextIndex(PrevIndex(Int(i), n), n) == Int(i)
  {
    NextWraps(i, n);
    PrevWraps(i, n);
    var k := if i + 1 == n then 0 else i + 1;
    PrevWraps(k, n);
    var m := if i == 0 then n - 1 else i - 1;
    NextWraps(m, n);
  }

  /** `k` steps of next-navigation. */
  function Advance(current: Num, n: nat, k: nat): Num {
    if k == 0 then current else NextIndex(Advance(current, n, k - 1), n)
  }

  /** After k steps from card i the carousel shows card (i + k) mod n. */
  lemma {:induction false} AdvanceIsModular(i: int, n: nat, k: nat)
    requires 0 <= i < n
    ensures Advance(Int(i), n, k) == Int((i + k) % n)
  {
    if k == 0 {
      ModUnique(i, n, 0, i);
    } else {
      AdvanceIsModular(i, n, k - 1);
      var j := (i + k - 1) % n;
      NextWraps(j, n);
      assert (i + k) % n == if j + 1 == n then 0 else j + 1 by {
        ModSuccessor(i + k - 1, n);
      }
    }
  }

  /** The remainder is determined by any quotient-remainder decomposition. */
  lemma ModUnique(a: int, n: int, q: int, r: int)
    requires n > 0 && 0 <= r < n && a == q * n + r
    ensures a % n == r
  {
    var d := q - a / n;
    assert d * n == a % n - r;
  }

  lemma ModSuccessor(x: nat, n: nat)
    requires n > 0
    ensures (x + 1) % n == if x % n + 1 == n then 0 else x % n + 1
  {
    var q, r := x / n, x % n;
    if r + 1 == n {
      ModUnique(x + 1, n, q + 1, 0);
    } else {
      ModUnique(x + 1, n, q, r + 1);
    }
  }

  /** n steps around a carousel of n cards return to the starting card. */
  lemma FullCircle(i: int, n: nat)
    requires 0 <= i < n
    ensures Advance(Int(i), n, n) == Int(i)
  {
    AdvanceIsModular(i, n, n);
    ModUnique(i + n, n, 1, i);
  }

  /** With no cards the arithmetic yields NaN, which selects no card. */
  lemma EmptyCarouselIsNaN(current: Num)
    ensures NextIndex(current, 0) == NaN && PrevIndex(current, 0) == NaN
  {
  }

  // ---------------------------------------------------------------------
  // Auto-advance intervals
  // ---------------------------------------------------------------------

  /**
   * The repeating intervals at work: how many are live, and whether the one
   * whose handle `autoSlideInterval` holds is still live (clearInterval can
   * only stop that one).
   */
  datatype Timers = Timers(live: nat, handleLive: bool) {
    ghost predicate WellFormed() { handleLive ==> live >= 1 }
    /** The design's intent: one timer at most, and it is the one the handle names. */
    ghost predicate Single() { live == if handleLive then 1 else 0 }
  }

  const NoTimers := Timers(0, false)

  /**
   * `autoSlideInterval = setInterval(nextReview, 4000)`: the old handle is
   * overwritten, so starting from no interval gives the single one the
   * handle names, while starting over a running interval leaves more than one.
   */
  function StartInterval(t: Timers): (r: Timers)
    requires t.WellFormed()
    ensures r.WellFormed() && r.handleLive
    ensures r.Single() <==> t.live == 0
  {
    Timers(t.live + 1, true)
  }

  /**
   * `clearInterval(autoSlideInterval)`: stops the interval the handle names,
   * if it is still running, and no other; clearing the single interval
   * leaves none.
   */
  function ClearInterval(t: Timers): (r: Timers)
    requires t.WellFormed()
    ensures r.WellFormed() && !r.handleLive
    ensures r.live <= t.live <= r.live + 1
    ensures t.Single() ==> r == NoTimers
  {
    Timers(if t.handleLive then t.live - 1 else t.live, false)
  }

  /** `resetAutoSlide`: clear, then start. */
  function ResetAutoSlide(t: Timers): (r: Timers)
    requires t.WellFormed()
    ensures r.WellFormed() && r.handleLive
    ensures t.Single() ==> r.Single()
  {
    StartInterval(ClearInterval(t))
  }

  /**
   * The mouseleave handler as the code registers it (`startAutoSlide`, with
   * no clear first): after a button click while the pointer rests on the
   * slider, leaving the slider leaves two intervals running, one of which no
   * handle can stop any more.
   */
  lemma MouseLeaveLeaksInterval(t: Timers)
    requires t.Single() && t.handleLive
    ensures StartInterval(ResetAutoSlide(ClearInterval(t))).live == 2
    ensures !StartInterval(ResetAutoSlide(ClearInterval(t))).Single()
  {
  }

  /**
   * The mouseleave handler corrected: clear before starting, so that the
   * carousel never owns more than one interval.
   */
  function ResumeAutoSlide(t: Timers): (r: Timers)
    requires t.WellFormed()
    ensures r.WellFormed() && r.handleLive
    ensures t.Single() ==> r.Single() && r.live == 1
  {
    ResetAutoSlide(t)
  }

  /** Hover, click, leave with the corrected handler keeps exactly one interval. */
  lemma ResumeKeepsOneInterval(t: Timers)
    requires t.Single()
    ensures ResumeAutoSlide(ResetAutoSlide(ClearInterval(t))).live == 1
  {
  }

  /** Auto-advance is started at initialisation only when there are at least two cards. */
  function InitialTimers(n: nat): (r: Timers)
    ensures r.Single()
    ensures r.live == 1 <==> n > 1
  {
    if n > 1 then StartInterval(NoTimers) else NoTimers
  }

  // ---------------------------------------------------------------------
  // The slider and its class lists
  // ---------------------------------------------------------------------

  class ReviewsSlider {
    /** The "active" class of each review card, in document order. */
    var cards: array<bool>
    /** The "active" class of each dot (none when there is no dots container). */
    var dots: array<bool>
    /** `currentReview` */
    var current: Num
    var timers: Timers

    ghost predicate Valid()
      reads this
    {
      cards != dots &&
      (dots.Length == 0 || dots.Length == cards.Length) &&
      (cards.Length > 0 ==> current.Int? && 0 <= current.v < cards.Length) &&
      timers.Single()
    }

    /** Card j and dot j are active exactly when i is j. */
    ghost predicate Shows(i: Num)
      reads this, cards, dots
    {
      (forall j :: 0 <= j < cards.Length ==> cards[j] == (i == Int(j))) &&
      (forall j :: 0 <= j < dots.Length ==> dots[j] == (i == Int(j)))
    }

    /**
     * Initialisation: the cards keep the classes the page gave them; a dot
     * per card is created, the first one active, when there is a dots
     * container and at least one card; auto-advance starts only for N > 1.
     */
    constructor (initialCards: seq<bool>, hasDotsContainer: bool)
      ensures Valid() && fresh(cards) && fresh(dots)
      ensures cards[..] == initialCards && current == Int(0)
      ensures dots.Length == if hasDotsContainer && |initialCards| > 0 then |initialCards| else 0
      ensures forall j :: 0 <= j < dots.Length ==> dots[j] == (j == 0)
      ensures timers == InitialTimers(|initialCards|)
    {
      var n := |initialCards|;
      cards := new bool[n](i requires 0 <= i < n => initialCards[i]);
      dots := new bool[if hasDotsContainer && n > 0 then n else 0](j => j == 0);
      current := Int(0);
      timers := InitialTimers(n);
    }

    /** `showReview(index)`: deactivate everything, then activate card and dot `index` where they exist. */
    method ShowReview(index: Num)
      requires cards != dots
      modifies cards, dots, this`current
      ensures Shows(index) && current == index
    {
      var j := 0;
      while j < cards.Length
        invariant 0 <= j <= cards.Length
        invariant forall k :: 0 <= k < j ==> !cards[k]
        modifies cards
      {
        cards[j] := false;
        j := j + 1;
      }
      j := 0;
      while j < dots.Length
        invariant 0 <= j <= dots.Length
        invariant forall k :: 0 <= k < j ==> !dots[k]
        modifies dots
      {
        dots[j] := false;
        j := j + 1;
      }
      if index.Int? && 0 <= index.v < cards.Length {
        cards[index.v] := true;
      }
      if index.Int? && 0 <= index.v < dots.Length {
        dots[index.v] := true;
      }
      current := index;
    }

    /** `nextReview` */
    method NextReview()
      requires Valid()
      modifies cards, dots, this`current
      ensures Valid()
      ensures current == NextIndex(old(current), cards.Length) && Shows(current)
    {
      var n := cards.Length;
      if n > 0 {
        NextWraps(current.v, n);
      }
      ShowReview(NextIndex(current, n));
    }

    /** `prevReview` */
    method PrevReview()
      requires Valid()
      modifies cards, dots, this`current
      ensures Valid()
      ensures current == PrevIndex(old(current), cards.Length) && Shows(current)
    {
      var n := cards.Length;
      if n > 0 {
        PrevWraps(current.v, n);
      }
      ShowReview(PrevIndex(current, n));
    }

    /** The next button: `nextReview(); resetAutoSlide();` */
    method ClickNext()
      requires Valid()
      modifies this, cards, dots
      ensures Valid() && cards == old(cards) && dots == old(dots)
      ensures current == NextIndex(old(current), cards.Length) && Shows(current)
      ensures timers == ResetAutoSlide(old(timers))
    {
      NextReview();
      timers := ResetAutoSlide(timers);
    }

    /** The previous button: `prevReview(); resetAutoSlide();` */
    method ClickPrev()
      requires Valid()
      modifies this, cards, dots
      ensures Valid() && cards == old(cards) && dots == old(dots)
      ensures current == PrevIndex(old(current), cards.Length) && Shows(current)
      ensures timers == ResetAutoSlide(old(timers))
    {
      PrevReview();
      timers := ResetAutoSlide(timers);
    }

    /** Dot k: `goToReview(k)`, i.e. `showReview(k); resetAutoSlide();` */
    method ClickDot(k: nat)
      requires Valid() && k < dots.Length
      modifies this, cards, dots
      ensures Valid() && cards == old(cards) && dots == old(dots)
      ensures current == Int(k) && Shows(current)
      ensures timers == ResetAutoSlide(old(timers))
    {
      ShowReview(Int(k));
      timers := ResetAutoSlide(timers);
    }

    /** One firing of a live auto-advance interval: `nextReview`. */
    method AutoAdvance()
      requires Valid() && timers.live > 0
      modifies cards, dots, this`current
      ensures Valid()
      ensures current == NextIndex(old(current), cards.Length) && Shows(current)
    {
      NextReview();
    }

    /** mouseenter on the slider: `clearInterval(autoSlideInterval)`. */
    method MouseEnter()
      requires Valid()
      modifies this`timers
      ensures Valid() && timers == ClearInterval(old(timers)) && timers.live == 0
    {
      timers := ClearInterval(timers);
    }

    /** mouseleave on the slider, corrected to clear before it starts (see MouseLeaveLeaksInterval). */
    method MouseLeave()
      requires Valid()
      modifies this`timers
      ensures Valid() && timers == ResumeAutoSlide(old(timers)) && timers.live == 1
    {
      timers := ResumeAutoSlide(timers);
    }
  }
}
