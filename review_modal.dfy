/**
 * The "write a review" modal and its star rating (script.js, initModal): the
 * modal's "active" class, the body's scroll lock (`overflow: hidden`), the
 * `selectedRating` chosen by clicking a star, the stars' "active" classes,
 * and the gold/grey colouring the hover handlers give the stars.
 */
module ReviewModal {

  const Hidden := "hidden"

  /** Stars 0 .. count-1 are on and the rest are off. */
  ghost predicate IsPrefix(flags: seq<bool>, count: nat) {
    forall i :: 0 <= i < |flags| ==> flags[i] == (i < count)
  }

  /** The rating a prefix-shaped star row shows is the number of lit stars. */
  function LitCount(flags: seq<bool>): (c: nat)
    ensures c <= |flags|
  {
    if flags == [] then 0 else LitCount(flags[..|flags| - 1]) + if flags[|flags| - 1] then 1 else 0
  }

  /** A prefix-shaped star row determines the rating it shows. */
  lemma {:induction false} PrefixCount(flags: seq<bool>, count: nat)
    requires IsPrefix(flags, count) && count <= |flags|
    ensures LitCount(flags) == count
  {
    if flags != [] {
      var init := flags[..|flags| - 1];
      if count == |flags| {
        PrefixCount(init, count - 1);
      } else {
        PrefixCount(init, count);
      }
    }
  }

  class ReviewModal {
    /** Whether the page has the modal element and the button that opens it. */
    const hasModal: bool
    const hasOpenButton: bool
    /** The modal's "active" class. */
    var active: bool
    /** `document.body.style.overflow` */
    var overflow: string
    /** `selectedRating` */
    var selectedRating: nat
    /** The "active" class of each star. */
    var stars: array<bool>
    /** Whether each star is coloured gold (otherwise grey) by the hover handlers. */
    var gold: array<bool>

    ghost predicate Valid()
      reads this, stars
    {
      stars != gold && stars.Length == gold.Length &&
      selectedRating <= stars.Length && IsPrefix(stars[..], selectedRating)
    }

    constructor (modalPresent: bool, openButtonPresent: bool, starCount: nat)
      ensures Valid() && fresh(stars) && fresh(gold)
      ensures hasModal == modalPresent && hasOpenButton == openButtonPresent
      ensures !active && overflow == "" && selectedRating == 0 && stars.Length == starCount
    {
      hasModal, hasOpenButton := modalPresent, openButtonPresent;
      active, overflow, selectedRating := false, "", 0;
      stars := new bool[starCount](i => false);
      gold := new bool[starCount](i => false);
    }

    /** The write-review button: show the modal and lock page scrolling. */
    method Open()
      requires Valid()
      modifies this`active, this`overflow
      ensures Valid()
      ensures if hasOpenButton && hasModal then active && overflow == Hidden
              else active == old(active) && overflow == old(overflow)
    {
      if hasOpenButton && hasModal {
        active := true;
        overflow := Hidden;
      }
    }

    /**
     * `closeModal`: when the modal exists, hide it, clear the scroll lock,
     * reset the rating to 0 and deactivate every star. The inline gold/grey
     * colours are left as they are.
     */
    method CloseModal()
      requires Valid()
      modifies this`active, this`overflow, this`selectedRating, stars
      ensures Valid() && unchanged(gold)
      ensures if hasModal then
                !active && overflow == "" && selectedRating == 0 &&
                forall i :: 0 <= i < stars.Length ==> !stars[i]
              else
                active == old(active) && overflow == old(overflow) &&
                selectedRating == old(selectedRating) && stars[..] == old(stars[..])
    {
      if hasModal {
        active := false;
        overflow := "";
        selectedRating := 0;
        var i := 0;
        while i < stars.Length
          invariant 0 <= i <= stars.Length
          invariant forall t :: 0 <= t < i ==> !stars[t]
          modifies stars
        {
          stars[i] := false;
          i := i + 1;
        }
      }
    }

    /** A click on the overlay closes the modal only when the overlay itself is the target. */
    method OverlayClick(targetIsOverlay: bool)
      requires Valid()
      modifies this`active, this`overflow, this`selectedRating, stars
      ensures Valid() && unchanged(gold)
      ensures targetIsOverlay && hasModal ==>
                !active && selectedRating == 0 && overflow == "" &&
                forall i :: 0 <= i < stars.Length ==> !stars[i]
      ensures !(targetIsOverlay && hasModal) ==>
                active == old(active) && overflow == old(overflow) &&
                selectedRating == old(selectedRating) && stars[..] == old(stars[..])
    {
      if targetIsOverlay {
        CloseModal();
      }
    }

    /** A key press: Escape closes the modal, and only when it is open. */
    method KeyDown(key: string)
      requires Valid()
      modifies this`active, this`overflow, this`selectedRating, stars
      ensures Valid() && unchanged(gold)
      ensures key == "Escape" && hasModal && old(active) ==>
                !active && overflow == "" && selectedRating == 0 &&
                forall i :: 0 <= i < stars.Length ==> !stars[i]
      ensures !(key == "Escape" && hasModal && old(active)) ==>
                active == old(active) && overflow == old(overflow) &&
                selectedRating == old(selectedRating) && stars[..] == old(stars[..])
    {
      if key == "Escape" && hasModal && active {
        CloseModal();
      }
    }

    /** A click on star k: the rating becomes k + 1 and the first k + 1 stars are active. */
    method StarClick(k: nat)
      requires Valid() && k < stars.Length
      modifies this`selectedRating, stars
      ensures Valid() && unchanged(gold)
      ensures selectedRating == k + 1
      ensures forall i :: 0 <= i < stars.Length ==> stars[i] == (i < k + 1)
    {
      selectedRating := k + 1;
      var i := 0;
      while i < stars.Length
        invariant 0 <= i <= stars.Length
        invariant forall t :: 0 <= t < i ==> stars[t] == (t < selectedRating)
        modifies stars
      {
        if i < selectedRating {
          stars[i] := true;
        } else {
          stars[i] := false;
        }
        i := i + 1;
      }
    }

    /** The pointer enters star k: stars 0 .. k turn gold, the others grey. */
    method StarEnter(k: nat)
      requires Valid() && k < stars.Length
      modifies gold
      ensures Valid()
      ensures forall i :: 0 <= i < gold.Length ==> gold[i] == (i <= k)
    {
      var i := 0;
      while i < gold.Length
        invariant 0 <= i <= gold.Length
        invariant forall t :: 0 <= t < i ==> gold[t] == (t <= k)
        modifies gold
      {
        gold[i] := i <= k;
        i := i + 1;
      }
    }

    /** The pointer leaves the rating row: the colours show the selected rating again. */
    method RatingLeave()
      requires Valid()
      modifies gold
      ensures Valid()
      ensures forall i :: 0 <= i < gold.Length ==> gold[i] == (i < selectedRating)
      ensures gold[..] == stars[..]
    {
      var i := 0;
      while i < gold.Length
        invariant 0 <= i <= gold.Length
        invariant forall t :: 0 <= t < i ==> gold[t] == (t < selectedRating)
        modifies gold
      {
        gold[i] := i < selectedRating;
        i := i + 1;
      }
    }
  }
}
