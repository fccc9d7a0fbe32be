/**
 * The navigation state of the `testimonials-carousel` element of
 * src/assets/testimonials-carousel.js. The DOM it drives is modelled by
 * what the element writes into it: the disabled flags of the two buttons,
 * one "current" flag per dot, the `aria-hidden` and `inert` flags of each
 * slide, and the track's `translateX` offset in percent.
 */
module Carousel {

  /** What `handleTouchEnd` does with the recorded touch coordinates. */
  datatype Swipe = Ignored | TooShort | Forward | Backward

  /** Distances of at most this many pixels are not a swipe. */
  const Threshold: int := 50

  /** `handleTouchEnd`: a zero coordinate (falsy) returns early; otherwise the sign of start − end picks the direction. */
  function SwipeOf(touchStartX: int, touchEndX: int): (r: Swipe)
    ensures r == Forward <==> touchStartX != 0 && touchEndX != 0 && touchStartX - touchEndX > Threshold
    ensures r == Backward <==> touchStartX != 0 && touchEndX != 0 && touchEndX - touchStartX > Threshold
    ensures r == Ignored <==> touchStartX == 0 || touchEndX == 0
  {
    if touchStartX == 0 || touchEndX == 0 then Ignored
    else
      var diff := touchStartX - touchEndX;
      if diff > Threshold || -diff > Threshold then
        if diff > 0 then Forward else Backward
      else TooShort
  }

  /** Swapping the two coordinates swaps the directions. */
  lemma SwipeSymmetric(start: int, end: int)
    ensures SwipeOf(start, end) == Forward <==> SwipeOf(end, start) == Backward
  {
  }

  /** The element, from its constructor on. */
  class TestimonialsCarousel {
    var currentSlide: int
    var isTransitioning: bool
    var touchStartX: int
    var touchEndX: int

    /** Whether `init` has run and attached the event listeners. */
    var listening: bool

    /** What `connectedCallback` finds: the track, the buttons, and the number of slides. */
    const hasTrack: bool
    const hasPrev: bool
    const hasNext: bool
    const slideCount: nat

    var prevDisabled: bool
    var nextDisabled: bool
    var trackOffset: int

    /** `aria-current` (and the highlight class) of each dot. */
    const dotCurrent: array<bool>
    /** `aria-hidden="true"` of each slide. */
    const slideHidden: array<bool>
    /** `inert` of each slide. */
    const slideInert: array<bool>

    predicate Valid()
      reads this
    {
      slideHidden.Length == slideCount && slideInert.Length == slideCount
      && slideHidden != slideInert && dotCurrent != slideHidden && dotCurrent != slideInert
    }

    /** The button flags follow the current slide (a missing button is never written). */
    predicate ButtonsSynced()
      reads this
    {
      (hasPrev ==> prevDisabled == (currentSlide == 0))
      && (hasNext ==> nextDisabled == (currentSlide == slideCount - 1))
    }

    /** Exactly the dot at `currentSlide` is current. */
    predicate DotsSynced()
      reads this, dotCurrent
    {
      forall i :: 0 <= i < dotCurrent.Length ==> dotCurrent[i] == (i == currentSlide)
    }

    /** Exactly the slide at `currentSlide` is shown and not inert. */
    predicate SlidesSynced()
      reads this, slideHidden, slideInert
      requires Valid()
    {
      forall i :: 0 <= i < slideCount ==> slideHidden[i] == (i != currentSlide) && slideInert[i] == (i != currentSlide)
    }

    /** Everything drawn follows the current slide. */
    predicate Synced()
      reads this, dotCurrent, slideHidden, slideInert
      requires Valid()
    {
      ButtonsSynced() && DotsSynced() && SlidesSynced() && trackOffset == -100 * currentSlide
    }

    /**
     * The constructor, with the markup `connectedCallback` queries: whether
     * the track and the buttons exist, and the initial flags of the dots
     * and the slides (the number of slides is the length of `hidden`).
     */
    constructor (track: bool, prev: bool, next: bool, prevOff: bool, nextOff: bool,
                 dots: seq<bool>, hidden: seq<bool>, inert: seq<bool>)
      requires |hidden| == |inert|
      ensures Valid()
      ensures currentSlide == 0 && !isTransitioning && touchStartX == 0 && touchEndX == 0 && !listening
      ensures hasTrack == track && hasPrev == prev && hasNext == next && slideCount == |hidden|
      ensures prevDisabled == prevOff && nextDisabled == nextOff && trackOffset == 0
      ensures dotCurrent[..] == dots && slideHidden[..] == hidden && slideInert[..] == inert
      ensures fresh(dotCurrent) && fresh(slideHidden) && fresh(slideInert)
    {
      currentSlide := 0;
      isTransitioning := false;
      touchStartX := 0;
      touchEndX := 0;
      listening := false;
      hasTrack := track;
      hasPrev := prev;
      hasNext := next;
      slideCount := |hidden|;
      prevDisabled := prevOff;
      nextDisabled := nextOff;
      trackOffset := 0;
      dotCurrent := new bool[|dots|](i requires 0 <= i < |dots| => dots[i]);
      slideHidden := new bool[|hidden|](i requires 0 <= i < |hidden| => hidden[i]);
      slideInert := new bool[|inert|](i requires 0 <= i < |inert| => inert[i]);
    }

    /** `updateButtons()` */
    method UpdateButtons()
      modifies this
      ensures ButtonsSynced()
      ensures prevDisabled == if hasPrev then currentSlide == 0 else old(prevDisabled)
      ensures nextDisabled == if hasNext then currentSlide == slideCount - 1 else old(nextDisabled)
      ensures currentSlide == old(currentSlide) && isTransitioning == old(isTransitioning)
      ensures touchStartX == old(touchStartX) && touchEndX == old(touchEndX)
      ensures listening == old(listening) && trackOffset == old(trackOffset)
    {
      if hasPrev {
        prevDisabled := currentSlide == 0;
      }
      if hasNext {
        nextDisabled := currentSlide == slideCount - 1;
      }
    }

    /** `updateDots()` */
    method UpdateDots()
      modifies dotCurrent
      ensures DotsSynced()
    {
      for index := 0 to dotCurrent.Length
        invariant forall i :: 0 <= i < index ==> dotCurrent[i] == (i == currentSlide)
      {
        if index == currentSlide {
          dotCurrent[index] := true;
        } else {
          dotCurrent[index] := false;
        }
      }
    }

    /** `updateAriaAttributes()` */
    method UpdateAriaAttributes()
      requires Valid()
      modifies slideHidden, slideInert
      ensures SlidesSynced()
    {
      for index := 0 to slideCount
        invariant forall i :: 0 <= i < index ==> slideHidden[i] == (i != currentSlide) && slideInert[i] == (i != currentSlide)
      {
        if index == currentSlide {
          slideHidden[index] := false;
          slideInert[index] := false;
        } else {
          slideHidden[index] := true;
          slideInert[index] := true;
        }
      }
    }

    /**
     * `goToSlide(slideIndex)`: a no-op while a transition runs or when the
     * target is the current slide; otherwise it moves there, takes the
     * transition lock and redraws everything. The index is not checked; the
     * track must exist, since its style is written.
     */
    method GoToSlide(slideIndex: int)
      requires Valid() && hasTrack
      modifies this, dotCurrent, slideHidden, slideInert
      ensures old(isTransitioning) || slideIndex == old(currentSlide) ==>
                unchanged(this) && unchanged(dotCurrent) && unchanged(slideHidden) && unchanged(slideInert)
      ensures !old(isTransitioning) && slideIndex != old(currentSlide) ==>
                currentSlide == slideIndex && isTransitioning && Synced()
      ensures !hasPrev ==> prevDisabled == old(prevDisabled)
      ensures !hasNext ==> nextDisabled == old(nextDisabled)
      ensures touchStartX == old(touchStartX) && touchEndX == old(touchEndX) && listening == old(listening)
    {
      if isTransitioning || slideIndex == currentSlide {
        return;
      }

      isTransitioning := true;
      currentSlide := slideIndex;

      var translateX := -100 * slideIndex;
      trackOffset := translateX;

      UpdateButtons();
      UpdateDots();
      UpdateAriaAttributes();
    }

    /** `previousSlide()`: back one slide unless at the first. */
    method PreviousSlide()
      requires Valid() && hasTrack
      modifies this, dotCurrent, slideHidden, slideInert
      ensures currentSlide == if old(currentSlide) > 0 && !old(isTransitioning) then old(currentSlide) - 1 else old(currentSlide)
      ensures 0 <= old(currentSlide) < slideCount ==> 0 <= currentSlide < slideCount
      ensures currentSlide != old(currentSlide) ==> isTransitioning && Synced()
      ensures currentSlide == old(currentSlide) ==>
                unchanged(this) && unchanged(dotCurrent) && unchanged(slideHidden) && unchanged(slideInert)
      ensures touchStartX == old(touchStartX) && touchEndX == old(touchEndX) && listening == old(listening)
      ensures !hasPrev ==> prevDisabled == old(prevDisabled)
      ensures !hasNext ==> nextDisabled == old(nextDisabled)
    {
      if currentSlide > 0 {
        GoToSlide(currentSlide - 1);
      }
    }

    /** `nextSlide()`: forward one slide unless at the last. */
    method NextSlide()
      requires Valid() && hasTrack
      modifies this, dotCurrent, slideHidden, slideInert
      ensures currentSlide == if old(currentSlide) < slideCount - 1 && !old(isTransitioning) then old(currentSlide) + 1 else old(currentSlide)
      ensures 0 <= old(currentSlide) < slideCount ==> 0 <= currentSlide < slideCount
      ensures currentSlide != old(currentSlide) ==> isTransitioning && Synced()
      ensures currentSlide == old(currentSlide) ==>
                unchanged(this) && unchanged(dotCurrent) && unchanged(slideHidden) && unchanged(slideInert)
      ensures touchStartX == old(touchStartX) && touchEndX == old(touchEndX) && listening == old(listening)
      ensures !hasPrev ==> prevDisabled == old(prevDisabled)
      ensures !hasNext ==> nextDisabled == old(nextDisabled)
    {
      if currentSlide < slideCount - 1 {
        GoToSlide(currentSlide + 1);
      }
    }

    /** The `transitionend` listener: releases the lock. */
    method TransitionEnd()
      modifies this
      ensures !isTransitioning
      ensures currentSlide == old(currentSlide) && touchStartX == old(touchStartX) && touchEndX == old(touchEndX)
      ensures prevDisabled == old(prevDisabled) && nextDisabled == old(nextDisabled) && trackOffset == old(trackOffset)
      ensures listening == old(listening)
    {
      isTransitioning := false;
    }

    /** `handleTouchStart(e)`, with the first changed touch's `screenX`. */
    method HandleTouchStart(screenX: int)
      modifies this
      ensures touchStartX == screenX && touchEndX == old(touchEndX)
      ensures currentSlide == old(currentSlide) && isTransitioning == old(isTransitioning)
      ensures prevDisabled == old(prevDisabled) && nextDisabled == old(nextDisabled) && trackOffset == old(trackOffset)
      ensures listening == old(listening)
    {
      touchStartX := screenX;
    }

    /** `handleTouchMove(e)`, with the first changed touch's `screenX`. */
    method HandleTouchMove(screenX: int)
      modifies this
      ensures touchEndX == screenX && touchStartX == old(touchStartX)
      ensures currentSlide == old(currentSlide) && isTransitioning == old(isTransitioning)
      ensures prevDisabled == old(prevDisabled) && nextDisabled == old(nextDisabled) && trackOffset == old(trackOffset)
      ensures listening == old(listening)
    {
      touchEndX := screenX;
    }

    /** `handleTouchEnd()` */
    method HandleTouchEnd()
      requires Valid() && hasTrack
      modifies this, dotCurrent, slideHidden, slideInert
      ensures var swipe := SwipeOf(old(touchStartX), old(touchEndX));
              (swipe == Ignored ==> unchanged(this) && unchanged(dotCurrent) && unchanged(slideHidden) && unchanged(slideInert))
              && (swipe != Ignored ==> touchStartX == 0 && touchEndX == 0)
              && (swipe == TooShort ==> currentSlide == old(currentSlide) && isTransitioning == old(isTransitioning))
              && (swipe == Forward ==> currentSlide == if old(currentSlide) < slideCount - 1 && !old(isTransitioning) then old(currentSlide) + 1 else old(currentSlide))
              && (swipe == Backward ==> currentSlide == if old(currentSlide) > 0 && !old(isTransitioning) then old(currentSlide) - 1 else old(currentSlide))
      ensures 0 <= old(currentSlide) < slideCount ==> 0 <= currentSlide < slideCount
      ensures currentSlide != old(currentSlide) ==> isTransitioning && Synced()
      ensures currentSlide == old(currentSlide) ==> isTransitioning == old(isTransitioning) && listening == old(listening)
      ensures currentSlide == old(currentSlide) ==>
                unchanged(dotCurrent) && unchanged(slideHidden) && unchanged(slideInert)
                && trackOffset == old(trackOffset) && prevDisabled == old(prevDisabled) && nextDisabled == old(nextDisabled)
      ensures listening == old(listening)
      ensures !hasPrev ==> prevDisabled == old(prevDisabled)
      ensures !hasNext ==> nextDisabled == old(nextDisabled)
    {
      if touchStartX == 0 || touchEndX == 0 {
        return;
      }

      var diff := touchStartX - touchEndX;
      var threshold := 50;

      if diff > threshold || -diff > threshold {
        if diff > 0 {
          NextSlide();
        } else {
          PreviousSlide();
        }
      }

      touchStartX := 0;
      touchEndX := 0;
    }

    /** `handleKeydown(e)`; `hovered` and `focused` are the `:hover` and `:focus-within` matches. */
    method HandleKeydown(key: string, hovered: bool, focused: bool)
      requires Valid() && hasTrack
      modifies this, dotCurrent, slideHidden, slideInert
      ensures !(hovered || focused) || (key != "ArrowLeft" && key != "ArrowRight") ==>
                unchanged(this) && unchanged(dotCurrent) && unchanged(slideHidden) && unchanged(slideInert)
      ensures (hovered || focused) && key == "ArrowLeft" ==>
                currentSlide == if old(currentSlide) > 0 && !old(isTransitioning) then old(currentSlide) - 1 else old(currentSlide)
      ensures (hovered || focused) && key == "ArrowRight" ==>
                currentSlide == if old(currentSlide) < slideCount - 1 && !old(isTransitioning) then old(currentSlide) + 1 else old(currentSlide)
      ensures 0 <= old(currentSlide) < slideCount ==> 0 <= currentSlide < slideCount
      ensures currentSlide != old(currentSlide) ==> isTransitioning && Synced()
      ensures currentSlide == old(currentSlide) ==>
                unchanged(this) && unchanged(dotCurrent) && unchanged(slideHidden) && unchanged(slideInert)
      ensures touchStartX == old(touchStartX) && touchEndX == old(touchEndX) && listening == old(listening)
      ensures !hasPrev ==> prevDisabled == old(prevDisabled)
      ensures !hasNext ==> nextDisabled == old(nextDisabled)
    {
      if !hovered && !focused {
        return;
      }
      if key == "ArrowLeft" {
        PreviousSlide();
      } else if key == "ArrowRight" {
        NextSlide();
      }
    }

    /** `init()`: attach the listeners, draw the buttons, and go to slide 0. */
    method Init()
      requires Valid() && hasTrack
      modifies this, dotCurrent, slideHidden, slideInert
      ensures listening && ButtonsSynced()
      ensures old(currentSlide) == 0 ==>
                currentSlide == 0 && isTransitioning == old(isTransitioning) && trackOffset == old(trackOffset)
                && unchanged(dotCurrent) && unchanged(slideHidden) && unchanged(slideInert)
      ensures old(currentSlide) != 0 && !old(isTransitioning) ==> currentSlide == 0 && isTransitioning && Synced()
      ensures old(isTransitioning) ==>
                currentSlide == old(currentSlide) && isTransitioning && trackOffset == old(trackOffset)
                && unchanged(dotCurrent) && unchanged(slideHidden) && unchanged(slideInert)
      ensures touchStartX == old(touchStartX) && touchEndX == old(touchEndX)
      ensures !hasPrev ==> prevDisabled == old(prevDisabled)
      ensures !hasNext ==> nextDisabled == old(nextDisabled)
    {
      listening := true;
      UpdateButtons();
      GoToSlide(0);
    }

    /** `connectedCallback()`: nothing is set up without a track or with at most one slide. */
    method ConnectedCallback()
      requires Valid()
      modifies this, dotCurrent, slideHidden, slideInert
      ensures !hasTrack || slideCount <= 1 ==>
                unchanged(this) && unchanged(dotCurrent) && unchanged(slideHidden) && unchanged(slideInert)
      ensures hasTrack && slideCount > 1 ==> listening && ButtonsSynced()
      ensures hasTrack && slideCount > 1 && old(currentSlide) == 0 ==>
                currentSlide == 0 && isTransitioning == old(isTransitioning) && trackOffset == old(trackOffset)
                && unchanged(dotCurrent) && unchanged(slideHidden) && unchanged(slideInert)
      ensures hasTrack && slideCount > 1 && old(currentSlide) != 0 && !old(isTransitioning) ==>
                currentSlide == 0 && isTransitioning && Synced()
      ensures hasTrack && slideCount > 1 && old(isTransitioning) ==>
                currentSlide == old(currentSlide) && isTransitioning && trackOffset == old(trackOffset)
                && unchanged(dotCurrent) && unchanged(slideHidden) && unchanged(slideInert)
      ensures touchStartX == old(touchStartX) && touchEndX == old(touchEndX)
      ensures !hasPrev ==> prevDisabled == old(prevDisabled)
      ensures !hasNext ==> nextDisabled == old(nextDisabled)
    {
      if !hasTrack || slideCount <= 1 {
        return;
      }
      Init();
    }
  }

  /**
   * A freshly connected carousel of several slides: after `init`, the first
   * slide is current, the previous button is disabled and the next one is
   * not; a swipe to the left then moves to the second slide and redraws
   * everything, and a second swipe during the transition does nothing.
   */
  method FirstSwipes(dots: seq<bool>, hidden: seq<bool>, inert: seq<bool>)
    returns (afterInit: int, afterSwipe: int, duringTransition: int, afterShortSwipe: int)
    requires |hidden| == |inert| >= 2
    ensures afterInit == 0 && afterSwipe == 1 && duringTransition == 1 && afterShortSwipe == 1
  {
    var c := new TestimonialsCarousel(true, true, true, false, false, dots, hidden, inert);
    c.ConnectedCallback();
    assert c.prevDisabled && !c.nextDisabled && c.listening && !c.isTransitioning;
    afterInit := c.currentSlide;

    c.HandleTouchStart(300);
    c.HandleTouchMove(200);
    c.HandleTouchEnd();
    assert c.isTransitioning && c.Synced() && !c.prevDisabled;
    assert c.touchStartX == 0 && c.touchEndX == 0;
    afterSwipe := c.currentSlide;

    c.HandleTouchStart(300);
    c.HandleTouchMove(100);
    c.HandleTouchEnd();
    duringTransition := c.currentSlide;

    c.TransitionEnd();
    c.HandleTouchStart(100);
    c.HandleTouchMove(120);
    c.HandleTouchEnd();
    assert !c.isTransitioning;
    afterShortSwipe := c.currentSlide;
  }
}
