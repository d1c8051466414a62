/**
 * `components/hero-carousel.tsx`: the home page's slide show. It keeps the
 * index of the current slide and an autoplay flag; an interval advances the
 * slide every five seconds while the flag is set, and every manual move clears
 * the flag until a ten-second timer sets it again. Both timers are modelled as
 * methods the environment calls: `Tick` for the interval, `ResumeAutoPlay` for
 * the timer.
 */
module HeroCarousel {

  /** `(i + 1) % n`: the slide after `i`, wrapping to the first. */
  function Next(i: int, n: int): (j: int)
    requires 0 <= i < n
    ensures 0 <= j < n
    ensures i < n - 1 ==> j == i + 1
    ensures i == n - 1 ==> j == 0
  {
    (i + 1) % n
  }

  /** `(i - 1 + n) % n`: the slide before `i`, wrapping to the last. */
  function Previous(i: int, n: int): (j: int)
    requires 0 <= i < n
    ensures 0 <= j < n
    ensures i > 0 ==> j == i - 1
    ensures i == 0 ==> j == n - 1
  {
    (i - 1 + n) % n
  }

  /** Going forward then back, or back then forward, returns to the same slide. */
  lemma NextPreviousInverse(i: int, n: int)
    requires 0 <= i < n
    ensures Previous(Next(i, n), n) == i
    ensures Next(Previous(i, n), n) == i
  {
  }

  /** The slide reached from `i` after `k` moves forward. */
  function Advance(i: int, n: int, k: nat): (j: int)
    requires 0 <= i < n
    ensures 0 <= j < n
  {
    if k == 0 then i else Next(Advance(i, n, k - 1), n)
  }

  /** Moving `a` then `b` slides forward is moving `a + b` slides forward. */
  lemma {:induction false} AdvanceAdd(i: int, n: int, a: nat, b: nat)
    requires 0 <= i < n
    ensures Advance(i, n, a + b) == Advance(Advance(i, n, a), n, b)
  {
    if b > 0 {
      AdvanceAdd(i, n, a, b - 1);
    }
  }

  /** Short of the last slide, `k` moves forward from `i` reach slide `i + k`. */
  lemma {:induction false} AdvanceWithoutWrap(i: int, n: int, k: nat)
    requires 0 <= i && i + k < n
    ensures Advance(i, n, k) == i + k
  {
    if k > 0 {
      AdvanceWithoutWrap(i, n, k - 1);
    }
  }

  /** `n` moves forward go once round the carousel and back to the start. */
  lemma FullTurn(i: int, n: int)
    requires 0 <= i < n
    ensures Advance(i, n, n) == i
  {
    AdvanceWithoutWrap(i, n, n - 1 - i);
    assert Advance(i, n, n - i) == 0;
    AdvanceAdd(i, n, n - i, i);
    AdvanceWithoutWrap(0, n, i);
  }

  class Carousel {
    /** `slides.length`, fixed for the life of the component. */
    const slideCount: nat
    /** `currentIndex`. */
    var currentIndex: int
    /** `autoPlayRef.current`. */
    var autoPlay: bool
    /** Whether the effect started the five-second interval. */
    var intervalStarted: bool

    /** The index always names a slide once there is one. */
    ghost predicate Valid()
      reads this
    {
      (slideCount > 0 ==> 0 <= currentIndex < slideCount)
      && (slideCount == 0 ==> currentIndex == 0 && !intervalStarted)
    }

    /** The first render: slide 0, autoplay on, and an interval only when there are slides. */
    constructor(n: nat)
      ensures Valid()
      ensures slideCount == n && currentIndex == 0 && autoPlay && intervalStarted == (n > 0)
    {
      slideCount := n;
      currentIndex := 0;
      autoPlay := true;
      intervalStarted := n > 0;
    }

    /** The interval's callback: the next slide, but only while autoplay is on. */
    method Tick()
      requires Valid() && intervalStarted
      modifies this
      ensures Valid()
      ensures currentIndex == (if old(autoPlay) then Next(old(currentIndex), slideCount) else old(currentIndex))
      ensures autoPlay == old(autoPlay) && intervalStarted
    {
      if autoPlay {
        currentIndex := (currentIndex + 1) % slideCount;
      }
    }

    /** `goToPrevious`. */
    method GoToPrevious()
      requires Valid() && slideCount > 0
      modifies this
      ensures Valid()
      ensures currentIndex == Previous(old(currentIndex), slideCount) && !autoPlay
      ensures intervalStarted == old(intervalStarted)
    {
      autoPlay := false;
      currentIndex := (currentIndex - 1 + slideCount) % slideCount;
    }

    /** `goToNext`. */
    method GoToNext()
      requires Valid() && slideCount > 0
      modifies this
      ensures Valid()
      ensures currentIndex == Next(old(currentIndex), slideCount) && !autoPlay
      ensures intervalStarted == old(intervalStarted)
    {
      autoPlay := false;
      currentIndex := (currentIndex + 1) % slideCount;
    }

    /** `goToSlide(index)`: the dots enumerate the slides, so `index` names one. */
    method GoToSlide(index: int)
      requires Valid() && 0 <= index < slideCount
      modifies this
      ensures Valid()
      ensures currentIndex == index && !autoPlay
      ensures intervalStarted == old(intervalStarted)
    {
      autoPlay := false;
      currentIndex := index;
    }

    /** The ten-second timer a manual move schedules: autoplay comes back on. */
    method ResumeAutoPlay()
      requires Valid()
      modifies this
      ensures Valid()
      ensures autoPlay && currentIndex == old(currentIndex) && intervalStarted == old(intervalStarted)
    {
      autoPlay := true;
    }
  }
}
