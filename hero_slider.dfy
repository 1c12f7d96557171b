/**
  The hero slider set up on page load: a current index over the `.slide`
  elements, the matching `.dot` indicators, the next/previous buttons, the dot
  clicks and the auto-advance interval.

  Each element's `active` class is one flag in `slides` or `dots`. The
  browser's interval timers are abstracted as a table of live handles:
  `setInterval` hands out a handle never used before and adds it to the
  table, `clearInterval` removes it, and only a live interval ever fires.
 */
module HeroSlider {
  import opened SlideIndex

  class Slider {
    /** `active` flags of the `.slide` elements, in document order. */
    const slides: array<bool>
    /** `active` flags of the `.dot` indicators, in document order. */
    const dots: array<bool>
    var currentSlide: int
    /** The handle last returned by `setInterval`. */
    var slideInterval: nat
    /** Handles of this slider's intervals that have not been cleared. */
    var liveIntervals: set<nat>
    /** A handle larger than every handle handed out so far. */
    var nextHandle: nat

    /** The structure every state keeps: at least one slide, a dot for every
        slide (the page reads `dots[currentSlide]`), two distinct collections,
        a valid current index and handles drawn below `nextHandle`. */
    ghost predicate Shape()
      reads this
    {
      && slides.Length > 0
      && dots.Length >= slides.Length
      && slides != dots
      && 0 <= currentSlide < slides.Length
      && forall h :: h in liveIntervals ==> h < nextHandle
    }

    /** Between events exactly one auto-advance interval is live. */
    ghost predicate Valid()
      reads this
    {
      Shape() && liveIntervals == {slideInterval}
    }

    /** Exactly one slide and one dot carry `active`, both at `currentSlide`. */
    ghost predicate OneActive()
      reads this, slides, dots
    {
      && (forall i :: 0 <= i < slides.Length ==> slides[i] == (i == currentSlide))
      && (forall i :: 0 <= i < dots.Length ==> dots[i] == (i == currentSlide))
    }

    /** Page load with at least one slide: the index starts at 0 (the markup
        is expected to mark the first slide and dot active) and the
        auto-advance interval is started. */
    constructor (slides: array<bool>, dots: array<bool>, firstHandle: nat)
      requires slides.Length > 0 && dots.Length >= slides.Length && slides != dots
      ensures Valid()
      ensures this.slides == slides && this.dots == dots
      ensures currentSlide == 0
      ensures liveIntervals == {firstHandle} && nextHandle == firstHandle + 1
      ensures OneActive() <==>
        && (forall i :: 0 <= i < slides.Length ==> slides[i] == (i == 0))
        && (forall i :: 0 <= i < dots.Length ==> dots[i] == (i == 0))
    {
      this.slides := slides;
      this.dots := dots;
      currentSlide := 0;
      slideInterval := firstHandle;
      liveIntervals := {};
      nextHandle := firstHandle;
      new;
      StartSlider();
    }

    /** `goToSlide(index)`: clear `active` at the old index, move to
        `(index + N) % N`, set `active` at the new index. The callers pass
        `currentSlide + 1`, `currentSlide - 1` or a dot position, so
        `index >= -N` always holds. */
    method GoToSlide(index: int)
      requires Shape() && index >= -slides.Length
      modifies slides, dots, this`currentSlide
      ensures Shape()
      ensures currentSlide == Wrap(index, slides.Length)
      ensures slides[..] == old(slides[..])[old(currentSlide) := false][currentSlide := true]
      ensures dots[..] == old(dots[..])[old(currentSlide) := false][currentSlide := true]
      ensures old(OneActive()) ==> OneActive()
    {
      slides[currentSlide] := false;
      dots[currentSlide] := false;
      currentSlide := JsRem(index + slides.Length, slides.Length);
      slides[currentSlide] := true;
      dots[currentSlide] := true;
    }

    /** `nextSlide`: advance one position, from the last slide to the first. */
    method NextSlide()
      requires Shape()
      modifies slides, dots, this`currentSlide
      ensures Shape()
      ensures currentSlide == NextIndex(old(currentSlide), slides.Length)
      ensures slides[..] == old(slides[..])[old(currentSlide) := false][currentSlide := true]
      ensures dots[..] == old(dots[..])[old(currentSlide) := false][currentSlide := true]
      ensures old(OneActive()) ==> OneActive()
    {
      GoToSlide(currentSlide + 1);
    }

    /** `prevSlide`: go back one position, from the first slide to the last. */
    method PrevSlide()
      requires Shape()
      modifies slides, dots, this`currentSlide
      ensures Shape()
      ensures currentSlide == PrevIndex(old(currentSlide), slides.Length)
      ensures slides[..] == old(slides[..])[old(currentSlide) := false][currentSlide := true]
      ensures dots[..] == old(dots[..])[old(currentSlide) := false][currentSlide := true]
      ensures old(OneActive()) ==> OneActive()
    {
      GoToSlide(currentSlide - 1);
    }

    /** `startSlider`: `setInterval(nextSlide, ...)` adds one fresh live
        interval and keeps its handle. */
    method StartSlider()
      requires forall h :: h in liveIntervals ==> h < nextHandle
      modifies this`slideInterval, this`liveIntervals, this`nextHandle
      ensures slideInterval == old(nextHandle) && slideInterval !in old(liveIntervals)
      ensures liveIntervals == old(liveIntervals) + {slideInterval}
      ensures nextHandle == old(nextHandle) + 1
      ensures forall h :: h in liveIntervals ==> h < nextHandle
    {
      slideInterval := nextHandle;
      liveIntervals := liveIntervals + {slideInterval};
      nextHandle := nextHandle + 1;
    }

    /** `resetSlider`: clear the current interval, then start a fresh one, so
        a manual move is followed by a full period before the next advance. */
    method ResetSlider()
      requires Valid()
      modifies this`slideInterval, this`liveIntervals, this`nextHandle
      ensures Valid()
      ensures old(slideInterval) !in liveIntervals
      ensures slideInterval !in old(liveIntervals)
      ensures liveIntervals == {old(nextHandle)}
      ensures slideInterval == old(nextHandle) && nextHandle == old(nextHandle) + 1
    {
      liveIntervals := liveIntervals - {slideInterval};
      StartSlider();
    }

    /** The browser runs interval `handle`'s callback: `nextSlide` if that
        interval is still live, nothing if it has been cleared. */
    method Fire(handle: nat)
      requires Valid()
      modifies slides, dots, this`currentSlide
      ensures Valid()
      ensures handle in liveIntervals ==> currentSlide == NextIndex(old(currentSlide), slides.Length)
      ensures handle in liveIntervals ==>
        slides[..] == old(slides[..])[old(currentSlide) := false][currentSlide := true]
      ensures handle in liveIntervals ==>
        dots[..] == old(dots[..])[old(currentSlide) := false][currentSlide := true]
      ensures handle !in liveIntervals ==>
        currentSlide == old(currentSlide) && slides[..] == old(slides[..]) && dots[..] == old(dots[..])
      ensures old(OneActive()) ==> OneActive()
    {
      if handle in liveIntervals {
        NextSlide();
      }
    }

    /** Click on the next button: `nextSlide()` then `resetSlider()`. */
    method ClickNext()
      requires Valid()
      modifies slides, dots, this
      ensures Valid()
      ensures currentSlide == NextIndex(old(currentSlide), slides.Length)
      ensures slides[..] == old(slides[..])[old(currentSlide) := false][currentSlide := true]
      ensures dots[..] == old(dots[..])[old(currentSlide) := false][currentSlide := true]
      ensures old(OneActive()) ==> OneActive()
      ensures old(slideInterval) !in liveIntervals && slideInterval !in old(liveIntervals)
      ensures slideInterval == old(nextHandle) && nextHandle == old(nextHandle) + 1
    {
      NextSlide();
      ResetSlider();
    }

    /** Click on the previous button: `prevSlide()` then `resetSlider()`. */
    method ClickPrev()
      requires Valid()
      modifies slides, dots, this
      ensures Valid()
      ensures currentSlide == PrevIndex(old(currentSlide), slides.Length)
      ensures slides[..] == old(slides[..])[old(currentSlide) := false][currentSlide := true]
      ensures dots[..] == old(dots[..])[old(currentSlide) := false][currentSlide := true]
      ensures old(OneActive()) ==> OneActive()
      ensures old(slideInterval) !in liveIntervals && slideInterval !in old(liveIntervals)
      ensures slideInterval == old(nextHandle) && nextHandle == old(nextHandle) + 1
    {
      PrevSlide();
      ResetSlider();
    }

    /** Click on the dot at position `i`: `goToSlide(i)` then `resetSlider()`.
        A dot beyond the last slide wraps around through the `%`. */
    method ClickDot(i: int)
      requires Valid() && 0 <= i < dots.Length
      modifies slides, dots, this
      ensures Valid()
      ensures currentSlide == i % slides.Length
      ensures i < slides.Length ==> currentSlide == i
      ensures slides[..] == old(slides[..])[old(currentSlide) := false][currentSlide := true]
      ensures dots[..] == old(dots[..])[old(currentSlide) := false][currentSlide := true]
      ensures old(OneActive()) ==> OneActive()
      ensures old(slideInterval) !in liveIntervals && slideInterval !in old(liveIntervals)
      ensures slideInterval == old(nextHandle) && nextHandle == old(nextHandle) + 1
    {
      GoToSlide(i);
      ResetSlider();
    }
  }

  /** Page load: the slider exists, with its handlers and its interval, only
      when the page has at least one slide. */
  method SetUpSlider(slides: array<bool>, dots: array<bool>, firstHandle: nat) returns (s: Slider?)
    requires slides.Length > 0 ==> dots.Length >= slides.Length && slides != dots
    ensures (s == null) <==> slides.Length == 0
    ensures s != null ==> fresh(s) && s.Valid() && s.slides == slides && s.dots == dots
    ensures s != null ==> s.currentSlide == 0 && s.liveIntervals == {firstHandle}
  {
    if slides.Length > 0 {
      s := new Slider(slides, dots, firstHandle);
    } else {
      s := null;
    }
  }
}
