/** The home-page hero carousel: the index of the slide on show and whether
    the five-second autoplay timer is running. Each user action and each
    timer tick is a pure transition; the timer itself is the environment,
    which delivers `Tick` events only while it exists. */
module HeroCarousel {

  import opened Lists

  /** The number of hero slides. */
  const SlideCount := 3

  datatype Carousel = Carousel(current: int, autoPlaying: bool)

  /** The first slide, with autoplay on. */
  const Initial := Carousel(0, true)

  /** `a % heroSlides.length` in JavaScript: the remainder takes the sign of
      the dividend (it truncates toward zero, unlike Dafny's `%`). */
  function SlideRem(a: int): (r: int)
    ensures a >= 0 ==> 0 <= r < SlideCount
    ensures a < 0 ==> -SlideCount < r <= 0
    ensures 0 <= a < SlideCount ==> r == a
    ensures (a - r) % SlideCount == 0
  {
    if a >= 0 then a % SlideCount else -((-a) % SlideCount)
  }

  predicate InRange(c: Carousel)
  {
    0 <= c.current < SlideCount
  }

  // ---------------------------------------------------------------------------
  // Transitions

  /** The autoplay timer callback. The timer exists only while autoplay is
      on, so a tick with autoplay off changes nothing. */
  function Tick(c: Carousel): (r: Carousel)
    ensures r.autoPlaying == c.autoPlaying
    ensures !c.autoPlaying ==> r == c
    ensures c.autoPlaying && InRange(c) ==>
              InRange(r) && r.current == (if c.current == SlideCount - 1 then 0 else c.current + 1)
  {
    if c.autoPlaying then c.(current := SlideRem(c.current + 1)) else c
  }

  /** A dot was clicked: show slide `index` and stop autoplay. There is no
      range check. */
  function GoToSlide(c: Carousel, index: int): (r: Carousel)
    ensures r.current == index && !r.autoPlaying
    ensures InRange(r) <==> 0 <= index < SlideCount
  {
    Carousel(index, false)
  }

  /** The left arrow: the previous slide, wrapping from the first to the last. */
  function GoToPrevious(c: Carousel): (r: Carousel)
    ensures !r.autoPlaying
    ensures InRange(c) ==>
              InRange(r) && r.current == (if c.current == 0 then SlideCount - 1 else c.current - 1)
  {
    Carousel(SlideRem(c.current - 1 + SlideCount), false)
  }

  /** The right arrow: the next slide, wrapping from the last to the first. */
  function GoToNext(c: Carousel): (r: Carousel)
    ensures !r.autoPlaying
    ensures InRange(c) ==>
              InRange(r) && r.current == (if c.current == SlideCount - 1 then 0 else c.current + 1)
  {
    Carousel(SlideRem(c.current + 1), false)
  }

  // ---------------------------------------------------------------------------
  // Runs of events

  datatype Event = TimerTick | DotClicked(index: int) | PreviousClicked | NextClicked

  function Step(c: Carousel, e: Event): Carousel
  {
    match e
    case TimerTick => Tick(c)
    case DotClicked(i) => GoToSlide(c, i)
    case PreviousClicked => GoToPrevious(c)
    case NextClicked => GoToNext(c)
  }

  function Run(c: Carousel, es: seq<Event>): Carousel
    decreases |es|
  {
    if |es| == 0 then c else Run(Step(c, es[0]), es[1..])
  }

  /** A dot click whose index is one of the rendered dots. */
  predicate RenderedEvent(e: Event)
  {
    e.DotClicked? ==> 0 <= e.index < SlideCount
  }

  predicate IsManual(e: Event)
  {
    !e.TimerTick?
  }

  /** The slide index stays in range under every event the page can produce:
      ticks, arrows, and clicks on the rendered dots. */
  lemma {:induction false} RunStaysInRange(c: Carousel, es: seq<Event>)
    requires InRange(c)
    requires forall i :: 0 <= i < |es| ==> RenderedEvent(es[i])
    ensures InRange(Run(c, es))
    decreases |es|
  {
    if |es| > 0 {
      assert RenderedEvent(es[0]);
      RunStaysInRange(Step(c, es[0]), es[1..]);
    }
  }

  /** Autoplay is still on after a run exactly when it was on before and
      every event was a timer tick: every manual action turns it off and
      nothing turns it back on. */
  lemma {:induction false} AutoplayOnlyWithoutInteraction(c: Carousel, es: seq<Event>)
    ensures Run(c, es).autoPlaying <==> c.autoPlaying && forall i :: 0 <= i < |es| ==> !IsManual(es[i])
    decreases |es|
  {
    if |es| > 0 {
      AutoplayOnlyWithoutInteraction(Step(c, es[0]), es[1..]);
      assert forall i :: 1 <= i < |es| ==> es[i] == es[1..][i - 1];
    }
  }

  /** Once autoplay is off, ticks change nothing: a run is the same with its
      ticks removed. */
  lemma {:induction false} TicksIgnoredWhenStopped(c: Carousel, es: seq<Event>)
    requires !c.autoPlaying
    ensures Run(c, es) == Run(c, Filter(IsManual, es))
    decreases |es|
  {
    if |es| > 0 {
      TicksIgnoredWhenStopped(Step(c, es[0]), es[1..]);
    }
  }

  /** Next and previous undo each other on every in-range index. */
  lemma NextPreviousInverse(c: Carousel)
    requires InRange(c)
    ensures GoToPrevious(GoToNext(c)).current == c.current
    ensures GoToNext(GoToPrevious(c)).current == c.current
  {
  }

  /** `n` presses of next from slide `i` show slide `(i + n) mod 3`. */
  function NextTimes(c: Carousel, n: nat): Carousel
  {
    if n == 0 then c else GoToNext(NextTimes(c, n - 1))
  }

  lemma {:induction false} NextTimesRotates(c: Carousel, n: nat)
    requires InRange(c)
    ensures InRange(NextTimes(c, n))
    ensures NextTimes(c, n).current == (c.current + n) % SlideCount
  {
    if n > 0 {
      var prev := NextTimes(c, n - 1);
      var k: nat := c.current + n - 1;
      NextTimesRotates(c, n - 1);
      assert InRange(prev) && prev.current == k % SlideCount;
      RemStep(k);
      var r := GoToNext(prev);
      assert NextTimes(c, n) == r;
      assert InRange(r) && r.current == (if prev.current == SlideCount - 1 then 0 else prev.current + 1);
      assert r.current == (k + 1) % SlideCount;
    }
  }

  lemma RemStep(k: nat)
    ensures (k + 1) % SlideCount == (if k % SlideCount == SlideCount - 1 then 0 else k % SlideCount + 1)
  {
    var q := k / SlideCount;
    assert k == SlideCount * q + k % SlideCount;
  }

  /** Wrap-around at both ends, and a full cycle of next returns to the start. */
  lemma WrapAround(b: bool, c: Carousel)
    requires InRange(c)
    ensures GoToPrevious(Carousel(0, b)).current == SlideCount - 1
    ensures GoToNext(Carousel(SlideCount - 1, b)).current == 0
    ensures NextTimes(c, SlideCount).current == c.current
  {
    var c1 := GoToNext(c);
    var c2 := GoToNext(c1);
    assert NextTimes(c, 1) == c1;
    assert NextTimes(c, 2) == c2;
    assert NextTimes(c, SlideCount) == GoToNext(c2);
  }

  /** The tick moves like the next arrow but leaves autoplay on. */
  lemma TickIsNextWithAutoplay(c: Carousel)
    requires c.autoPlaying
    ensures Tick(c) == GoToNext(c).(autoPlaying := true)
  {
  }

  /** Without its range check, `goToSlide` can leave the carousel showing no
      slide; the next arrow from there lands back in range. */
  lemma UncheckedGoToSlide()
    ensures !InRange(GoToSlide(Initial, SlideCount))
    ensures GoToNext(GoToSlide(Initial, SlideCount)).current == 1
  {
  }
}
