/** The carousel of main.js:5-94: a slide index, the indicator buttons that
    mirror it, the track offset, the two direction buttons and the autoplay
    timer handle. The DOM and the browser's timer table are abstract: an
    indicator is the state of its button, and a timer handle is a number. */
module CarouselComponent {
  import opened Wrappers
  import opened Counting
  import opened Decimal
  import opened SlideIndex

  /** One indicator button: its `aria-label`, whether it carries the
      `active` class, and its `aria-selected` attribute. */
  datatype Indicator = Indicator(ariaLabel: string, active: bool, selected: bool)

  /** The event listeners `init` and `createIndicators` register. */
  datatype Listener = PrevClick | NextClick | IndicatorClick(index: nat) | HoverEnter | HoverLeave

  /** The accessible label of the indicator for slide `k` (counted from 0). */
  function Label(k: nat): string {
    "Go to slide " + NatToString(k + 1)
  }

  /** No two indicators share a label. */
  lemma LabelsDistinct(j: nat, k: nat)
    requires j != k
    ensures Label(j) != Label(k)
  {
    var prefix := "Go to slide ";
    if Label(j) == Label(k) {
      assert Label(j)[|prefix|..] == NatToString(j + 1);
      assert Label(k)[|prefix|..] == NatToString(k + 1);
      NatToStringInjective(j + 1, k + 1);
    }
  }

  /** The horizontal translation of the track, in percent, when slide `i` is shown. */
  function TrackOffset(i: int): int {
    -i * 100
  }

  /** A rendered carousel's offset tells which slide is shown: it is the
      current index times one slide width, leftward, and it lies between the
      first and the last slide of the track exactly when the index names a slide. */
  lemma OffsetWithinTrack(c: Carousel)
    requires c.Rendered()
    ensures c.currentIndex == -c.offset / 100
    ensures 0 <= c.currentIndex < c.n <==> -100 * (c.n - 1) <= c.offset <= 0
  {
  }

  /** The indicators mark slide `c`: button `k` is active and selected iff `k == c`. */
  predicate ShowsIndex(s: seq<Indicator>, c: int) {
    forall k :: 0 <= k < |s| ==> s[k].active == (k == c) && s[k].selected == (k == c)
  }

  /** The `active` flags of the indicators, in order. */
  function ActiveFlags(s: seq<Indicator>): seq<bool> {
    seq(|s|, k requires 0 <= k < |s| => s[k].active)
  }

  /** The indicator loop of `updateCarousel`: every button keeps its label and
      is marked iff its position is `c`. */
  function Render(s: seq<Indicator>, c: int): (r: seq<Indicator>)
    ensures |r| == |s| && ShowsIndex(r, c)
    ensures forall k :: 0 <= k < |s| ==> r[k].ariaLabel == s[k].ariaLabel
  {
    seq(|s|, k requires 0 <= k < |s| => s[k].(active := k == c, selected := k == c))
  }

  /** Exactly one indicator is active when the index names a slide, and none
      when `goToSlide` was given an index outside the slides. */
  lemma ExactlyOneActive(s: seq<Indicator>, c: int)
    requires ShowsIndex(s, c)
    ensures CountTrue(ActiveFlags(s)) == if 0 <= c < |s| then 1 else 0
  {
    CountOnly(ActiveFlags(s), c);
  }

  /** All listeners a carousel with `n` slides registers. */
  function WiredListeners(n: nat): set<Listener> {
    {PrevClick, NextClick, HoverEnter, HoverLeave} + IndicatorListeners(n)
  }

  function IndicatorListeners(n: nat): set<Listener> {
    set k: nat | k < n :: IndicatorClick(k)
  }

  class Carousel {
    /** Whether `document.getElementById('carouselTrack')` found the track. */
    const trackPresent: bool
    /** `slides.length`: the children of the track at construction. */
    const n: nat
    var currentIndex: int
    var indicators: array<Indicator>
    /** The `translateX` percentage of the track. */
    var offset: int
    var prevDisabled: bool
    var nextDisabled: bool
    /** `autoPlayInterval`: the handle of the running timer, or null. */
    var autoPlay: Option<nat>
    var listeners: set<Listener>
    /** The handle the browser's next `setInterval` returns; handles are positive. */
    var nextHandle: nat
    /** The browser's table of timers that are scheduled and not cleared. */
    ghost var liveTimers: set<nat>

    /** The carousel's invariant between events. */
    ghost predicate Valid()
      reads this, indicators
    {
      indicators.Length == n
      && (forall k :: 0 <= k < n ==> indicators[k].ariaLabel == Label(k))
      && TimersValid()
      && listeners == (if trackPresent then WiredListeners(n) else {})
      && (!trackPresent ==> n == 0 && autoPlay == None)
    }

    /** At most one timer is outstanding, and it is the one the carousel holds. */
    ghost predicate TimersValid()
      reads this
    {
      liveTimers == (if autoPlay.Some? then {autoPlay.value} else {})
      && 1 <= nextHandle
      && (autoPlay.Some? ==> 1 <= autoPlay.value < nextHandle)
    }

    /** What `updateCarousel` leaves behind. */
    ghost predicate Rendered()
      reads this, indicators
    {
      ShowsIndex(indicators[..], currentIndex)
      && offset == TrackOffset(currentIndex)
      && !prevDisabled && !nextDisabled
    }

    /** `new Carousel()`. `track` is `None` when the page has no track element,
        and otherwise the number of slides inside it. */
    constructor (track: Option<nat>)
      ensures Valid() && fresh(indicators)
      ensures trackPresent == track.Some?
      ensures track.None? ==> n == 0 && listeners == {} && autoPlay == None && liveTimers == {}
      ensures track.Some? ==> n == track.value && currentIndex == 0 && Rendered()
      ensures track.Some? ==> listeners == WiredListeners(n) && autoPlay.Some?
    {
      trackPresent := track.Some?;
      n := if track.Some? then track.value else 0;
      currentIndex := 0;
      indicators := new Indicator[0];
      offset := 0;
      prevDisabled, nextDisabled := false, false;
      autoPlay := None;
      listeners := {};
      nextHandle := 1;
      liveTimers := {};
      new;
      if track.Some? {
        Init();
      }
    }

    /** `init`: build the indicators, wire the buttons, start autoplay, wire
        the hover handlers and render the first slide. */
    method Init()
      requires trackPresent && currentIndex == 0
      requires autoPlay == None && liveTimers == {} && listeners == {} && 1 <= nextHandle
      modifies this
      ensures Valid() && Rendered() && fresh(indicators)
      ensures currentIndex == 0 && listeners == WiredListeners(n)
      ensures autoPlay == Some(old(nextHandle)) && liveTimers == {old(nextHandle)}
    {
      CreateIndicators();
      listeners := listeners + {PrevClick, NextClick};
      StartAutoPlay();
      listeners := listeners + {HoverEnter, HoverLeave};
      UpdateCarousel();
    }

    /** `createIndicators`: one unmarked button per slide, in slide order,
        each with its label and a click listener for its slide. */
    method CreateIndicators()
      modifies this
      ensures fresh(indicators) && indicators.Length == n
      ensures forall k :: 0 <= k < n ==> indicators[k] == Indicator(Label(k), false, false)
      ensures listeners == old(listeners) + IndicatorListeners(n)
      ensures currentIndex == old(currentIndex) && offset == old(offset)
      ensures prevDisabled == old(prevDisabled) && nextDisabled == old(nextDisabled)
      ensures autoPlay == old(autoPlay) && nextHandle == old(nextHandle)
      ensures liveTimers == old(liveTimers)
    {
      var created := new Indicator[n];
      var wired := listeners;
      for k := 0 to n
        modifies created
        invariant forall j :: 0 <= j < k ==> created[j] == Indicator(Label(j), false, false)
        invariant wired == old(listeners) + set j: nat | j < k :: IndicatorClick(j)
      {
        created[k] := Indicator(Label(k), false, false);
        wired := wired + {IndicatorClick(k)};
      }
      indicators := created;
      listeners := wired;
    }

    /** `goToSlide(index)`: no bounds check; the index is taken as given. */
    method GoToSlide(index: int)
      requires Valid()
      modifies this, indicators
      ensures Valid() && Rendered()
      ensures currentIndex == index && indicators == old(indicators)
      ensures autoPlay == old(autoPlay) && listeners == old(listeners) && liveTimers == old(liveTimers)
      ensures nextHandle == old(nextHandle)
    {
      currentIndex := index;
      UpdateCarousel();
    }

    /** `goToNext`: one slide forward, wrapping from the last to the first. */
    method GoToNext()
      requires Valid() && n >= 1
      modifies this, indicators
      ensures Valid() && Rendered()
      ensures currentIndex == NextIndex(old(currentIndex), n) && indicators == old(indicators)
      ensures autoPlay == old(autoPlay) && listeners == old(listeners) && liveTimers == old(liveTimers)
      ensures nextHandle == old(nextHandle)
    {
      currentIndex := JsRem(currentIndex + 1, n);
      UpdateCarousel();
    }

    /** `goToPrevious`: one slide back, wrapping from the first to the last. */
    method GoToPrevious()
      requires Valid() && n >= 1
      modifies this, indicators
      ensures Valid() && Rendered()
      ensures currentIndex == PreviousIndex(old(currentIndex), n) && indicators == old(indicators)
      ensures autoPlay == old(autoPlay) && listeners == old(listeners) && liveTimers == old(liveTimers)
      ensures nextHandle == old(nextHandle)
    {
      currentIndex := JsRem(currentIndex - 1 + n, n);
      UpdateCarousel();
    }

    /** `updateCarousel`: move the track, mark the indicator of the current
        slide and no other, and enable both buttons. */
    method UpdateCarousel()
      requires Valid()
      modifies this, indicators
      ensures Valid() && Rendered()
      ensures indicators == old(indicators) && indicators[..] == Render(old(indicators[..]), currentIndex)
      ensures currentIndex == old(currentIndex) && autoPlay == old(autoPlay)
      ensures listeners == old(listeners) && nextHandle == old(nextHandle)
      ensures liveTimers == old(liveTimers)
    {
      offset := TrackOffset(currentIndex);
      for k := 0 to indicators.Length
        modifies indicators
        invariant forall j :: 0 <= j < k ==>
          indicators[j] == old(indicators[j]).(active := j == currentIndex, selected := j == currentIndex)
        invariant forall j :: k <= j < indicators.Length ==> indicators[j] == old(indicators[j])
      {
        indicators[k] := indicators[k].(active := k == currentIndex, selected := k == currentIndex);
      }
      prevDisabled := false;
      nextDisabled := false;
    }

    /** `startAutoPlay`: clear the old timer, then install a fresh one. */
    method StartAutoPlay()
      requires TimersValid()
      modifies this
      ensures TimersValid()
      ensures autoPlay == Some(old(nextHandle)) && liveTimers == {old(nextHandle)}
      ensures old(nextHandle) !in old(liveTimers) && nextHandle == old(nextHandle) + 1
      ensures currentIndex == old(currentIndex) && indicators == old(indicators)
      ensures offset == old(offset) && listeners == old(listeners)
      ensures prevDisabled == old(prevDisabled) && nextDisabled == old(nextDisabled)
    {
      StopAutoPlay();
      autoPlay := Some(nextHandle);
      liveTimers := liveTimers + {nextHandle};
      nextHandle := nextHandle + 1;
    }

    /** `stopAutoPlay`: clear the timer if one is held. */
    method StopAutoPlay()
      requires TimersValid()
      modifies this
      ensures TimersValid()
      ensures autoPlay == None && liveTimers == {}
      ensures old(autoPlay) == None ==> unchanged(this)
      ensures currentIndex == old(currentIndex) && indicators == old(indicators)
      ensures offset == old(offset) && listeners == old(listeners) && nextHandle == old(nextHandle)
      ensures prevDisabled == old(prevDisabled) && nextDisabled == old(nextDisabled)
    {
      if autoPlay.Some? && autoPlay.value != 0 {
        liveTimers := liveTimers - {autoPlay.value};
        autoPlay := None;
      }
    }

    /** A tick of a live timer runs `goToNext`. */
    method Tick(handle: nat)
      requires Valid() && handle in liveTimers && n >= 1
      modifies this, indicators
      ensures Valid() && Rendered()
      ensures autoPlay == old(autoPlay) == Some(handle)
      ensures indicators == old(indicators) && nextHandle == old(nextHandle)
      ensures currentIndex == NextIndex(old(currentIndex), n)
      ensures 0 <= old(currentIndex) < n ==> 0 <= currentIndex < n
    {
      GoToNext();
    }

    /** An event reaching one of the registered listeners. */
    method Dispatch(e: Listener)
      requires Valid() && e in listeners
      requires e == PrevClick || e == NextClick ==> n >= 1
      modifies this, indicators
      ensures Valid() && indicators == old(indicators)
      ensures e.IndicatorClick? || e == PrevClick || e == NextClick ==> Rendered()
      ensures 0 <= old(currentIndex) < n ==> 0 <= currentIndex < n
      ensures e == PrevClick ==> currentIndex == PreviousIndex(old(currentIndex), n)
      ensures e == NextClick ==> currentIndex == NextIndex(old(currentIndex), n)
      ensures e.IndicatorClick? ==> currentIndex == e.index
      ensures e.IndicatorClick? || e == PrevClick || e == NextClick ==>
        autoPlay == old(autoPlay) && liveTimers == old(liveTimers) && nextHandle == old(nextHandle)
      ensures e == HoverEnter ==> nextHandle == old(nextHandle)
      ensures e == HoverLeave ==> autoPlay == Some(old(nextHandle)) && nextHandle == old(nextHandle) + 1
      ensures e == HoverEnter || e == HoverLeave ==>
        currentIndex == old(currentIndex) && offset == old(offset)
        && indicators[..] == old(indicators[..]) && (old(Rendered()) ==> Rendered())
      ensures e == HoverEnter ==> autoPlay == None && liveTimers == {}
      ensures e == HoverLeave ==> autoPlay.Some? && liveTimers == {autoPlay.value}
    {
      match e
      case PrevClick => GoToPrevious();
      case NextClick => GoToNext();
      case IndicatorClick(k) => GoToSlide(k);
      case HoverEnter => StopAutoPlay();
      case HoverLeave => StartAutoPlay();
    }
  }

  /** Three slides: forward three times wraps to the first, back once wraps to the last. */
  method ThreeSlideWalk() {
    var c := new Carousel(Some(3));
    assert c.currentIndex == 0;
    c.GoToNext();
    assert c.currentIndex == 1;
    c.GoToNext();
    assert c.currentIndex == 2;
    c.GoToNext();
    assert c.currentIndex == 0;
    c.GoToPrevious();
    assert c.currentIndex == 2;
    ExactlyOneActive(c.indicators[..], c.currentIndex);
    assert CountTrue(ActiveFlags(c.indicators[..])) == 1;
  }

  /** Starting autoplay twice leaves one live timer; stopping twice is harmless. */
  method RestartKeepsOneTimer() {
    var c := new Carousel(Some(2));
    c.StartAutoPlay();
    c.StartAutoPlay();
    assert |c.liveTimers| == 1;
    c.StopAutoPlay();
    c.StopAutoPlay();
    assert c.liveTimers == {} && c.autoPlay == None;
  }

  /** Hovering, clicking and leaving in any order keeps one indicator marked. */
  method HoverAndClick() {
    var c := new Carousel(Some(3));
    c.Dispatch(HoverEnter);
    c.Dispatch(NextClick);
    assert c.currentIndex == 1 && c.autoPlay == None;
    assert IndicatorClick(2) in IndicatorListeners(3);
    c.Dispatch(IndicatorClick(2));
    c.Dispatch(HoverLeave);
    assert c.currentIndex == 2 && c.Rendered() && c.autoPlay.Some?;
    ExactlyOneActive(c.indicators[..], c.currentIndex);
    assert CountTrue(ActiveFlags(c.indicators[..])) == 1;
  }

  /** Without a track the carousel is inert: no listener, no timer. */
  method MissingTrack() {
    var c := new Carousel(None);
    assert c.listeners == {} && c.liveTimers == {} && c.indicators.Length == 0;
  }
}
