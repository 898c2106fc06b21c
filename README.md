# Carousel of the workshop site, modelled in Dafny

The site's script (`main.js`) drives an image carousel: a track of slides
moved by a percentage translation, one indicator button per slide, previous
and next buttons, and an autoplay timer that advances every few seconds and
pauses while the pointer is over the carousel. This project models that
`Carousel` class as a Dafny class over the same state and proves what its
operations keep true. It also models two small page rules from the same
file: which menu link is highlighted when a section scrolls into view, and
the `keyboard-nav` mark on the body.

Files:

- `slide_index.dfy` (module `SlideIndex`): the index arithmetic of
  `goToNext` and `goToPrevious`. JavaScript's truncating `%` is written out
  as `JsRem`. The module also has lemmas about repeated steps: forward and
  back are inverses, `n` steps forward return to the start, any run of the
  carousel's commands stays in range.
- `carousel.dfy` (module `CarouselComponent`): the `Carousel` class, with
  the indicators as an `array<Indicator>` that `updateCarousel` rewrites in
  place. The timer handle is an `Option<nat>`. The browser's table of live
  timers is a ghost set, and the registered event listeners are a set of
  `Listener` values. `Carousel.Dispatch` is the event handler on the
  object; `SlideIndex.Run` is its value-level counterpart over the same
  moves (`Next`, `Previous`, `GoTo`), and `RunStaysInRange` extends the
  one-event range promise of `Dispatch` to whole event sequences. Four client methods walk through three slides wrapping
  both ways, a mix of hover and click events that keeps one indicator
  marked, autoplay restarted twice, and a page without a track.
- `page.dfy` (module `PageBehaviour`): the active-menu rule and the
  keyboard-navigation flag.
- `decimal.dfy`, `counting.dfy`, `wrappers.dfy`: decimal printing of the
  slide number in an indicator's label, counting of set flags, and `Option`.

Decisions:

- `goToSlide` is modelled as the source writes it, with no bounds check.
  The model proves that an out-of-range index leaves no indicator active
  (`ExactlyOneActive`). It also proves that no event the carousel listens to
  produces such an index: indicator clicks carry only slide positions
  (`RunStaysInRange`, `Carousel.Dispatch`).
- The DOM lookups become the constructor's argument. `None` means the
  track is missing: the carousel then registers no listener and starts no
  timer. `Some(n)` means the track holds `n` slides.
- Timer handles are positive numbers handed out in increasing order, as
  browsers do. `stopAutoPlay` tests the handle's truthiness, which the model
  writes as "present and non-zero".

## Model

| member | source | states |
|---|---|---|
| SlideIndex.JsRem | main.js:58 | JavaScript's remainder lies strictly between `-b` and `b`, agrees with the mathematical remainder for a non-negative dividend, and is never positive for a negative one |
| SlideIndex.NextIndex | main.js:57-60 | for an index in `[0, n)` the next index is the following one, with `n-1` wrapping to `0`; from any index at least `-1` the result lies in `[0, n)` |
| SlideIndex.PreviousIndex | main.js:62-65 | for an index in `[0, n)` the previous index is the one before, with `0` wrapping to `n-1`; from any index at least `1-n` the dividend is non-negative and the result lies in `[0, n)` |
| SlideIndex.NextPreviousInverse | main.js:57-65 | `goToPrevious` after `goToNext` restores the index, and so does the reverse order |
| SlideIndex.AdvanceWithinTurn | main.js:58 | `k <= n` calls of `goToNext` move the index `k` places, wrapping past the last slide at most once |
| SlideIndex.FullTurn | main.js:58 | `n` calls of `goToNext` return the index to its start |
| SlideIndex.AdvanceCompose | main.js:58 | `a` calls of `goToNext` followed by `b` more equal `a + b` calls |
| SlideIndex.WholeTurns | main.js:58 | any whole number of turns (`m * n` calls of `goToNext`) returns the index to its start |
| SlideIndex.AdvanceInRange | main.js:58 | any number of `goToNext` calls from a valid index stays in `[0, n)` |
| SlideIndex.RetreatUndoesAdvance | main.js:57-65 | `k` calls of `goToPrevious` undo `k` calls of `goToNext` |
| SlideIndex.RunStaysInRange | main.js:46-65 | any sequence of next, previous and indicator-driven `goToSlide` commands from a valid index ends on a valid index |
| Decimal.NatToString | main.js:44 | the printed slide number is a non-empty digit string with no leading zero |
| Decimal.ParseNatToString | main.js:44 | the printed slide number reads back as the same number |
| Decimal.NatToStringInjective | main.js:44 | different slide numbers print differently |
| CarouselComponent.LabelsDistinct | main.js:44 | no two indicators carry the same `Go to slide k+1` label |
| CarouselComponent.OffsetWithinTrack | main.js:69 | in a rendered carousel the offset gives back the current index (`-offset / 100`), and it lies between the first and last slide of the track exactly when the index names a slide |
| CarouselComponent.Render | main.js:73-76 | the indicator loop keeps each label and length, and marks a button active and `aria-selected` iff its position is the current index |
| CarouselComponent.ExactlyOneActive | main.js:73-76 | after rendering, exactly one indicator is active when the index is in range, and none when it is not |
| CarouselComponent.Carousel.constructor | main.js:6-19 | with no track, the carousel registers no listener, starts no timer and has no indicators; with a track of `n` slides it is initialised, shows slide 0 and holds one live timer |
| CarouselComponent.Carousel.Init | main.js:21-38 | builds the indicators, registers every listener, leaves exactly one live timer, and renders slide 0 |
| CarouselComponent.Carousel.CreateIndicators | main.js:40-50 | a fresh array of exactly `n` unmarked indicators in slide order labelled `Go to slide k+1`, plus one click listener per slide; nothing else changes |
| CarouselComponent.Carousel.GoToSlide | main.js:52-55 | sets the index to exactly the given value, unchecked, and re-renders; the timer and the listeners are untouched |
| CarouselComponent.Carousel.GoToNext | main.js:57-60 | the index becomes `NextIndex` of the old one and the carousel is re-rendered; the timer is untouched |
| CarouselComponent.Carousel.GoToPrevious | main.js:62-65 | the index becomes `PreviousIndex` of the old one and the carousel is re-rendered; the timer is untouched |
| CarouselComponent.Carousel.UpdateCarousel | main.js:67-81 | the indicators become `Render` of the old ones, the offset is `-currentIndex * 100`, both buttons are enabled; index, timer and listeners are unchanged |
| CarouselComponent.Carousel.StartAutoPlay | main.js:83-86 | the old timer is cleared first and a fresh handle installed, so exactly one timer is live afterwards |
| CarouselComponent.Carousel.StopAutoPlay | main.js:88-93 | afterwards no timer is held or live; when none was held, nothing changes (idempotent) |
| CarouselComponent.Carousel.Tick | main.js:85 | only the live timer ticks, and a tick is a `goToNext` that keeps a valid index valid |
| CarouselComponent.Carousel.Dispatch | main.js:26-46 | every registered listener keeps the invariant and a valid index valid; the previous and next buttons move the index by `PreviousIndex` and `NextIndex`, an indicator click sets it to that indicator's slide, and all three re-render and keep the timer; hover enter stops the timer and hover leave leaves exactly one timer running, both keeping the index, the indicators, the offset and the rendering |
| PageBehaviour.FirstLink | main.js:156-159 | the link found is the first one whose href is the target, and none is found iff no link has that href |
| PageBehaviour.HighlightMarksExactlyOne | main.js:150-159 | after a section comes into view, exactly one link is active if some link points to it, none otherwise, and the active link points to it |
| PageBehaviour.LastIntersecting | main.js:146-147 | picks the last intersecting entry of a batch, and none iff no entry intersects |
| PageBehaviour.NavMenu.MarkSection | main.js:148-159 | all links are cleared and only the first link to `#id` is marked |
| PageBehaviour.NavMenu.OnIntersect | main.js:145-162 | a batch with no intersecting entry leaves the menu as it was; otherwise the menu shows the last intersecting section |
| PageBehaviour.KeyboardNavIff | main.js:168-178 | the body is in keyboard mode iff Tab was pressed with no mouse press since, or it started so and the mouse was never pressed |
| PageBehaviour.Body.OnKeyDown | main.js:170-174 | Tab turns keyboard mode on; any other key changes nothing |
| PageBehaviour.Body.OnMouseDown | main.js:176-178 | a mouse press turns keyboard mode off |

## Left out

- A track with no slides: `goToNext` and `goToPrevious` then compute `% 0`, which is `NaN` in JavaScript. The model requires at least one slide for them, for `Tick` and for the button events. It does not represent `NaN`.
- Non-integer or non-numeric arguments to `goToSlide`: the model's index is an integer. The source's only caller passes a slide position.
- Missing indicator host or direction buttons: the source would throw in `init`. The model assumes that these elements exist when the track does.
- Indicator host children that exist before `createIndicators`: the source collects every child of the host. The model assumes the host starts empty, so the indicators are exactly the created buttons.
- The DOM itself: class lists, attribute strings, `role="tab"`, the `translateX(...%)` string and `appendChild` become fields of the model (an indicator's label and flags, the integer offset, the button flags).
- Timer timing: the 5000 ms period and the event loop. A tick is an event that the browser may deliver for a live handle at any time.
- The browser's global handle counter: the model draws handles from a counter of its own that no other script shares.
- The scroll fade-in observer and the observer geometry of the active menu (thresholds, root margins): these depend on viewport layout. Only the callback's effect on the links is modelled.
- A section id that makes the `a[href="#id"]` selector invalid: the source would throw. The model compares hrefs as strings.
- Smooth anchor scrolling, the resize handler, the CSS import, the console message and the `DOMContentLoaded` bootstrap: they have no state to model.
