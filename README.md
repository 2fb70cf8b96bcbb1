# Swiper carousel: the slide state machine

A Dafny model of the state machine inside the `Swiper` class of swiper-js, a
browser carousel. The carousel shows one slide at a time. Its state is:

- the current slide index;
- a `changing` flag that is raised while a transition runs;
- the slide that was current before the transition (`prevSlide`);
- per slide, the z-index and the `active` and `changing` classes the widget writes on the slide element.

Navigation (`changeSlide`, `next`, `prev`) moves the index forward or back with
wrap-around. It is ignored when there is at most one slide or while a transition
runs. `slideTo` jumps to an index. It is ignored while a transition runs or when
the index names no slide. Every accepted change records the old slide, raises
`changing` and begins a two-phase handoff:

- **Begin** (`setCurrentSlide`). The outgoing slide goes to z-index 5, loses `active` and gains `changing`. Every slide that is neither incoming nor outgoing goes to z-index 1.
- **Complete** (the frame callbacks of `_setSlideActive`). The incoming slide goes to z-index 10 and gains `active`. `changing` is cleared. The outgoing slide loses its `changing` class and goes to z-index 1.

A drag longer than a threshold (300 pixels for the mouse) asks for the previous
slide when it moves right and for the next slide when it moves left.

Files:

- `transitions.dfy` (module `Transitions`): the state machine on values. It holds `State`, `Advance`, `Begin`, `Complete`, `ChangeSlide`, `SlideTo`, and runs of events (`Step`, `Run`). It also defines the three shapes a carousel can be in: `Settled`, `InTransition` and `Stuck`.
- `properties.dfy` (module `TransitionProperties`): lemmas about runs of the state machine.
- `drag.dfy` (module `Drag`): the drag decision.
- `swiper.dfy` (module `Carousel`): class `Swiper`. Its fields are updated in place over an `array<Slide>`. Each method is proved equal to the matching `Transitions` function on the object's `Snapshot()`.

The deferred work of the source (`requestAnimationFrame` pairs and `setTimeout`)
is made explicit. A transition is two calls, `SetCurrentSlide` and then
`CompleteChange`. The completion can run only when one was scheduled (`Pending`):
`changing` is set and the current index names a slide. The source schedules
`_setSlideActive` only for the slide whose index equals `currentSlide`. So if
`startIndex` names no slide, `changing` is never cleared and the widget ignores
every request from then on. `InitialIsReachable` and `StuckIsFinal` prove this.

A slide's z-index before the widget first writes it is modelled as 0
(`Unset`). The source only ever writes 1, 5 and 10.

The autoplay timer is one `setInterval` started in `init` (swiper-js.js:89-99).
Nothing restarts it, and each tick issues a "next" request, modelled as a
`Navigate(Next)` event.

## Model

| member | source | states |
|---|---|---|
| Transitions.Advance | swiper-js.js:274-293 | from an index that names a slide, the new index also names one; an unrecognised message keeps the index |
| Transitions.AdvanceIsModular | swiper-js.js:274-293 | "next" is `(current + 1) mod count` (the last slide wraps to 0); "prev" is `(current - 1 + count) mod count` (0 wraps to the last slide) |
| Transitions.SlideAt | swiper-js.js:273 | `slides[currentSlide]`: a slide exactly when the index lies in `[0, count)`, and then that very slide; nothing otherwise |
| Transitions.BeginSlide | swiper-js.js:355-379 | per slide in `setCurrentSlide`: the outgoing slide becomes z-index 5, not active, marked changing; the incoming slide is left alone; any other slide keeps its classes and goes to z-index 1 |
| Transitions.Pending | swiper-js.js:361-374 | a completion is scheduled exactly when `changing` is set and the lookup `slides[currentSlide]` finds a slide, namely the current one |
| Transitions.Initial | swiper-js.js:145-159 | after `initSlides`: `count` untouched slides, `startIndex` unchecked, no previous slide, not changing |
| Transitions.Begin | swiper-js.js:345-380 | `changing` is raised. The outgoing slide is at z-index 5, not active, marked changing. Every slide other than the incoming and the outgoing is at z-index 1. The incoming slide is left as it was |
| Transitions.Complete | swiper-js.js:382-417 | `changing` is cleared and the incoming slide is active. The outgoing slide is unmarked and at z-index 1. The incoming slide is at z-index 10 unless it is also the outgoing one. Every other slide is unchanged |
| Transitions.ChangeSlide | swiper-js.js:261-296 | with at most one slide, or while changing, nothing changes. Otherwise the old slide is recorded as previous, the index moves by `Advance`, and a transition begins |
| Transitions.SlideTo | swiper-js.js:330-343 | while changing, or for an index outside `[0, count)`, nothing changes. Otherwise the index becomes the target, the old slide is recorded, and a transition begins. There is no guard on the number of slides |
| Transitions.Step | swiper-js.js:345-412 | only the completion step can clear `changing` |
| Transitions.Run | swiper-js.js:273-343 | the recorded previous slide is always one of the slides |
| TransitionProperties.InitialIsReachable | swiper-js.js:79-88 | initialisation ends mid-transition when `startIndex` names a slide, and stuck otherwise |
| TransitionProperties.BeginFromSettled | swiper-js.js:345-380 | an accepted change from a settled carousel stages a proper transition: no slide active, only the outgoing one marked and at 5, all others but the incoming one at 1 |
| TransitionProperties.CompleteSettles | swiper-js.js:382-417 | completing such a transition settles the carousel: exactly the current slide is active, none is marked, all others are at 1 |
| TransitionProperties.StepPreservesReachable | swiper-js.js:261-343 | every navigation, jump or completion keeps the carousel settled, in transition or stuck |
| TransitionProperties.RunPreservesReachable | swiper-js.js:261-417 | the same over any sequence of events |
| TransitionProperties.RunKeepsIndexInRange | swiper-js.js:273-343 | a current index in `[0, count)` stays in range after any sequence of events |
| TransitionProperties.StuckIsFinal | swiper-js.js:345-380 | when the current index names no slide, no completion is scheduled and every later event is ignored |
| TransitionProperties.RequestsDuringTransitionAreDropped | swiper-js.js:261-343 | while changing, any number of navigations and jumps leave the state exactly as it was |
| TransitionProperties.WrapAround | swiper-js.js:274-293 | "next" on the last slide goes to slide 0; "prev" on slide 0 goes to the last slide |
| TransitionProperties.NextThenPrevReturns | swiper-js.js:274-293 | a completed "next" followed by an accepted "prev" returns to the starting slide, and the other way round |
| TransitionProperties.SlideToCurrentLowersActive | swiper-js.js:340-410 | `slideTo(currentSlide)` ends settled with the slide active but at z-index 1, like every other slide |
| TransitionProperties.OtherMessageRestartsCurrent | swiper-js.js:273-295 | an unrecognised message keeps the index, records the current slide as previous, and still starts a transition |
| Drag.Threshold | swiper-js.js:243-247 | the threshold is 300 for a mouse drag, the given window-based value for a touch drag, and 0 for any other drag kind |
| Drag.Decide | swiper-js.js:241-258 | a drag asks for something exactly when its distance is strictly above the threshold. Moving right asks for "prev" and moving left asks for "next" |
| Drag.DecideMirrors | swiper-js.js:249-258 | reversing a drag swaps "prev" and "next" and keeps "nothing" |
| Drag.MouseThresholdIsStrict | swiper-js.js:243-258 | a mouse drag of exactly 300 pixels does nothing; 301 pixels navigates |
| Carousel.Swiper.constructor | swiper-js.js:18-87 | the new object is `Begin` applied to the initial carousel, and is mid-transition or stuck |
| Carousel.Swiper.SetCurrentSlide | swiper-js.js:345-380 | the loop over the slide array leaves the object equal to `Begin` of its old state |
| Carousel.Swiper.CompleteChange | swiper-js.js:382-417 | the object becomes `Complete` of its old state, and stays settled, in transition or stuck |
| Carousel.Swiper.ChangeSlide | swiper-js.js:261-296 | the object becomes `ChangeSlide` of its old state, and stays settled, in transition or stuck |
| Carousel.Swiper.Next | swiper-js.js:304-309 | the object becomes `ChangeSlide(old, Next)` |
| Carousel.Swiper.Prev | swiper-js.js:317-322 | the object becomes `ChangeSlide(old, Prev)` |
| Carousel.Swiper.SlideTo | swiper-js.js:330-343 | the object becomes `SlideTo` of its old state, and stays settled, in transition or stuck |
| Carousel.Swiper.DragStart | swiper-js.js:195-199 | records where the drag starts |
| Carousel.Swiper.DragEnd | swiper-js.js:201-206 | records where the drag ends |
| Carousel.Swiper.UpdateAfterDrag | swiper-js.js:237-259 | the object becomes `ChangeSlide` with the message `Decide` gives for the recorded drag, or is unchanged when it gives none |

## Left out

- Markup: HTML assembly, wrapper and navigation markup, CSS class names, and the `disabled` class on the navigation (swiper-js.js:111-143). This is presentation only.
- Option merging with `Object.assign` (swiper-js.js:104-109). The constructor takes the slide count and `startIndex` directly.
- Event-listener wiring (swiper-js.js:161-235). This includes the `mouseDown` and `touchStart` flags and the multi-touch guard. Only the resulting calls are modelled: `DragStart`, `DragEnd`, `UpdateAfterDrag` and the navigation calls.
- A missing root element, which makes the constructor return before `init` (swiper-js.js:72-74). This is DOM lookup.
- Timing (swiper-js.js:89-99, swiper-js.js:365-369, swiper-js.js:395-400, swiper-js.js:419-451). This covers the autoplay interval, `changeDelay`, `afterChangeDelay` and the double `requestAnimationFrame` deferral. Begin's z-index writes land two frames later in the source. The model applies them in `SetCurrentSlide`, and the end state is the same.
- Carousel.Swiper.CompleteChange: treats the completion as one step. In the source, `changing` can be cleared (after `afterChangeDelay`) two frames before the outgoing slide is lowered to 1. A change started in that window interleaves with the pending lowering. The model does not capture that interleaving.
- Slide heights and `autoHeight` (swiper-js.js:138-140, swiper-js.js:151-155, swiper-js.js:387-389). These are measured DOM strings.
- The touch threshold `parseInt(window.innerWidth * 0.3)` (swiper-js.js:246). It depends on the window and uses floating point, so it is the parameter `touchThreshold`.
- Drag coordinates are integers. Browsers may report fractional `clientX`.
- Carousel.Swiper.constructor: takes an integer `startIndex`. The source uses the option unchecked (swiper-js.js:158) and compares it with strict equality (swiper-js.js:363). A string (`"1"`) or fractional (`1.5`) `startIndex` is not modelled; in the source it matches no slide, so the carousel gets stuck exactly as with an out-of-range index.
- Carousel.Swiper.SlideTo: takes an integer index. The source's `parseInt` of a string or fractional index, and JavaScript's loose comparisons, are not modelled.
- The user callbacks `onInit`, `beforeChange` and `afterChange` (swiper-js.js:101, swiper-js.js:405). They are foreign code.
- The UMD module wrapper (swiper-js.js:1-14).
