/**
 The slide-index state machine of the Swiper carousel, as values.

 A carousel holds a current slide index, a `changing` flag that is raised while a
 transition runs, the slide that was current before the transition (`prev`) and,
 per slide, what the widget writes on that slide's element: its z-index and its
 `active` and `changing` classes. A transition has two phases: `Begin` (the
 synchronous part of `setCurrentSlide`, with the z-index writes it schedules) and
 `Complete` (the frame callbacks of `_setSlideActive`, which end the transition).
 */
module Transitions {

  datatype Option<T> = None | Some(value: T)

  /** A navigation request, the `message` of `changeSlide`. */
  datatype Message = Next | Prev | Other

  /** What the widget writes on one slide element. */
  datatype Slide = Slide(zIndex: int, active: bool, changing: bool)

  datatype State = State(current: int, changing: bool, prev: Option<nat>, slides: seq<Slide>)

  /** z-index of a slide the widget has not touched yet (the browser's default). */
  const Unset := 0
  /** z-index of every slide that is neither shown nor leaving. */
  const Lowered := 1
  /** z-index of the outgoing slide while the incoming one is brought up. */
  const Outgoing := 5
  /** z-index of the incoming slide. */
  const Raised := 10

  predicate InRange(i: int, n: int) {
    0 <= i < n
  }

  /** The recorded previous slide, if any, is one of the slides. */
  predicate WellFormed(s: State) {
    s.prev.Some? ==> s.prev.value < |s.slides|
  }

  /** `slides[i]`: a slide when `i` is an index, nothing otherwise. */
  function SlideAt(i: int, n: int): (r: Option<nat>)
    ensures r.Some? <==> InRange(i, n)
    ensures r.Some? ==> r.value == i
  {
    if 0 <= i < n then Some(i) else None
  }

  /** The index `changeSlide` moves to: forward or back with wrap-around. */
  function Advance(current: int, count: int, msg: Message): (r: int)
    ensures InRange(current, count) ==> InRange(r, count)
    ensures msg == Other ==> r == current
  {
    match msg
    case Next => if current + 1 >= count then 0 else current + 1
    case Prev => if current - 1 < 0 then count - 1 else current - 1
    case Other => current
  }

  /** Wrap-around is arithmetic modulo the number of slides. */
  lemma AdvanceIsModular(current: int, count: int)
    requires InRange(current, count)
    ensures Advance(current, count, Next) == (current + 1) % count
    ensures Advance(current, count, Prev) == (current - 1 + count) % count
  {
    if current + 1 < count {
      SmallMod(current + 1, count);
    } else {
      WrapMod(current + 1, count);
    }
    if current >= 1 {
      WrapMod(current - 1 + count, count);
    } else {
      SmallMod(count - 1, count);
    }
  }

  lemma SmallMod(a: int, n: int)
    requires 0 <= a < n
    ensures a % n == a
  {
  }

  lemma WrapMod(a: int, n: int)
    requires 0 < n <= a < 2 * n
    ensures a % n == a - n
  {
  }

  /** The carousel right after `initSlides`: `count` untouched slides, `startIndex` unchecked. */
  function Initial(count: nat, startIndex: int): (r: State)
    ensures WellFormed(r) && !r.changing && r.prev == None && r.current == startIndex
    ensures |r.slides| == count
    ensures forall j | 0 <= j < count :: r.slides[j] == Slide(Unset, false, false)
  {
    State(startIndex, false, None, seq(count, _ => Slide(Unset, false, false)))
  }

  /** What `setCurrentSlide` does to slide `i` before any frame callback of the incoming slide runs. */
  function BeginSlide(s: Slide, i: nat, current: int, prev: Option<nat>): (r: Slide)
    ensures prev == Some(i) ==> r == Slide(Outgoing, false, true)
    ensures prev != Some(i) ==> r.active == s.active && r.changing == s.changing
    ensures prev != Some(i) && i == current ==> r == s
    ensures prev != Some(i) && i != current ==> r.zIndex == Lowered
  {
    if prev == Some(i) then s.(zIndex := Outgoing, active := false, changing := true)
    else if i == current then s
    else s.(zIndex := Lowered)
  }

  /** `setCurrentSlide`: raise the flag, demote the outgoing slide, lower every other slide but the incoming one. */
  function Begin(s: State): (r: State)
    requires WellFormed(s)
    ensures WellFormed(r) && r.changing && r.current == s.current && r.prev == s.prev
    ensures |r.slides| == |s.slides|
    ensures s.prev.Some? ==> r.slides[s.prev.value] == s.slides[s.prev.value].(zIndex := Outgoing, active := false, changing := true)
    ensures forall j | 0 <= j < |s.slides| && j != s.current && Some(j) != s.prev :: r.slides[j] == s.slides[j].(zIndex := Lowered)
    ensures InRange(s.current, |s.slides|) && Some(s.current) != s.prev ==> r.slides[s.current] == s.slides[s.current]
  {
    s.(changing := true,
       slides := seq(|s.slides|, j requires 0 <= j < |s.slides| => BeginSlide(s.slides[j], j, s.current, s.prev)))
  }

  /** A completion is scheduled: `setCurrentSlide` only schedules `_setSlideActive` for a slide whose index is `current`. */
  predicate Pending(s: State)
    ensures Pending(s) <==> s.changing && SlideAt(s.current, |s.slides|) == Some(s.current)
  {
    s.changing && InRange(s.current, |s.slides|)
  }

  /** The callbacks of `_setSlideActive`: raise and activate the incoming slide, clear the flag, settle the outgoing slide. */
  function Complete(s: State): (r: State)
    requires WellFormed(s) && Pending(s)
    ensures WellFormed(r) && !r.changing && r.current == s.current && r.prev == s.prev
    ensures |r.slides| == |s.slides|
    ensures r.slides[s.current].active
    ensures s.prev.Some? ==> r.slides[s.prev.value].zIndex == Lowered && !r.slides[s.prev.value].changing
    ensures s.prev != Some(s.current) ==> r.slides[s.current].zIndex == Raised
    ensures s.prev != Some(s.current) ==> r.slides[s.current].changing == s.slides[s.current].changing
    ensures s.prev.Some? && s.prev != Some(s.current) ==> r.slides[s.prev.value].active == s.slides[s.prev.value].active
    ensures forall j | 0 <= j < |s.slides| && j != s.current && Some(j) != s.prev :: r.slides[j] == s.slides[j]
  {
    var shown := s.slides[s.current := s.slides[s.current].(zIndex := Raised, active := true)];
    var settled :=
      match s.prev
      case Some(p) => shown[p := shown[p].(changing := false, zIndex := Lowered)]
      case None => shown;
    s.(changing := false, slides := settled)
  }

  /** `changeSlide`: ignored with at most one slide or while a transition runs; otherwise records the old slide and begins. */
  function ChangeSlide(s: State, msg: Message): (r: State)
    requires WellFormed(s)
    ensures WellFormed(r) && |r.slides| == |s.slides|
    ensures |s.slides| <= 1 || s.changing ==> r == s
    ensures !(|s.slides| <= 1 || s.changing) ==>
              r.changing && r.prev == SlideAt(s.current, |s.slides|) && r.current == Advance(s.current, |s.slides|, msg)
  {
    if |s.slides| <= 1 || s.changing then s
    else Begin(s.(prev := SlideAt(s.current, |s.slides|), current := Advance(s.current, |s.slides|, msg)))
  }

  /** `slideTo`: ignored while a transition runs or for an index outside the slides; no guard on the number of slides. */
  function SlideTo(s: State, index: int): (r: State)
    requires WellFormed(s)
    ensures WellFormed(r) && |r.slides| == |s.slides|
    ensures s.changing || !InRange(index, |s.slides|) ==> r == s
    ensures !s.changing && InRange(index, |s.slides|) ==>
              r.changing && r.current == index && r.prev == SlideAt(s.current, |s.slides|)
  {
    if s.changing || index >= |s.slides| || index < 0 then s
    else Begin(s.(prev := SlideAt(s.current, |s.slides|), current := index))
  }

  /** What can happen to a carousel: a navigation (button, autoplay, drag, `next`, `prev`), a jump, or the scheduled completion running. */
  datatype Event = Navigate(msg: Message) | Jump(index: int) | Finish

  function Step(s: State, e: Event): (r: State)
    requires WellFormed(s)
    ensures WellFormed(r) && |r.slides| == |s.slides|
    ensures s.changing && !r.changing ==> e == Finish
  {
    match e
    case Navigate(msg) => ChangeSlide(s, msg)
    case Jump(index) => SlideTo(s, index)
    case Finish => if Pending(s) then Complete(s) else s
  }

  /** The state after the events, in order. */
  function Run(s: State, events: seq<Event>): (r: State)
    requires WellFormed(s)
    ensures WellFormed(r) && |r.slides| == |s.slides|
    decreases |events|
  {
    if events == [] then s else Run(Step(s, events[0]), events[1..])
  }

  /**
   Between transitions: only the current slide is active, no slide carries the
   `changing` class, every other slide sits at `Lowered`, and the current one at
   `Raised`, unless it was also the outgoing slide of the last transition.
   */
  predicate Settled(s: State) {
    WellFormed(s) && !s.changing && InRange(s.current, |s.slides|)
    && (forall j | 0 <= j < |s.slides| :: s.slides[j].active <==> j == s.current)
    && (forall j | 0 <= j < |s.slides| :: !s.slides[j].changing)
    && (forall j | 0 <= j < |s.slides| && j != s.current :: s.slides[j].zIndex == Lowered)
    && s.slides[s.current].zIndex == (if s.prev == Some(s.current) then Lowered else Raised)
  }

  /**
   During a transition: no slide is active, only the outgoing slide carries the
   `changing` class and sits at `Outgoing`, and every slide that is neither
   incoming nor outgoing sits at `Lowered`.
   */
  predicate InTransition(s: State) {
    WellFormed(s) && s.changing && InRange(s.current, |s.slides|)
    && (forall j | 0 <= j < |s.slides| :: !s.slides[j].active)
    && (forall j | 0 <= j < |s.slides| :: s.slides[j].changing <==> Some(j) == s.prev)
    && (forall j | 0 <= j < |s.slides| && j != s.current && Some(j) != s.prev :: s.slides[j].zIndex == Lowered)
    && (s.prev.Some? ==> s.slides[s.prev.value].zIndex == Outgoing)
  }

  /** A transition that can never complete: the current index names no slide. */
  predicate Stuck(s: State) {
    WellFormed(s) && s.changing && !InRange(s.current, |s.slides|)
  }

  predicate Reachable(s: State) {
    Settled(s) || InTransition(s) || Stuck(s)
  }
}
